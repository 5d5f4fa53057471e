/**
 * FriendList/FriendListViewController.swift: the friend list tab. Each new
 * friend list is hydrated with the friends' user documents, fetched in
 * parallel; a row opens the memo shared with that friend, or the screen that
 * creates one.
 */
module FriendList {
  import opened Wrappers
  import opened AlertValues
  import opened Errors
  import opened Models
  import opened TaskGroups
  import opened MemoQueries
  import opened FirestoreManager
  import opened MemoService

  /** Where a tap leads: a pushed memo detail (with the memo, possibly nil), the create-memo sheet, or nowhere. */
  datatype Navigation = ToMemoDetail(memo: Option<Memo>) | ToCreateMemo(friend: Friend) | Stay(report: Option<Report>)

  class FriendListScreen {
    const service: MemoService
    /** `friends`: the rows, in the order the service delivered them. */
    var friends: seq<Friend>
    /** `friendsDetails`: the user documents of the friends, keyed by uid. */
    var friendsDetails: map<string, User>

    ghost predicate Valid()
      reads this, service, service.store
    {
      service.Valid()
    }

    constructor(service: MemoService)
      requires service.Valid()
      ensures Valid() && this.service == service
      ensures friends == [] && friendsDetails == map[]
    {
      this.service := service;
      friends := [];
      friendsDetails := map[];
    }

    /** What the child task of row `i` throws or returns: the async `getUser(documentId:)` of that friend. */
    function Fetch(faults: seq<Option<Error>>, i: nat): Result<User, Error>
      reads this, service, service.store
      requires |faults| == |friends| && i < |friends|
    {
      service.GetUserAsync(friends[i].uid, faults[i]).0
    }

    /** `m` holds, for every row, the fetched user under the row's uid, and nothing else. */
    predicate HydratedFrom(m: map<string, User>, faults: seq<Option<Error>>)
      reads this, service, service.store
      requires |faults| == |friends|
    {
      (forall i :: 0 <= i < |friends| ==>
        Fetch(faults, i).Success? && friends[i].uid in m && m[friends[i].uid] == Fetch(faults, i).value) &&
      (forall uid :: uid in m ==> exists i :: 0 <= i < |friends| && friends[i].uid == uid)
    }

    /**
     * `getFriendsDetails()`: the children's results are collected in
     * completion order; the first child that throws ends the group with its
     * error, and on success the dictionary maps every friend's uid to its user.
     */
    method GetFriendsDetails(faults: seq<Option<Error>>, order: seq<nat>) returns (r: Result<map<string, User>, Error>)
      requires Valid()
      requires |faults| == |friends| && IsCompletionOrder(order, |friends|)
      ensures r.Success? <==> forall i :: 0 <= i < |friends| ==> Fetch(faults, i).Success?
      ensures r.Success? ==> HydratedFrom(r.value, faults)
      ensures r.Failure? ==>
        exists k :: 0 <= k < |order| && Fetch(faults, order[k]) == Failure(r.error) &&
          forall j :: 0 <= j < k ==> Fetch(faults, order[j]).Success?
    {
      var details: map<string, User> := map[];
      for k := 0 to |order|
        invariant forall j :: 0 <= j < k ==> Fetch(faults, order[j]).Success?
        invariant forall j :: 0 <= j < k ==>
          friends[order[j]].uid in details && details[friends[order[j]].uid] == Fetch(faults, order[j]).value
        invariant forall uid :: uid in details ==> exists j :: 0 <= j < |friends| && friends[j].uid == uid
      {
        var i := order[k];
        var fetched := service.GetUserAsync(friends[i].uid, faults[i]);
        if fetched.0.Failure? {
          assert Fetch(faults, i).Failure?;
          return Failure(fetched.0.error);
        }
        forall j | 0 <= j < k && friends[order[j]].uid == friends[i].uid
          ensures Fetch(faults, order[j]) == Fetch(faults, i)
        {
          assert faults[order[j]].None? && faults[i].None?;
        }
        details := details[friends[i].uid := fetched.0.value];
      }
      forall i | 0 <= i < |friends|
        ensures Fetch(faults, i).Success? && friends[i].uid in details && details[friends[i].uid] == Fetch(faults, i).value
      {
        assert i in order;
        var k :| 0 <= k < |order| && order[k] == i;
      }
      r := Success(details);
    }

    /**
     * The `friendsDidChange` handler: the rows become the new list at once;
     * the details are replaced only when the whole group succeeds, and a
     * failure is shown as a Firestore alert with the old details kept.
     */
    method FriendsDidChange(newFriends: seq<Friend>, faults: seq<Option<Error>>, order: seq<nat>) returns (shown: Option<Alert>)
      requires Valid()
      requires |faults| == |newFriends| && IsCompletionOrder(order, |newFriends|)
      modifies this
      ensures Valid() && friends == newFriends
      ensures shown.None? <==> forall i :: 0 <= i < |friends| ==> Fetch(faults, i).Success?
      ensures shown.None? ==> HydratedFrom(friendsDetails, faults)
      ensures shown.Some? ==>
        friendsDetails == old(friendsDetails) &&
        exists k :: 0 <= k < |order| && Fetch(faults, order[k]).Failure? &&
          shown == Some(GetErrorMessageAndTitle(Fetch(faults, order[k]).error, FirestoreType)) &&
          forall j :: 0 <= j < k ==> Fetch(faults, order[j]).Success?
    {
      friends := newFriends;
      var r := GetFriendsDetails(faults, order);
      if r.Success? {
        friendsDetails := r.value;
        shown := None;
      } else {
        shown := Some(GetErrorMessageAndTitle(r.error, FirestoreType));
      }
    }

    /**
     * `cellForRowAt`: the rows are `friends` (so there are `|friends|` of
     * them); a row is configured with its friend's details when they are
     * known, and left blank otherwise.
     */
    function CellDetails(row: nat): (d: Option<User>)
      reads this
      requires row < |friends|
      ensures d.Some? <==> friends[row].uid in friendsDetails
      ensures d.Some? ==> d.value == friendsDetails[friends[row].uid]
    {
      var uid := friends[row].uid;
      if uid in friendsDetails then Some(friendsDetails[uid]) else None
    }

    /**
     * `didSelectRowAt`: the first listed memo shared with the row's friend is
     * pushed when there is one, the create-memo sheet is presented when there is none;
     * a failed fetch leaves the screen where it is with the service's report.
     */
    method DidSelectRow(row: nat, sdkError: Option<Error>) returns (nav: Navigation)
      requires Valid() && row < |friends|
      ensures service.CurrentUid().None? ==> nav == Stay(Some(NotSignedIn))
      ensures service.CurrentUid().Some? && sdkError.Some? ==> nav == Stay(Some(Report(sdkError.value, FirestoreType)))
      ensures service.CurrentUid().Some? && sdkError.None? ==>
        var cur := service.CurrentUid().value;
        var s := service.store.MemoSnapshots();
        var f := friends[row];
        (nav.ToCreateMemo? <==> forall i :: 0 <= i < |s| ==> !(cur in s[i].1.members && f.uid in s[i].1.members)) &&
        (nav.ToCreateMemo? ==> nav.friend == f) &&
        (nav.ToMemoDetail? <==> !nav.ToCreateMemo?) &&
        (nav.ToMemoDetail? ==>
          nav.memo.Some? && cur in nav.memo.value.members && f.uid in nav.memo.value.members &&
          exists i :: (0 <= i < |s| && nav.memo.value == Tagged(s[i]) &&
            cur in s[i].1.members && f.uid in s[i].1.members &&
            forall j :: 0 <= j < i ==> !(cur in s[j].1.members && f.uid in s[j].1.members)))
    {
      var friend := friends[row];
      var reply := service.FetchSharedMemo(friend.uid, sdkError);
      match reply {
        case Completed(memo) =>
          if memo.Some? {
            nav := ToMemoDetail(memo);
          } else {
            nav := ToCreateMemo(friend);
          }
        case Reported(report) =>
          nav := Stay(Some(report));
        case Silent =>
          nav := Stay(None);
      }
    }

    /**
     * The `showMemoDetail(friendUid:)` delegate call made after a memo was
     * created: it pushes the detail screen with whatever the fetch
     * returned, the first listed memo shared with the friend or even nil.
     */
    method ShowMemoDetail(friendUid: string, sdkError: Option<Error>) returns (nav: Navigation)
      requires Valid()
      ensures !nav.ToCreateMemo?
      ensures nav.ToMemoDetail? <==> service.CurrentUid().Some? && sdkError.None?
      ensures service.CurrentUid().None? ==> nav == Stay(Some(NotSignedIn))
      ensures service.CurrentUid().Some? && sdkError.Some? ==> nav == Stay(Some(Report(sdkError.value, FirestoreType)))
      ensures nav.ToMemoDetail? ==>
        var cur := service.CurrentUid().value;
        var s := service.store.MemoSnapshots();
        (nav.memo.None? <==> forall i :: 0 <= i < |s| ==> !(cur in s[i].1.members && friendUid in s[i].1.members)) &&
        (nav.memo.Some? ==>
          exists i :: (0 <= i < |s| && nav.memo.value == Tagged(s[i]) &&
            cur in s[i].1.members && friendUid in s[i].1.members &&
            forall j :: 0 <= j < i ==> !(cur in s[j].1.members && friendUid in s[j].1.members)))
    {
      var reply := service.FetchSharedMemo(friendUid, sdkError);
      match reply {
        case Completed(memo) =>
          nav := ToMemoDetail(memo);
        case Reported(report) =>
          nav := Stay(Some(report));
        case Silent =>
          nav := Stay(None);
      }
    }
  }
}
