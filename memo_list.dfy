/**
 * MemoList/MemoListViewController.swift: the memo list tab. Every new memo
 * list is paired with the user documents of each memo's other member,
 * fetched in parallel and appended as the fetches finish.
 */
module MemoList {
  import opened Wrappers
  import opened AlertValues
  import opened Errors
  import opened Models
  import opened ResourceValues
  import opened InputRules
  import opened TaskGroups
  import opened FirestoreManager
  import opened MemoService

  /** `members.first(where: { $0 != uid })`: the first member who is not `uid`. */
  function Peer(members: seq<string>, uid: string): (r: Option<string>)
    ensures r.None? <==> forall i :: 0 <= i < |members| ==> members[i] == uid
    ensures r.Some? ==>
      exists i :: 0 <= i < |members| && members[i] == r.value && r.value != uid &&
        forall j :: 0 <= j < i ==> members[j] == uid
  {
    if members == [] then None
    else if members[0] != uid then Some(members[0])
    else
      var r := Peer(members[1..], uid);
      assert forall i :: 0 < i < |members| ==> members[i] == members[1..][i - 1];
      r
  }

  /**
   * The friend name of a row (`memoAndFriendInfo.first { memo.id == ... }`):
   * the user name of the first stored pair whose memo has the row's id, and
   * the empty string when there is none.
   */
  function FriendName(info: seq<(Memo, User)>, id: Option<string>): (name: string)
    ensures (forall i :: 0 <= i < |info| ==> info[i].0.id != id) ==> name == ""
    ensures (exists i :: 0 <= i < |info| && info[i].0.id == id) ==>
      exists i :: 0 <= i < |info| && info[i].0.id == id && name == info[i].1.username &&
        forall j :: 0 <= j < i ==> info[j].0.id != id
  {
    if info == [] then ""
    else if info[0].0.id == id then info[0].1.username
    else
      var name := FriendName(info[1..], id);
      assert forall i :: 0 < i < |info| ==> info[i] == info[1..][i - 1];
      name
  }

  /** Every memo has a member other than `cur`, so the group body adds a child task for each of them. */
  predicate AllHavePeers(ms: seq<Memo>, cur: string) {
    forall i :: 0 <= i < |ms| ==> Peer(ms[i].members, cur).Some?
  }

  class MemoListScreen {
    const service: MemoService
    /** `memos`: the rows, so there are `|memos|` of them. */
    var memos: seq<Memo>
    /** `memoAndFriendInfo`: memo/peer pairs, accumulated across refreshes. */
    var memoAndFriendInfo: seq<(Memo, User)>

    ghost predicate Valid()
      reads this, service, service.store
    {
      service.Valid()
    }

    constructor(service: MemoService)
      requires service.Valid()
      ensures Valid() && this.service == service
      ensures memos == [] && memoAndFriendInfo == []
    {
      this.service := service;
      memos := [];
      memoAndFriendInfo := [];
    }

    /** What the child task of memo `i` throws or returns: the async `getUser(documentId:)` of its peer. */
    function PeerFetch(ms: seq<Memo>, cur: string, faults: seq<Option<Error>>, i: nat): Result<User, Error>
      reads service, service.store
      requires |faults| == |ms| && i < |ms| && Peer(ms[i].members, cur).Some?
    {
      service.GetUserAsync(Peer(ms[i].members, cur).value, faults[i]).0
    }

    /**
     * `after` is `before` followed by one pair per child in completion order,
     * up to the first child that throws; that child's error is shown as a
     * Firestore alert, and without one nothing is shown.
     */
    ghost predicate AppendedUntilFailure(ms: seq<Memo>, before: seq<(Memo, User)>, after: seq<(Memo, User)>, cur: string,
                                         faults: seq<Option<Error>>, order: seq<nat>, shown: Option<Alert>)
      reads service, service.store
      requires |faults| == |ms| && IsCompletionOrder(order, |ms|) && AllHavePeers(ms, cur)
    {
      var n := |after| - |before|;
      0 <= n <= |order| && after[..|before|] == before &&
      (forall k :: 0 <= k < n ==>
        PeerFetch(ms, cur, faults, order[k]).Success? &&
        after[|before| + k] == (ms[order[k]], PeerFetch(ms, cur, faults, order[k]).value)) &&
      (n < |order| ==>
        PeerFetch(ms, cur, faults, order[n]).Failure? &&
        shown == Some(GetErrorMessageAndTitle(PeerFetch(ms, cur, faults, order[n]).error, FirestoreType))) &&
      (n == |order| ==> shown.None?)
    }

    /**
     * `getFriendsDetails()`: nothing happens without a signed-in user, and
     * nothing is appended when some memo has no other member (the group body
     * returns before collecting); otherwise the pairs are appended as the
     * fetches finish, and those appended before a failure stay.
     */
    method GetFriendsDetails(faults: seq<Option<Error>>, order: seq<nat>) returns (shown: Option<Alert>)
      requires Valid()
      requires |faults| == |memos| && IsCompletionOrder(order, |memos|)
      modifies this
      ensures Valid() && memos == old(memos)
      ensures service.CurrentUid().None? ==> memoAndFriendInfo == old(memoAndFriendInfo) && shown.None?
      ensures service.CurrentUid().Some? && !AllHavePeers(memos, service.CurrentUid().value) ==>
        memoAndFriendInfo == old(memoAndFriendInfo) && shown.None?
      ensures service.CurrentUid().Some? && AllHavePeers(memos, service.CurrentUid().value) ==>
        AppendedUntilFailure(memos, old(memoAndFriendInfo), memoAndFriendInfo, service.CurrentUid().value, faults, order, shown)
    {
      if service.CurrentUid().None? {
        return None;
      }
      var cur := service.CurrentUid().value;
      var i := 0;
      while i < |memos|
        invariant 0 <= i <= |memos|
        invariant forall j :: 0 <= j < i ==> Peer(memos[j].members, cur).Some?
      {
        if Peer(memos[i].members, cur).None? {
          return None;
        }
        i := i + 1;
      }
      var pairs;
      pairs, shown := CollectPairs(memos, cur, faults, order, memoAndFriendInfo);
      memoAndFriendInfo := pairs;
    }

    /**
     * The `for try await` loop of the group: each finished child appends its
     * memo and peer to `before`; the first child that throws ends the loop and
     * its error becomes the alert.
     */
    method CollectPairs(ms: seq<Memo>, cur: string, faults: seq<Option<Error>>, order: seq<nat>,
                        before: seq<(Memo, User)>) returns (after: seq<(Memo, User)>, shown: Option<Alert>)
      requires Valid()
      requires |faults| == |ms| && IsCompletionOrder(order, |ms|) && AllHavePeers(ms, cur)
      ensures AppendedUntilFailure(ms, before, after, cur, faults, order, shown)
    {
      after := before;
      for k := 0 to |order|
        invariant |after| == |before| + k
        invariant after[..|before|] == before
        invariant forall j :: 0 <= j < k ==>
          PeerFetch(ms, cur, faults, order[j]).Success? &&
          after[|before| + j] == (ms[order[j]], PeerFetch(ms, cur, faults, order[j]).value)
      {
        var m := order[k];
        var fetched := service.GetUserAsync(Peer(ms[m].members, cur).value, faults[m]);
        if fetched.0.Failure? {
          return after, Some(GetErrorMessageAndTitle(fetched.0.error, FirestoreType));
        }
        after := after + [(ms[m], fetched.0.value)];
      }
      shown := None;
    }

    /** The `memosDidChange` handler: the rows become the new memos, then the pairs are fetched. */
    method MemosDidChange(newMemos: seq<Memo>, faults: seq<Option<Error>>, order: seq<nat>) returns (shown: Option<Alert>)
      requires Valid()
      requires |faults| == |newMemos| && IsCompletionOrder(order, |newMemos|)
      modifies this
      ensures Valid() && memos == newMemos
      ensures service.CurrentUid().None? ==> memoAndFriendInfo == old(memoAndFriendInfo) && shown.None?
      ensures service.CurrentUid().Some? && !AllHavePeers(memos, service.CurrentUid().value) ==>
        memoAndFriendInfo == old(memoAndFriendInfo) && shown.None?
      ensures service.CurrentUid().Some? && AllHavePeers(memos, service.CurrentUid().value) ==>
        AppendedUntilFailure(memos, old(memoAndFriendInfo), memoAndFriendInfo, service.CurrentUid().value, faults, order, shown)
    {
      memos := newMemos;
      shown := GetFriendsDetails(faults, order);
    }
  }
}
