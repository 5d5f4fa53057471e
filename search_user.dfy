/**
 * SearchUser/SearchUserViewController.swift: looking a user up by uid and
 * adding them as a friend. A user who is already a friend is refused with
 * `alreadyExists`; any other user is offered in a confirmation alert, and
 * confirming writes the friendship both ways.
 */
module SearchUser {
  import opened Wrappers
  import opened AlertValues
  import opened Errors
  import opened Models
  import opened ResourceValues
  import opened InputRules
  import opened DocCollection
  import opened FirestoreManager
  import opened MemoService

  /** The search field's `shouldChangeCharactersIn`: a deletion always, otherwise a whole match of `^[a-zA-Z0-9]+$`. */
  function ShouldChangeCharacters(ins: string): (ok: bool)
    ensures ins == "" ==> ok
    ensures ins != "" ==> (ok <==> forall i :: 0 <= i < |ins| ==> IsUidChar(ins[i]))
  {
    AcceptsReplacement(ins, IsUidChar)
  }

  /** What one completion of the friendship check leads to on this screen. */
  datatype SearchStep =
    | Offer(alert: Alert, user: User)  // `presentAddFriendAlert(user:)`
    | Refuse(report: Report)           // an `errorDidOccur` report
    | Nothing

  /** `presentAddFriendAlert(user:)`: the search-result alert naming the found user. */
  function AddFriendAlert(user: User): (a: Alert)
    ensures a.title == SearchResult
    ensures FoundUsername(a.message) == Some(user.username)
  {
    UserFoundMessageRoundTrip(user.username);
    Alert(SearchResult, Message(UserFound(user.username)))
  }

  /** The screen's reaction to one completion of `checkIfUserIsAlreadyFriend`. */
  function StepOf(event: Reply<bool>, user: User): (step: SearchStep)
    ensures event == Completed(true) ==> step == Refuse(Report(App(AlreadyExists), NoneType))
    ensures event == Completed(false) <==> step.Offer?
    ensures step.Offer? ==> step == Offer(AddFriendAlert(user), user)
    ensures event.Reported? ==> step == Refuse(event.report)
  {
    match event
    case Completed(exists_) => if exists_ then Refuse(Report(App(AlreadyExists), NoneType)) else Offer(AddFriendAlert(user), user)
    case Reported(report) => Refuse(report)
    case Silent => Nothing
  }

  class SearchUserScreen {
    const service: MemoService
    /** `searchTextField.text`. */
    var searchText: string
    /** `searchButton.isEnabled`. */
    var searchEnabled: bool

    ghost predicate Valid()
      reads this, service, service.store
    {
      service.Valid()
    }

    /** `setupButton()`: the search button starts disabled. */
    constructor(service: MemoService)
      requires service.Valid()
      ensures Valid() && this.service == service
      ensures searchText == "" && !searchEnabled
    {
      this.service := service;
      searchText := "";
      searchEnabled := false;
    }

    /** `editingChanged(_:)`: the button is enabled exactly when the field is not empty. */
    method EditingChanged(text: string)
      modifies this
      ensures searchText == text
      ensures searchEnabled <==> text != ""
    {
      searchText := text;
      searchEnabled := text != "";
    }

    /**
     * `proposeFriendAddition()` with `verifyUser`: the typed uid is read; a
     * failed read ends with the service's report; otherwise each completion of
     * the friendship check becomes a step: an already-friend user is refused
     * with `alreadyExists`, any other user is offered for addition.
     */
    method VerifyUser(getUserError: Option<Error>, friendsError: Option<Error>) returns (steps: seq<SearchStep>)
      requires Valid()
      ensures var fetched := service.store.GetUser(searchText, getUserError);
        (fetched.Failure? ==> steps == [Refuse(Routed(fetched.error))]) &&
        (fetched.Success? && service.CurrentUid().None? ==> steps == [Refuse(NotSignedIn)]) &&
        (fetched.Success? && service.CurrentUid().Some? && friendsError.Some? ==>
          steps == [Refuse(Report(friendsError.value, FirestoreType))]) &&
        (fetched.Success? && service.CurrentUid().Some? && friendsError.None? ==>
          var docs := service.store.FriendDocs(service.CurrentUid().value);
          var user := fetched.value;
          |steps| == UndecodableCount(docs) + 1 &&
          (forall k :: 0 <= k < |steps| - 1 ==> steps[k] == Refuse(Report(Decoding, FirestoreType))) &&
          ((exists f :: f in Decoded(docs) && f.uid == searchText) ==>
            steps[|steps| - 1] == Refuse(Report(App(AlreadyExists), NoneType))) &&
          (!(exists f :: f in Decoded(docs) && f.uid == searchText) ==>
            steps[|steps| - 1] == Offer(AddFriendAlert(user), user) && user.uid == Some(searchText)))
    {
      var fetched := service.GetUserAsync(searchText, getUserError);
      if fetched.0.Failure? {
        return [Refuse(fetched.1.value)];
      }
      var user := fetched.0.value;
      var events := service.CheckIfUserIsAlreadyFriend(user, friendsError);
      steps := [];
      for i := 0 to |events|
        invariant |steps| == i
        invariant forall k :: 0 <= k < i ==> steps[k] == StepOf(events[k], user)
      {
        steps := steps + [StepOf(events[i], user)];
      }
    }

    /**
     * `addFriend(user:)`: the screen is popped exactly when the friend request
     * completes, and then both users hold the other as a friend. A failure
     * after the first write keeps that one edge.
     */
    method AddFriend(user: User, getUserError: Option<Error>, firstError: Option<Error>, secondError: Option<Error>)
      returns (popped: bool)
      requires Valid()
      modifies service.store
      ensures Valid()
      ensures popped <==>
        service.CurrentUid().Some? && user.uid.Some? && user.uid != service.CurrentUid() &&
        service.store.GetUser(service.CurrentUid().value, getUserError).Success? &&
        firstError.None? && secondError.None?
      ensures popped ==>
        HasEdge(service.store.friends, service.CurrentUid().value, user.uid.value) &&
        HasEdge(service.store.friends, user.uid.value, service.CurrentUid().value)
      ensures service.CurrentUid().None? || user.uid == service.CurrentUid() ==>
        service.store.friends == old(service.store.friends)
      ensures service.CurrentUid().Some? && user.uid != service.CurrentUid() ==>
        var cur := service.CurrentUid().value;
        var fetched := service.store.GetUser(cur, getUserError);
        (fetched.Failure? || user.uid.None? || firstError.Some? ==> service.store.friends == old(service.store.friends)) &&
        (fetched.Success? && user.uid.Some? && firstError.None? && secondError.Some? ==>
          service.store.friends == WithEdge(old(service.store.friends), cur, user.uid.value)) &&
        (fetched.Success? && user.uid.Some? && firstError.None? && secondError.None? ==>
          service.store.friends == WithEdge(WithEdge(old(service.store.friends), cur, user.uid.value), user.uid.value, cur))
      ensures service.store.users == old(service.store.users) && service.store.memos == old(service.store.memos)
      ensures service.store.currentUid == old(service.store.currentUid)
      ensures service.store.memoListener == old(service.store.memoListener)
      ensures service.store.orphanedListeners == old(service.store.orphanedListeners)
    {
      var reply := service.ValidateFriendRequest(user, getUserError, firstError, secondError);
      popped := reply.Completed?;
      if popped {
        BothEdgesAfterTwoWrites(old(service.store.friends), service.CurrentUid().value, user.uid.value);
      }
    }
  }
}
