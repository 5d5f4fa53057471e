/**
 * CreateMemo/CreateMemoViewController.swift: the sheet that names and
 * creates the memo shared with one friend. A memo is created only when the
 * two users share none yet; on success the sheet closes and asks for the new
 * memo's detail screen.
 */
module CreateMemo {
  import opened Wrappers
  import opened Errors
  import opened Models
  import opened ResourceValues
  import opened InputRules
  import opened MemoQueries
  import opened FirestoreManager
  import opened MemoService

  class CreateMemoScreen {
    const service: MemoService
    /** The friend handed over by the friend list; the sheet does nothing without one. */
    const friend: Option<Friend>
    /** `memoNameTextField.text`. */
    var memoName: string
    /** `createButton.isEnabled`. */
    var createEnabled: bool

    ghost predicate Valid()
      reads this, service, service.store
    {
      service.Valid()
    }

    /** `setupCreateButton()`: the button starts disabled. */
    constructor(service: MemoService, friend: Option<Friend>)
      requires service.Valid()
      ensures Valid() && this.service == service && this.friend == friend
      ensures memoName == "" && !createEnabled
    {
      this.service := service;
      this.friend := friend;
      memoName := "";
      createEnabled := false;
    }

    /** `editingChanged(_:)`: the button is enabled exactly when the name is not empty. */
    method EditingChanged(text: string)
      modifies this
      ensures memoName == text
      ensures createEnabled <==> text != ""
    {
      memoName := text;
      createEnabled := text != "";
    }

    /**
     * `tappedCreateButton()`: without a friend nothing happens; otherwise the
     * no-memo-exists gate runs and, only when it hands back the friend's
     * uid, the memo is created under that uid. `Completed(uid)` means the
     * sheet was dismissed and the delegate asked to show the memo with `uid`.
     */
    method TappedCreate(gateError: Option<Error>, freshId: string, now: int) returns (reply: Reply<string>)
      requires Valid()
      modifies service.store
      ensures Valid()
      ensures friend.None? ==> reply == Silent && service.store.memos == old(service.store.memos)
      ensures friend.Some? && service.CurrentUid().None? ==>
        reply == Reported(NotSignedIn) && service.store.memos == old(service.store.memos)
      ensures friend.Some? && service.CurrentUid().Some? && gateError.Some? ==>
        reply == Reported(Report(gateError.value, FirestoreType)) && service.store.memos == old(service.store.memos)
      ensures friend.Some? && service.CurrentUid().Some? && gateError.None? ==>
        var cur := service.CurrentUid().value;
        var f := friend.value.uid;
        var s := old(service.store.MemoSnapshots());
        (SomeMemoIncludesBoth(s, cur, f) ==>
          reply == Silent && service.store.memos == old(service.store.memos)) &&
        (!SomeMemoIncludesBoth(s, cur, f) ==>
          reply == Completed(f) &&
          service.store.memos == old(service.store.memos).Put(freshId, Memo(Some(freshId), memoName, [cur, f], "", now)))
      ensures service.store.users == old(service.store.users) && service.store.friends == old(service.store.friends)
      ensures service.store.currentUid == old(service.store.currentUid)
      ensures service.store.memoListener == old(service.store.memoListener)
      ensures service.store.orphanedListeners == old(service.store.orphanedListeners)
    {
      if friend.None? {
        return Silent;
      }
      var gate := service.GetFriendUidIfNoMemoExists(friend.value.uid, gateError);
      match gate {
        case Completed(friendUid) =>
          var created := service.CreateMemo(friendUid, memoName, freshId, now);
          match created {
            case Completed(_) => reply := Completed(friendUid);
            case Reported(report) => reply := Reported(report);
            case Silent => reply := Silent;
          }
        case Reported(report) =>
          reply := Reported(report);
        case Silent =>
          reply := Silent;
      }
    }
  }

  /**
   * After a successful creation the store holds a memo including both users,
   * so a second tap on the create button for the same friend passes the gate
   * no more: it is silent and creates nothing.
   */
  lemma CreatedMemoBlocksAnotherCreation(memos: DocCollection.Collection<Memo>, freshId: string, memoName: string,
                                          cur: string, friendUid: string, now: int)
    requires memos.Valid()
    ensures var after := memos.Put(freshId, Memo(Some(freshId), memoName, [cur, friendUid], "", now));
      exists i :: 0 <= i < |after.Listing()| &&
        cur in after.Listing()[i].1.members && friendUid in after.Listing()[i].1.members
  {
    var after := memos.Put(freshId, Memo(Some(freshId), memoName, [cur, friendUid], "", now));
    DocCollection.ListingHasEveryDocument(after, freshId);
    var p := (freshId, after.docs[freshId]);
    assert p in after.Listing();
    var i :| 0 <= i < |after.Listing()| && after.Listing()[i] == p;
    assert cur in p.1.members && friendUid in p.1.members;
  }
}
