/**
 * DeleteUser/DeleteUserViewController.swift: account deletion. The user
 * re-authenticates first; only then is the confirmation offered. Confirming
 * deletes the auth account and, after that succeeds, the user document of
 * the uid read before the deletion; only a deleted document leads to the
 * sign-up screen.
 */
module DeleteUser {
  import opened Wrappers
  import opened AlertValues
  import opened Errors
  import opened ResourceValues
  import opened InputRules
  import opened FirebaseAuthManager
  import opened FirestoreManager
  import opened MemoService

  /** The confirmation alert of `reauthenticateUser()`. */
  const ConfirmDeleteAlert: Alert := Alert(Confirmation, Message(ConfirmDeleteAccount))

  class DeleteUserScreen {
    const service: MemoService
    var email: string
    var password: string
    /** `deleteUserButton.isEnabled`. */
    var deleteEnabled: bool

    ghost predicate Valid()
      reads this, service, service.store
    {
      service.Valid()
    }

    /** `setupButton()`: the delete button starts disabled. */
    constructor(service: MemoService)
      requires service.Valid()
      ensures Valid() && this.service == service
      ensures email == "" && password == "" && !deleteEnabled
    {
      this.service := service;
      email, password := "", "";
      deleteEnabled := false;
    }

    /** `editingChanged(_:)`: enabled exactly when the e-mail is filled and the password has 6 characters or more. */
    method EditingChanged(email: string, password: string)
      modifies this
      ensures this.email == email && this.password == password
      ensures deleteEnabled <==> email != "" && |password| >= MinPasswordLength
    {
      this.email, this.password := email, password;
      deleteEnabled := email != "" && password != "" && |password| >= MinPasswordLength;
    }

    /**
     * `reauthenticateUser()`: the alert shown (if any) and the auth report.
     * The confirmation is offered exactly when a signed-in user
     * re-authenticates successfully; with nobody signed in nothing happens.
     */
    function Reauthenticate(sdkError: Option<Error>): (r: (Option<Alert>, Reply<()>))
      reads this, service, service.store
      ensures r.0.Some? <==> service.CurrentUid().Some? && sdkError.None?
      ensures r.0.Some? ==> r.0.value == ConfirmDeleteAlert
      ensures service.CurrentUid().None? ==> r.1 == Silent
      ensures service.CurrentUid().Some? && sdkError.Some? ==> r.1 == Reported(Report(sdkError.value, AuthType))
    {
      var reply := AuthReply(CurrentUserCallOutcome(service.CurrentUid().Some?, sdkError));
      if reply.Completed? then (Some(ConfirmDeleteAlert), reply) else (None, reply)
    }

    /**
     * The delete action of the confirmation (`deleteUser()` and
     * `deleteUserFromFirestore(uid:)`): the uid is read first; the auth
     * account is deleted, which signs the user out; then that uid's document
     * is deleted. `Completed` means the sign-up screen was shown; a failed
     * document deletion is silent.
     */
    method ConfirmDelete(authError: Option<Error>, documentError: Option<Error>) returns (reply: Reply<()>)
      requires Valid()
      modifies service.store
      ensures Valid()
      ensures old(service.store.currentUid).None? ==>
        reply == Silent && service.store.users == old(service.store.users) && service.store.currentUid == None
      ensures old(service.store.currentUid).Some? && authError.Some? ==>
        reply == Reported(Report(authError.value, AuthType)) &&
        service.store.users == old(service.store.users) && service.store.currentUid == old(service.store.currentUid)
      ensures old(service.store.currentUid).Some? && authError.None? ==>
        service.store.currentUid == None &&
        (documentError.Some? ==> reply == Silent && service.store.users == old(service.store.users)) &&
        (documentError.None? ==>
          reply == Completed(()) && service.store.users == old(service.store.users) - {old(service.store.currentUid).value})
      ensures service.store.friends == old(service.store.friends) && service.store.memos == old(service.store.memos)
      ensures service.store.memoListener == old(service.store.memoListener)
      ensures service.store.orphanedListeners == old(service.store.orphanedListeners)
    {
      if service.CurrentUid().None? {
        return Silent;
      }
      var uid := service.CurrentUid().value;
      var deleted := AuthReply(CurrentUserCallOutcome(true, authError));
      if !deleted.Completed? {
        return deleted;
      }
      service.store.currentUid := None;
      var r := service.DeleteUserFromFirestore(uid, documentError);
      reply := if r.Success? then Completed(()) else Silent;
    }
  }
}
