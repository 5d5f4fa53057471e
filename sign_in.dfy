/**
 * SignIn/SignInViewController.swift: signing in with e-mail and password.
 * The login button needs an e-mail and a password of 6 characters or more;
 * only a successful sign-in shows the tab bar.
 */
module SignIn {
  import opened Wrappers
  import opened Errors
  import opened ResourceValues
  import opened InputRules
  import opened FirebaseAuthManager
  import opened FirestoreManager
  import opened MemoService

  class SignInScreen {
    const service: MemoService
    var email: string
    var password: string
    /** `loginButton.isEnabled`. */
    var loginEnabled: bool

    ghost predicate Valid()
      reads this, service, service.store
    {
      service.Valid()
    }

    /** `setupButtons()`: the login button starts disabled. */
    constructor(service: MemoService)
      requires service.Valid()
      ensures Valid() && this.service == service
      ensures email == "" && password == "" && !loginEnabled
    {
      this.service := service;
      email, password := "", "";
      loginEnabled := false;
    }

    /** `editingChanged(_:)`: enabled exactly when the e-mail is filled and the password has 6 characters or more. */
    method EditingChanged(email: string, password: string)
      modifies this
      ensures this.email == email && this.password == password
      ensures loginEnabled <==> email != "" && |password| >= MinPasswordLength
    {
      this.email, this.password := email, password;
      loginEnabled := email != "" && password != "" && |password| >= MinPasswordLength;
    }

    /**
     * `signIn()`: `sdkError` is the auth SDK's answer and `uid` the account it
     * signs in. Success signs that account in and shows the tab bar
     * (`Completed`); a failure is an auth report and changes nothing.
     */
    method SignIn(sdkError: Option<Error>, uid: string) returns (reply: Reply<()>)
      requires Valid()
      modifies service.store
      ensures Valid()
      ensures reply.Completed? <==> sdkError.None?
      ensures sdkError.None? ==> service.store.currentUid == Some(uid)
      ensures sdkError.Some? ==>
        reply == Reported(Report(sdkError.value, AuthType)) && service.store.currentUid == old(service.store.currentUid)
      ensures service.store.users == old(service.store.users) && service.store.friends == old(service.store.friends)
      ensures service.store.memos == old(service.store.memos)
      ensures service.store.memoListener == old(service.store.memoListener)
      ensures service.store.orphanedListeners == old(service.store.orphanedListeners)
    {
      reply := AuthReply(Some(CallOutcome(sdkError)));
      if reply.Completed? {
        service.store.currentUid := Some(uid);
      }
    }
  }
}
