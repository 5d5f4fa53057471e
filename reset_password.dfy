/**
 * ResetPassword/ResetPasswordViewController.swift: asking for a password
 * reset mail. Only a successful request shows the alert naming the address
 * the mail went to.
 */
module ResetPassword {
  import opened Wrappers
  import opened AlertValues
  import opened Errors
  import opened ResourceValues
  import opened InputRules
  import opened FirebaseAuthManager
  import opened MemoService

  /**
   * `sendPasswordReset()` with `showSendEmailAlert(email:)`: the alert shown
   * (if any) and the auth report. The alert appears exactly when the request
   * succeeds, and the address can be read back from its message.
   */
  function SendPasswordReset(email: string, sdkError: Option<Error>): (r: (Option<Alert>, Reply<()>))
    ensures r.0.Some? <==> sdkError.None?
    ensures r.0.Some? ==> r.0.value.title == CompleteSendEmail && SentEmailAddress(r.0.value.message) == Some(email)
    ensures sdkError.Some? ==> r.1 == Reported(Report(sdkError.value, AuthType))
  {
    var reply := AuthReply(Some(CallOutcome(sdkError)));
    SentEmailMessageRoundTrip(email);
    if reply.Completed? then (Some(Alert(CompleteSendEmail, Message(SentEmail(email)))), reply) else (None, reply)
  }

  class ResetPasswordScreen {
    var email: string
    /** `sendEmailButton.isEnabled`. */
    var sendEnabled: bool

    /** `setupButtons()`: the send button starts disabled. */
    constructor()
      ensures email == "" && !sendEnabled
    {
      email := "";
      sendEnabled := false;
    }

    /** `editingChanged(_:)`: enabled exactly when the e-mail field is not empty. */
    method EditingChanged(email: string)
      modifies this
      ensures this.email == email
      ensures sendEnabled <==> email != ""
    {
      this.email := email;
      sendEnabled := email != "";
    }
  }
}
