/**
 * Managers/FirebaseAuthManager.swift: each operation turns what the Firebase
 * Auth SDK reports into a `Result`, and `getErrorMessageAndTitle` turns an auth
 * error into an alert. The SDK's answer is a parameter here.
 */
module FirebaseAuthManager {
  import opened Wrappers
  import opened AlertValues
  import opened Errors
  import opened Models

  /**
   * `createUser(withEmail:password:)`. `sdkError` is the SDK's error, `authUid` the
   * uid of the user it created. With neither, the completion is never called (`None`).
   */
  function CreateUser(email: string, sdkError: Option<Error>, authUid: Option<string>, now: int): (r: Option<Result<User, Error>>)
    ensures sdkError.Some? ==> r == Some(Failure(sdkError.value))
    ensures sdkError.None? && authUid.Some? ==>
      r.Some? && r.value.Success? &&
      var u := r.value.value;
      u.uid == authUid && u.email == email && u.username == "" && u.profileImageUrl == "" && u.friend.None?
    ensures sdkError.None? && authUid.None? ==> r.None?
  {
    if sdkError.Some? then Some(Failure(sdkError.value))
    else if authUid.Some? then Some(Success(User(authUid, email, "", now, "", None)))
    else None
  }

  /**
   * The shape of `signIn`, `sendPasswordReset` and `logout`: success exactly when
   * the SDK reports no error, otherwise a failure carrying that error.
   */
  function CallOutcome(sdkError: Option<Error>): (r: Result<(), Error>)
    ensures r.Success? <==> sdkError.None?
    ensures r.Failure? ==> r.error == sdkError.value
  {
    match sdkError
    case None => Success(())
    case Some(e) => Failure(e)
  }

  /**
   * `deleteUser` and `reauthenticate` go through `Auth.auth().currentUser?`: with
   * nobody signed in the call is skipped and the completion never runs.
   */
  function CurrentUserCallOutcome(signedIn: bool, sdkError: Option<Error>): (r: Option<Result<(), Error>>)
    ensures r.Some? <==> signedIn
    ensures r.Some? ==> (r.value.Success? <==> sdkError.None?)
    ensures r.Some? && r.value.Failure? ==> r.value.error == sdkError.value
  {
    if signedIn then Some(CallOutcome(sdkError)) else None
  }

  /** The auth error codes that have an `AppError` of the same name. */
  function MatchingAppError(code: AuthCode): Option<AppError> {
    match code
    case AuthInvalidEmail => Some(InvalidEmail)
    case AuthUserMismatch => Some(UserMismatch)
    case AuthEmailAlreadyInUse => Some(EmailAlreadyInUse)
    case AuthWeakPassword => Some(WeakPassword)
    case AuthUserNotFound => Some(UserNotFound)
    case AuthWrongPassword => Some(WrongPassword)
    case AuthOther => None
  }

  /** `getErrorMessageAndTitle(error:)` of the auth manager. */
  function AuthAlert(e: Error): (a: Alert)
    ensures e.Auth? && MatchingAppError(e.authCode).Some? ==> a.message == Message(MatchingAppError(e.authCode).value)
    ensures a.title == InputError <==> e.Auth? && MatchingAppError(e.authCode).Some? && e.authCode != AuthUserMismatch
    ensures a.title == Confirmation <==> !(a.title == InputError)
    ensures !(e.Auth? && MatchingAppError(e.authCode).Some?) ==> a == Alert(Confirmation, Message(SomeError))
  {
    if e.Auth? then
      match e.authCode
      case AuthInvalidEmail => Alert(InputError, Message(InvalidEmail))
      case AuthUserMismatch => Alert(Confirmation, Message(UserMismatch))
      case AuthEmailAlreadyInUse => Alert(InputError, Message(EmailAlreadyInUse))
      case AuthWeakPassword => Alert(InputError, Message(WeakPassword))
      case AuthUserNotFound => Alert(InputError, Message(UserNotFound))
      case AuthWrongPassword => Alert(InputError, Message(WrongPassword))
      case AuthOther => Alert(Confirmation, Message(SomeError))
    else
      Alert(Confirmation, Message(SomeError))
  }

  /** Two recognised auth codes never produce the same alert: their messages tell them apart. */
  lemma AuthAlertDistinguishesCodes(c1: AuthCode, c2: AuthCode)
    requires MatchingAppError(c1).Some? && MatchingAppError(c2).Some?
    requires AuthAlert(Auth(c1)) == AuthAlert(Auth(c2))
    ensures c1 == c2
  {
    MessageInjective(MatchingAppError(c1).value, MatchingAppError(c2).value);
  }
}
