/**
 * SignUp/SignUpViewController.swift: registration. The profile image, when
 * one was picked, is uploaded first; the auth account is created next; the
 * user document, carrying the typed user name and the image URL (or the
 * default one), is written last, and only its success shows the tab bar.
 */
module SignUp {
  import opened Wrappers
  import opened Errors
  import opened Models
  import opened ResourceValues
  import opened InputRules
  import opened DocCollection
  import opened FirebaseAuthManager
  import opened FirestoreManager
  import opened MemoService

  /** The three text fields of the screen. */
  datatype Field = EmailField | PasswordField | UsernameField

  /**
   * `shouldChangeCharactersIn`: a deletion always; on the user-name field an
   * edit that leaves at most 8 characters; on the other two a replacement
   * made only of `[a-zA-Z0-9@._-]` characters.
   */
  function ShouldChangeCharacters(field: Field, text: string, lo: nat, hi: nat, ins: string): (ok: bool)
    requires lo <= hi <= |text|
    ensures ins == "" ==> ok
    ensures ins != "" && field == UsernameField ==> (ok <==> |ApplyEdit(text, lo, hi, ins)| <= MaxUsernameLength)
    ensures ins != "" && field != UsernameField ==> (ok <==> forall i :: 0 <= i < |ins| ==> IsEmailPasswordChar(ins[i]))
  {
    if ins == "" then true
    else if field == UsernameField then
      LengthCheckIsExact(text, lo, hi, ins, MaxUsernameLength);
      NewLength(|text|, hi - lo, |ins|) <= MaxUsernameLength
    else CredentialEditAccepted(ins)
  }

  class SignUpScreen {
    const service: MemoService
    var email: string
    var password: string
    var username: string
    /** `registerButton.isEnabled`. */
    var registerEnabled: bool

    ghost predicate Valid()
      reads this, service, service.store
    {
      service.Valid()
    }

    /** `setupButtons()`: the register button starts disabled. */
    constructor(service: MemoService)
      requires service.Valid()
      ensures Valid() && this.service == service
      ensures email == "" && password == "" && username == "" && !registerEnabled
    {
      this.service := service;
      email, password, username := "", "", "";
      registerEnabled := false;
    }

    /** `textFieldDidChangeSelection(_:)`: enabled exactly when e-mail and user name are filled and the password has 6 characters or more. */
    method TextFieldDidChangeSelection(email: string, password: string, username: string)
      modifies this
      ensures this.email == email && this.password == password && this.username == username
      ensures registerEnabled <==> email != "" && |password| >= MinPasswordLength && username != ""
    {
      this.email, this.password, this.username := email, password, username;
      registerEnabled := email != "" && |password| >= MinPasswordLength && username != "";
    }

    /**
     * `tappedRegisterButton()` followed by `uploadProfileImage(image:)` and
     * `createUserToFirestore(profileImageUrl:)`. `upload` is what the storage
     * upload returns when an image was picked; `createError` and `authUid`
     * stand for the auth SDK's answer, `saveError` for the document write.
     * `Completed` means the tab bar was shown. Once the account exists it is
     * the signed-in one, whether or not its document is then saved.
     */
    method TappedRegister(image: bool, upload: Result<string, Error>, createError: Option<Error>, authUid: Option<string>,
                          now: int, saveError: Option<Error>) returns (reply: Reply<()>)
      requires Valid()
      modifies service.store
      ensures Valid()
      ensures image && upload.Failure? ==>
        reply == Reported(Routed(upload.error)) && service.store.users == old(service.store.users)
      ensures (!image || upload.Success?) && createError.Some? ==>
        reply == Reported(Report(createError.value, AuthType)) && service.store.users == old(service.store.users)
      ensures (!image || upload.Success?) && createError.None? && authUid.None? ==>
        reply == Silent && service.store.users == old(service.store.users)
      ensures (!image || upload.Success?) && createError.None? && authUid.Some? && saveError.Some? ==>
        reply == Reported(Report(saveError.value, FirestoreType)) && service.store.users == old(service.store.users)
      ensures (!image || upload.Success?) && createError.None? && authUid.Some? && saveError.None? ==>
        var url := if image then upload.value else DefaultProfileImageUrl;
        reply == Completed(()) &&
        service.store.users == old(service.store.users)[authUid.value := Decodable(UserFields(authUid, email, username, now, url))] &&
        service.store.GetUser(authUid.value, None) == Success(User(authUid, email, username, now, url, None))
      ensures (!image || upload.Success?) && createError.None? && authUid.Some? ==> service.store.currentUid == authUid
      ensures !((!image || upload.Success?) && createError.None? && authUid.Some?) ==>
        service.store.currentUid == old(service.store.currentUid)
      ensures service.store.friends == old(service.store.friends) && service.store.memos == old(service.store.memos)
      ensures service.store.memoListener == old(service.store.memoListener)
      ensures service.store.orphanedListeners == old(service.store.orphanedListeners)
    {
      var profileImageUrl: Option<string> := None;
      if image {
        var uploaded := UploadImage(upload);
        if !uploaded.Completed? {
          return Reported(uploaded.report);
        }
        profileImageUrl := Some(uploaded.value);
      }
      var created := AuthReply(CreateUser(email, createError, authUid, now));
      match created {
        case Completed(user) =>
          // The SDK signs the new account in before it calls back.
          service.store.currentUid := authUid;
          var newUser := user.(username := username,
                               profileImageUrl := if profileImageUrl.Some? then profileImageUrl.value else DefaultProfileImageUrl);
          reply := service.SetUserData(newUser, saveError);
        case Reported(report) =>
          reply := Reported(report);
        case Silent =>
          reply := Silent;
      }
    }
  }
}
