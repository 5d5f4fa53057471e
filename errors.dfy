/**
 * The errors that reach the app's alert mapping. In the Swift code they are all
 * `Error`/`NSError` values, told apart by casts: `as? AppError`,
 * `as? FirestoreErrorCode` and `as? AuthErrorCode`.
 */
module Errors {
  import opened AlertValues

  /** The Firestore error codes the app distinguishes; every other code is `CodeOther`. */
  datatype FirestoreCode = CodeAlreadyExists | CodeNotFound | CodeOther

  /** The Firebase Auth error codes the app distinguishes; every other code is `AuthOther`. */
  datatype AuthCode =
    | AuthInvalidEmail
    | AuthUserMismatch
    | AuthEmailAlreadyInUse
    | AuthWeakPassword
    | AuthUserNotFound
    | AuthWrongPassword
    | AuthOther

  datatype Error =
    | App(app: AppError)                 // an `AppError` thrown by the app itself
    | Firestore(firestoreCode: FirestoreCode)
    | Auth(authCode: AuthCode)
    | Decoding                           // a document that `data(as:)` cannot decode
    | OtherError                         // any other `NSError` (storage, transport, ...)
}
