/**
 * The plain data of the app (Models/Memo.swift, Models/User.swift) and the
 * friend edge document `Friend(uid:)`. Dates are integers.
 */
module Models {
  import opened Wrappers

  /** A friend edge: the document stored under the owner, keyed by the friend's uid. */
  datatype Friend = Friend(uid: string)

  /** A shared memo. `id` is the document id, filled in after a read. */
  datatype Memo = Memo(id: Option<string>, name: string, members: seq<string>, content: string, latestUpdate: int)

  /** A user profile. `uid` is the document id; `friend` is never stored. */
  datatype User = User(
    uid: Option<string>,
    email: string,
    username: string,
    createdAt: int,
    profileImageUrl: string,
    friend: Option<Friend>)

  /** The coded keys of `User`: uid, email, username, createdAt, profileImageUrl (no `friend`). */
  datatype UserFields = UserFields(
    uid: Option<string>,
    email: string,
    username: string,
    createdAt: int,
    profileImageUrl: string)

  /** `Firestore.Encoder().encode(user)`: only the coded keys are written. */
  function EncodeUser(u: User): UserFields {
    UserFields(u.uid, u.email, u.username, u.createdAt, u.profileImageUrl)
  }

  /** `data(as: User.self)`: a decoded user never has a friend. */
  function DecodeUser(f: UserFields): (u: User)
    ensures u.friend.None?
    ensures EncodeUser(u) == f
  {
    User(f.uid, f.email, f.username, f.createdAt, f.profileImageUrl, None)
  }

  /** Reading back a stored user gives the same user exactly when it had no `friend`. */
  lemma UserRoundTrip(u: User)
    ensures DecodeUser(EncodeUser(u)) == u <==> u.friend.None?
    ensures DecodeUser(EncodeUser(u)) == u.(friend := None)
  {
  }
}
