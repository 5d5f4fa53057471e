/**
 * Alert texts of the app (Values/AlertValues.swift): the alert titles and the
 * `AppError` enumeration with its `message` switch.
 */
module AlertValues {
  import opened Wrappers

  /** The `AlertTitle` constants. */
  datatype AlertTitle =
    | CompleteSendEmail
    | InputError
    | FetchDataError
    | SaveDataError
    | UpdateDataError
    | SearchResult
    | Confirmation
  {
    function Text(): string {
      match this
      case CompleteSendEmail => "メール送信完了"
      case InputError => "入力エラー"
      case FetchDataError => "データの取得に失敗"
      case SaveDataError => "データの保存に失敗"
      case UpdateDataError => "データの更新に失敗"
      case SearchResult => "検索結果"
      case Confirmation => "確認"
    }
  }

  /** What an alert shows: a title and a message. */
  datatype Alert = Alert(title: AlertTitle, message: string)

  /** The app's own error cases. Two of them carry a string. */
  datatype AppError =
    | SentEmail(email: string)
    | UserNotLogin
    | AlreadyExists
    | NotFound
    | UserNotFound
    | SelfAddNotAllowed
    | UserFound(username: string)
    | UserMismatch
    | InvalidEmail
    | EmailAlreadyInUse
    | WeakPassword
    | WrongPassword
    | ConfirmDeleteAccount
    | FailedDownloadUrl
    | SomeError

  const SentEmailSuffix: string := "にパスワード再設定のメールを送信しました"
  const UserFoundSuffix: string := "さんが見つかりました。追加しますか？"

  /** `AppError.message`: a total switch, with no default case. */
  function Message(e: AppError): string {
    match e
    case SentEmail(email) => email + SentEmailSuffix
    case UserNotLogin => "ユーザー情報が取得できません"
    case AlreadyExists => "既に存在しています"
    case NotFound => "データが存在しません"
    case UserNotFound => "入力したメールアドレスのユーザーは存在しません"
    case SelfAddNotAllowed => "自分自身を友達に追加することはできません"
    case UserFound(username) => username + UserFoundSuffix
    case UserMismatch => "ログイン中のユーザーと一致しません"
    case InvalidEmail => "メールアドレスが無効な形式です。"
    case EmailAlreadyInUse => "このメールアドレスはすでに使われています。"
    case WeakPassword => "パスワードは6文字以上入力して下さい。"
    case WrongPassword => "パスワードが間違っています"
    case ConfirmDeleteAccount => "本当にアカウントを削除しますか？"
    case FailedDownloadUrl => "画像のダウンロードURLの取得に失敗しました。"
    case SomeError => "予期せぬエラーが発生しました"
  }

  predicate HasSuffix(m: string, suffix: string) {
    |suffix| <= |m| && m[|m| - |suffix|..] == suffix
  }

  /** Recovers the e-mail address from a "mail sent" message. */
  function SentEmailAddress(m: string): (r: Option<string>)
    ensures r.Some? ==> r.value + SentEmailSuffix == m
  {
    if HasSuffix(m, SentEmailSuffix) then Some(m[..|m| - |SentEmailSuffix|]) else None
  }

  /** Recovers the user name from a "user found" message. */
  function FoundUsername(m: string): (r: Option<string>)
    ensures r.Some? ==> r.value + UserFoundSuffix == m
  {
    if HasSuffix(m, UserFoundSuffix) then Some(m[..|m| - |UserFoundSuffix|]) else None
  }

  /** The message of `sentEmail(e)` is `e` followed by the fixed suffix, and `e` can be read back from it. */
  lemma SentEmailMessageRoundTrip(e: string)
    ensures HasSuffix(Message(SentEmail(e)), SentEmailSuffix)
    ensures Message(SentEmail(e))[..|e|] == e
    ensures SentEmailAddress(Message(SentEmail(e))) == Some(e)
  {
    var m := Message(SentEmail(e));
    assert m[|m| - |SentEmailSuffix|..] == SentEmailSuffix;
    assert m[..|m| - |SentEmailSuffix|] == e;
  }

  /** The message of `userFound(n)` is `n` followed by the fixed suffix, and `n` can be read back from it. */
  lemma UserFoundMessageRoundTrip(n: string)
    ensures HasSuffix(Message(UserFound(n)), UserFoundSuffix)
    ensures Message(UserFound(n))[..|n|] == n
    ensures FoundUsername(Message(UserFound(n))) == Some(n)
  {
    var m := Message(UserFound(n));
    assert m[|m| - |UserFoundSuffix|..] == UserFoundSuffix;
    assert m[..|m| - |UserFoundSuffix|] == n;
  }

  /** Every case but the two parameterised ones maps to a fixed literal that does not depend on anything. */
  predicate IsFixedCase(e: AppError) {
    !e.SentEmail? && !e.UserFound?
  }

  /** Different cases give different messages: an alert's text identifies the case that produced it. */
  lemma MessageInjective(a: AppError, b: AppError)
    requires Message(a) == Message(b)
    ensures a == b
  {
    if a.SentEmail? || b.SentEmail? || a.UserFound? || b.UserFound? {
      ParameterisedMessagesDiffer(a, b);
    }
  }

  /** No fixed literal ends with either of the two suffixes. */
  lemma FixedMessageHasNoSuffix(e: AppError)
    requires IsFixedCase(e)
    ensures !HasSuffix(Message(e), SentEmailSuffix)
    ensures !HasSuffix(Message(e), UserFoundSuffix)
  {
  }

  /** The two suffixes end in different characters, so the two parameterised messages never coincide. */
  lemma LastCharactersDiffer(email: string, username: string)
    ensures Message(SentEmail(email)) != Message(UserFound(username))
  {
    var m, n := Message(SentEmail(email)), Message(UserFound(username));
    assert m[|m| - 1] == 'た';
    assert n[|n| - 1] == '？';
  }

  lemma ParameterisedMessagesDiffer(a: AppError, b: AppError)
    requires Message(a) == Message(b)
    requires a.SentEmail? || b.SentEmail? || a.UserFound? || b.UserFound?
    ensures a == b
  {
    if a.SentEmail? {
      SentEmailMessageRoundTrip(a.email);
    }
    if b.SentEmail? {
      SentEmailMessageRoundTrip(b.email);
    }
    if a.UserFound? {
      UserFoundMessageRoundTrip(a.username);
    }
    if b.UserFound? {
      UserFoundMessageRoundTrip(b.username);
    }
    if IsFixedCase(a) {
      FixedMessageHasNoSuffix(a);
    } else if IsFixedCase(b) {
      FixedMessageHasNoSuffix(b);
    } else if a.SentEmail? && b.UserFound? {
      LastCharactersDiffer(a.email, b.username);
    } else if a.UserFound? && b.SentEmail? {
      LastCharactersDiffer(b.email, a.username);
    }
  }
}
