/**
 * The constants of Values/ResourceValues.swift that the core uses, and the two
 * character classes of its regular expressions.
 */
module ResourceValues {
  const MinPasswordLength: nat := 6
  const MaxUsernameLength: nat := 8
  const MaxMemonameLength: nat := 15

  /** `memoTextUpdateInterval` is 1.5 seconds; model time is counted in milliseconds. */
  const MemoTextUpdateIntervalMs: nat := 1500

  /** `URLs.profileImage`, the profile image of a user who picked none. */
  const DefaultProfileImageUrl: string :=
    "https://knsoza1.com/wp-content/uploads/2020/07/70b3dd52350bf605f1bb4078ef79c9b9.png"

  predicate IsAsciiAlphanumeric(c: char) {
    ('a' <= c <= 'z') || ('A' <= c <= 'Z') || ('0' <= c <= '9')
  }

  /** The class `[a-zA-Z0-9@._-]` of `RegexPatterns.emailAndPassword`. */
  predicate IsEmailPasswordChar(c: char) {
    IsAsciiAlphanumeric(c) || c == '@' || c == '.' || c == '_' || c == '-'
  }

  /** The class `[a-zA-Z0-9]` of `RegexPatterns.firebaseUid`. */
  predicate IsUidChar(c: char) {
    IsAsciiAlphanumeric(c)
  }
}
