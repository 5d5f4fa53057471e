/**
 * The input rules the screens share: the whole-string character filter that
 * `string.range(of: "^[...]+$", options: .regularExpression) != nil` performs,
 * and the length check `currentLength - range.length + string.count <= max`.
 */
module InputRules {
  import opened ResourceValues

  /** Every character of `s` is in the class `ok`. */
  predicate AllIn(s: string, ok: char -> bool) {
    forall i :: 0 <= i < |s| ==> ok(s[i])
  }

  /** `^[class]+$` matches `s`: one or more characters, all in the class. */
  predicate MatchesWhole(s: string, ok: char -> bool) {
    |s| > 0 && AllIn(s, ok)
  }

  /** The `shouldChangeCharactersIn` filter: a deletion (empty replacement) always, otherwise a whole match. */
  function AcceptsReplacement(s: string, ok: char -> bool): bool {
    s == [] || MatchesWhole(s, ok)
  }

  /** The length the field would have after replacing `replaced` characters by `inserted` ones. */
  function NewLength(current: int, replaced: int, inserted: int): int {
    current - replaced + inserted
  }

  /** The edit a text field performs: `text[lo..hi]` replaced by `ins`. */
  function ApplyEdit(text: string, lo: nat, hi: nat, ins: string): (r: string)
    requires lo <= hi <= |text|
    ensures |r| == lo + |ins| + (|text| - hi)
    ensures r[..lo] == text[..lo] && r[lo..lo + |ins|] == ins && r[lo + |ins|..] == text[hi..]
  {
    text[..lo] + ins + text[hi..]
  }

  /** The length check computes the length of the edited text. */
  lemma EditedLength(text: string, lo: nat, hi: nat, ins: string)
    requires lo <= hi <= |text|
    ensures |ApplyEdit(text, lo, hi, ins)| == NewLength(|text|, hi - lo, |ins|)
  {
  }

  /** An edit the length check accepts leaves at most `max` characters, and one it refuses would leave more. */
  lemma LengthCheckIsExact(text: string, lo: nat, hi: nat, ins: string, max: int)
    requires lo <= hi <= |text|
    ensures NewLength(|text|, hi - lo, |ins|) <= max <==> |ApplyEdit(text, lo, hi, ins)| <= max
  {
    EditedLength(text, lo, hi, ins);
  }

  /**
   * The character filter keeps a field inside its class: if the field holds only
   * class characters and the filter accepts the replacement, the edited text does too.
   */
  lemma AcceptedReplacementKeepsClass(text: string, lo: nat, hi: nat, ins: string, ok: char -> bool)
    requires lo <= hi <= |text|
    requires AllIn(text, ok)
    requires AcceptsReplacement(ins, ok)
    ensures AllIn(ApplyEdit(text, lo, hi, ins), ok)
  {
    var r := ApplyEdit(text, lo, hi, ins);
    forall i | 0 <= i < |r|
      ensures ok(r[i])
    {
      if i < lo {
        assert r[i] == r[..lo][i] == text[i];
      } else if i < lo + |ins| {
        assert r[i] == r[lo..lo + |ins|][i - lo] == ins[i - lo];
      } else {
        assert r[i] == r[lo + |ins|..][i - lo - |ins|] == text[hi..][i - lo - |ins|];
      }
    }
  }

  /** A replacement holding one character outside the class is refused. */
  lemma ForeignCharacterRefused(s: string, ok: char -> bool, k: nat)
    requires k < |s| && !ok(s[k])
    ensures !AcceptsReplacement(s, ok)
  {
  }

  /**
   * The memo-name filter of the memo list's rename field and the create-memo
   * sheet: the edit is kept exactly when the edited name has at most 15 characters.
   */
  function MemoNameEditAccepted(text: string, lo: nat, hi: nat, ins: string): (ok: bool)
    requires lo <= hi <= |text|
    ensures ok <==> |ApplyEdit(text, lo, hi, ins)| <= MaxMemonameLength
  {
    LengthCheckIsExact(text, lo, hi, ins, MaxMemonameLength);
    NewLength(|text|, hi - lo, |ins|) <= MaxMemonameLength
  }

  /**
   * The e-mail and password filter of the sign-in, sign-up, password-reset and
   * account-deletion screens: a deletion always, otherwise a whole match of `^[a-zA-Z0-9@._-]+$`.
   */
  function CredentialEditAccepted(ins: string): (ok: bool)
    ensures ins == "" ==> ok
    ensures ins != "" ==> (ok <==> forall i :: 0 <= i < |ins| ==> IsEmailPasswordChar(ins[i]))
  {
    AcceptsReplacement(ins, IsEmailPasswordChar)
  }
}
