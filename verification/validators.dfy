/** The input rules of the booking form and the SMS login: the mainland
    mobile-number pattern, the form's error messages, the code guards, the
    code input's sanitiser and the masked number shown after sending. */
module Validators {
  import opened Wrappers
  import opened Strings
  import Seqs

  /** What `^1[3-9]\d{9}$` accepts: eleven characters, '1', a digit from 3
      to 9, then nine digits. */
  predicate IsMainlandMobile(s: string) {
    |s| == 11 && s[0] == '1' && '3' <= s[1] <= '9' && forall k :: 2 <= k < 11 ==> IsDigit(s[k])
  }

  /** The character class the pattern puts at position `pos`. */
  predicate PatternAt(pos: nat, c: char) {
    if pos == 0 then c == '1'
    else if pos == 1 then '3' <= c <= '9'
    else IsDigit(c)
  }

  /** The pattern run left to right from `pos`, anchored at both ends. */
  function MatchFrom(s: string, pos: nat): bool
    requires pos <= |s|
    decreases |s| - pos
  {
    if pos == |s| then pos == 11
    else if pos >= 11 then false
    else PatternAt(pos, s[pos]) && MatchFrom(s, pos + 1)
  }

  /** The matcher accepts the rest of `s` exactly when its length is right and
      every remaining character fits its class. */
  lemma {:induction false} MatchFromMeaning(s: string, pos: nat)
    requires pos <= |s|
    ensures MatchFrom(s, pos) <==> |s| == 11 && forall k :: pos <= k < |s| ==> PatternAt(k, s[k])
    decreases |s| - pos
  {
    if pos < |s| && pos < 11 {
      MatchFromMeaning(s, pos + 1);
    }
  }

  /** `validatePhone`: the regular expression's test. */
  function ValidatePhone(s: string): (b: bool)
    ensures b <==> IsMainlandMobile(s)
  {
    MatchFromMeaning(s, 0);
    assert |s| == 11 ==> ((forall k :: 0 <= k < |s| ==> PatternAt(k, s[k])) <==> IsMainlandMobile(s)) by {
      if |s| == 11 && IsMainlandMobile(s) {
        forall k | 0 <= k < |s| ensures PatternAt(k, s[k]) {
        }
      }
      if |s| == 11 && (forall k :: 0 <= k < |s| ==> PatternAt(k, s[k])) {
        assert PatternAt(0, s[0]) && PatternAt(1, s[1]);
        forall k | 2 <= k < 11 ensures IsDigit(s[k]) {
          assert PatternAt(k, s[k]);
        }
      }
    }
    MatchFrom(s, 0)
  }

  lemma PhoneExamples()
    ensures ValidatePhone("13800138000")
    ensures !ValidatePhone("12800138000")
    ensures !ValidatePhone("1380013800")
  {
  }

  // ---------------------------------------------------------------------------
  // The booking form.

  datatype FormErrors = FormErrors(name: Option<string>, phone: Option<string>)

  /** `handleSubmit`'s checks: a blank name, then a blank phone or, when the
      phone is not blank, one the pattern rejects as typed (untrimmed). */
  function ValidateForm(name: string, phone: string): (r: FormErrors)
    ensures r.name.Some? <==> AllWhitespace(name)
    ensures r.name.Some? ==> r.name.value == "请输入姓名"
    ensures AllWhitespace(phone) ==> r.phone == Some("请输入手机号")
    ensures !AllWhitespace(phone) ==>
      && (r.phone.None? <==> IsMainlandMobile(phone))
      && (r.phone.Some? ==> r.phone.value == "请输入正确的手机号")
  {
    FormErrors(
      if Trim(name) == "" then Some("请输入姓名") else None,
      if Trim(phone) == "" then Some("请输入手机号")
      else if !ValidatePhone(phone) then Some("请输入正确的手机号")
      else None)
  }

  /** The form submits when no error was recorded. */
  predicate Submits(name: string, phone: string) {
    ValidateForm(name, phone) == FormErrors(None, None)
  }

  /** The form submits exactly for a non-blank name and a well-formed number;
      a number with surrounding spaces is refused. */
  lemma SubmitsIffValid(name: string, phone: string)
    ensures Submits(name, phone) <==> !AllWhitespace(name) && IsMainlandMobile(phone)
  {
    if IsMainlandMobile(phone) {
      assert !IsWhitespace(phone[0]);
    }
  }

  // ---------------------------------------------------------------------------
  // The SMS login.

  /** `handleSendCode`'s guard: the error it shows, if any. */
  function SendCodeError(phone: string): (r: Option<string>)
    ensures r.None? <==> IsMainlandMobile(phone)
    ensures r.Some? ==> r.value == "请输入正确的手机号"
  {
    if !ValidatePhone(phone) then Some("请输入正确的手机号") else None
  }

  /** `handleLogin`'s guard: the error it shows, if any. */
  function LoginError(code: string): (r: Option<string>)
    ensures r.None? <==> |code| == 6
    ensures r.Some? ==> r.value == "请输入6位验证码"
  {
    if |code| != 6 then Some("请输入6位验证码") else None
  }

  /** The digits of the input, in order. */
  function DigitsOf(s: string): (r: string)
    ensures AllDigits(r)
    ensures Seqs.IsSubsequence(r, s)
    ensures forall c :: c in r <==> c in s && IsDigit(c)
    ensures forall c {:trigger multiset(r)[c]} :: multiset(r)[c] == if IsDigit(c) then multiset(s)[c] else 0
  {
    Seqs.Filter(s, IsDigit)
  }

  /** The code field's `replace(/\D/g, '').slice(0, 6)`. */
  function SanitizeCode(input: string): (r: string)
    ensures AllDigits(r) && |r| <= 6
    ensures |r| == if |DigitsOf(input)| < 6 then |DigitsOf(input)| else 6
    ensures r == DigitsOf(input)[..|r|]
  {
    var d := DigitsOf(input);
    if |d| <= 6 then d else d[..6]
  }

  /** Sanitising a sanitised code changes nothing. */
  lemma SanitizeIdempotent(input: string)
    ensures SanitizeCode(SanitizeCode(input)) == SanitizeCode(input)
  {
    var r := SanitizeCode(input);
    Seqs.FilterKeepsAll(r, IsDigit);
  }

  /** A code typed through the field passes the login guard exactly when the
      input held at least six digits. */
  lemma SanitizedCodeLogin(input: string)
    ensures LoginError(SanitizeCode(input)).None? <==> |DigitsOf(input)| >= 6
  {
  }

  // ---------------------------------------------------------------------------
  // The masked number.

  /** Eleven digits start at `i`. */
  predicate DigitRunAt(s: string, i: nat) {
    i + 11 <= |s| && forall k :: i <= k < i + 11 ==> IsDigit(s[k])
  }

  /** The leftmost position from `from` on where eleven digits start. */
  function FirstRun(s: string, from: nat): (r: Option<nat>)
    ensures r.Some? ==> from <= r.value && DigitRunAt(s, r.value)
    ensures r.Some? ==> forall j :: from <= j < r.value ==> !DigitRunAt(s, j)
    ensures r.None? ==> forall j :: from <= j ==> !DigitRunAt(s, j)
    decreases |s| - from
  {
    if from + 11 > |s| then None
    else if DigitRunAt(s, from) then Some(from)
    else FirstRun(s, from + 1)
  }

  /** `replace(/(\d{3})\d{4}(\d{4})/, '$1****$2')`: the leftmost eleven
      digits keep their first three and last four, the middle four become
      '*'; a string without eleven digits in a row is unchanged. */
  function MaskPhone(s: string): (r: string)
    ensures |r| == |s|
    ensures FirstRun(s, 0).None? ==> r == s
    ensures FirstRun(s, 0).Some? ==>
      var i := FirstRun(s, 0).value;
      && r[..i + 3] == s[..i + 3] && r[i + 3..i + 7] == "****" && r[i + 7..] == s[i + 7..]
  {
    match FirstRun(s, 0)
    case None => s
    case Some(i) => s[..i + 3] + "****" + s[i + 7..]
  }

  /** For a valid number the mask shows its first three and last four digits. */
  lemma MaskOfValidPhone(p: string)
    requires IsMainlandMobile(p)
    ensures MaskPhone(p) == p[..3] + "****" + p[7..]
  {
    assert DigitRunAt(p, 0);
    assert FirstRun(p, 0) == Some(0);
  }
}
