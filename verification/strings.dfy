/** The handful of JavaScript string operations the studio code relies on:
    decimal digits and numerals, `padStart(2, '0')`, code-point ordering,
    `trim`, `toLowerCase`, `replace(/\s+/g, '-')` and `includes`. */
module Strings {
  import opened Wrappers

  predicate IsDigit(c: char) {
    '0' <= c <= '9'
  }

  predicate AllDigits(s: string) {
    forall i :: 0 <= i < |s| ==> IsDigit(s[i])
  }

  function DigitValue(c: char): nat
    requires IsDigit(c)
  {
    (c as int) - ('0' as int)
  }

  function DigitChar(d: nat): (c: char)
    requires d < 10
    ensures IsDigit(c) && DigitValue(c) == d
  {
    (('0' as int) + d) as char
  }

  /** Value of a string of decimal digits, most significant first; "" is 0. */
  function DecValue(s: string): nat
    requires AllDigits(s)
    decreases |s|
  {
    if |s| == 0 then 0 else 10 * DecValue(s[..|s| - 1]) + DigitValue(s[|s| - 1])
  }

  /** `n.toString()` for a natural number: the shortest decimal numeral, read back as n. */
  function NatToDec(n: nat): (r: string)
    ensures 1 <= |r| && AllDigits(r)
    ensures DecValue(r) == n
    ensures n < 10 <==> |r| == 1
    decreases n
  {
    if n < 10 then [DigitChar(n)]
    else
      var p := NatToDec(n / 10);
      var r := p + [DigitChar(n % 10)];
      assert r[..|r| - 1] == p;
      r
  }

  /** `n.toString().padStart(2, '0')`: a leading zero below 10, never truncated. */
  function Pad2(n: nat): (r: string)
    ensures 2 <= |r| && AllDigits(r)
    ensures DecValue(r) == n
    ensures n < 100 <==> |r| == 2
  {
    if n < 10 then
      var r := ['0', DigitChar(n)];
      assert r[..1] == ['0'] && ['0'][..0] == [];
      r
    else
      assert n >= 10;
      var r := NatToDec(n);
      assert n < 100 ==> n / 10 < 10;
      r
  }

  /** `${i}` for an integer. */
  function IntToDec(i: int): string {
    if i < 0 then "-" + NatToDec(-i) else NatToDec(i)
  }

  /** The index of the first occurrence of `c` in `s`. */
  function IndexOf(s: string, c: char): (r: Option<nat>)
    ensures r.Some? ==> r.value < |s|
  {
    if |s| == 0 then None
    else if s[0] == c then Some(0)
    else match IndexOf(s[1..], c)
      case None => None
      case Some(k) => Some(k + 1)
  }

  /** `indexOf` finds the first occurrence: the character is there and nowhere before. */
  lemma {:induction false} IndexOfFirst(s: string, c: char)
    ensures IndexOf(s, c).Some? ==> s[IndexOf(s, c).value] == c
    ensures IndexOf(s, c).Some? ==> forall j :: 0 <= j < IndexOf(s, c).value ==> s[j] != c
    ensures IndexOf(s, c).None? <==> forall j :: 0 <= j < |s| ==> s[j] != c
    decreases |s|
  {
    if |s| > 0 && s[0] != c {
      IndexOfFirst(s[1..], c);
      assert forall j :: 1 <= j < |s| ==> s[j] == s[1..][j - 1];
    }
  }

  // ---------------------------------------------------------------------------
  // Code-point order, as JavaScript's `<`, `>=` and (for strings of one shape)
  // `localeCompare` order them.

  /** `a <= b` in lexicographic order of code points. */
  predicate LexLe(a: string, b: string)
    decreases |a|
  {
    |a| == 0 || (|b| > 0 && (a[0] < b[0] || (a[0] == b[0] && LexLe(a[1..], b[1..]))))
  }

  lemma {:induction false} LexLeReflexive(a: string)
    ensures LexLe(a, a)
    decreases |a|
  {
    if |a| > 0 {
      LexLeReflexive(a[1..]);
    }
  }

  lemma {:induction false} LexLeTotal(a: string, b: string)
    ensures LexLe(a, b) || LexLe(b, a)
    decreases |a|
  {
    if |a| > 0 && |b| > 0 && a[0] == b[0] {
      LexLeTotal(a[1..], b[1..]);
    }
  }

  lemma {:induction false} LexLeTransitive(a: string, b: string, c: string)
    requires LexLe(a, b) && LexLe(b, c)
    ensures LexLe(a, c)
    decreases |a|
  {
    if |a| > 0 && a[0] == b[0] && b[0] == c[0] {
      LexLeTransitive(a[1..], b[1..], c[1..]);
    }
  }

  lemma {:induction false} LexLeAntisymmetric(a: string, b: string)
    requires LexLe(a, b) && LexLe(b, a)
    ensures a == b
    decreases |a|
  {
    if |a| > 0 {
      LexLeAntisymmetric(a[1..], b[1..]);
      assert a == [a[0]] + a[1..] && b == [b[0]] + b[1..];
    }
  }

  // ---------------------------------------------------------------------------
  // Whitespace, as JavaScript's `trim` and the regular-expression class `\s`
  // define it (WhiteSpace and LineTerminator code points).

  predicate IsWhitespace(c: char) {
    var n := c as int;
    n == 0x09 || n == 0x0A || n == 0x0B || n == 0x0C || n == 0x0D || n == 0x20
    || n == 0xA0 || n == 0x1680 || (0x2000 <= n <= 0x200A) || n == 0x2028
    || n == 0x2029 || n == 0x202F || n == 0x205F || n == 0x3000 || n == 0xFEFF
  }

  predicate AllWhitespace(s: string) {
    forall i :: 0 <= i < |s| ==> IsWhitespace(s[i])
  }

  /** `s` with its leading whitespace removed. */
  function TrimStart(s: string): (r: string)
    ensures |r| <= |s| && r == s[|s| - |r|..]
    ensures forall k :: 0 <= k < |s| - |r| ==> IsWhitespace(s[k])
    ensures |r| > 0 ==> !IsWhitespace(r[0])
  {
    if |s| > 0 && IsWhitespace(s[0]) then TrimStart(s[1..]) else s
  }

  /** `s` with its trailing whitespace removed. */
  function TrimEnd(s: string): (r: string)
    ensures |r| <= |s| && r == s[..|r|]
    ensures forall k :: |r| <= k < |s| ==> IsWhitespace(s[k])
    ensures |r| > 0 ==> !IsWhitespace(r[|r| - 1])
  {
    if |s| > 0 && IsWhitespace(s[|s| - 1]) then TrimEnd(s[..|s| - 1]) else s
  }

  /** `s.trim()`: blank exactly when every character is whitespace. */
  function Trim(s: string): (r: string)
    ensures r == "" <==> AllWhitespace(s)
    ensures |r| > 0 ==> !IsWhitespace(r[0]) && !IsWhitespace(r[|r| - 1])
    ensures |r| <= |s|
  {
    var t := TrimStart(s);
    var r := TrimEnd(t);
    assert r == "" ==> |t| == 0 by {
      if r == "" && |t| > 0 {
        assert false;
      }
    }
    assert |r| > 0 ==> r[0] == t[0];
    r
  }

  /** The trimmed string sits inside the input with only whitespace around it. */
  lemma TrimIsInfix(s: string)
    ensures var r := Trim(s);
      exists k :: 0 <= k <= |s| - |r| && s[k..k + |r|] == r
                  && AllWhitespace(s[..k]) && AllWhitespace(s[k + |r|..])
  {
    var t := TrimStart(s);
    var r := TrimEnd(t);
    var k := |s| - |t|;
    assert s[k..k + |r|] == r;
    LeadingWhitespace(s, k);
    TrailingWhitespace(s, t, k, |r|);
  }

  lemma LeadingWhitespace(s: string, k: nat)
    requires k <= |s| && forall i :: 0 <= i < k ==> IsWhitespace(s[i])
    ensures AllWhitespace(s[..k])
  {
    assert forall i :: 0 <= i < k ==> s[..k][i] == s[i];
  }

  lemma TrailingWhitespace(s: string, t: string, k: nat, n: nat)
    requires k + |t| == |s| && t == s[k..] && n <= |t|
    requires forall i :: n <= i < |t| ==> IsWhitespace(t[i])
    ensures AllWhitespace(s[k + n..])
  {
    var after := s[k + n..];
    forall i | 0 <= i < |after| ensures IsWhitespace(after[i]) {
      assert after[i] == t[n + i];
    }
  }

  /** Trimming twice is trimming once. */
  lemma TrimIdempotent(s: string)
    ensures Trim(Trim(s)) == Trim(s)
  {
    var r := Trim(s);
    if |r| > 0 {
      assert TrimStart(r) == r;
      assert TrimEnd(r) == r;
    }
  }

  /** `s.toLowerCase()` on ASCII letters; other characters are kept. */
  function LowerChar(c: char): char {
    if 'A' <= c <= 'Z' then ((c as int) + 32) as char else c
  }

  predicate IsUpper(c: char) {
    'A' <= c <= 'Z'
  }

  function ToLower(s: string): (r: string)
    ensures |r| == |s|
    ensures forall i {:trigger r[i]} :: 0 <= i < |s| ==> r[i] == LowerChar(s[i])
  {
    seq(|s|, i requires 0 <= i < |s| => LowerChar(s[i]))
  }

  /** Lower-casing leaves no capital letter and keeps whitespace where it was. */
  lemma ToLowerFacts(s: string)
    ensures forall i :: 0 <= i < |s| ==> !IsUpper(ToLower(s)[i])
    ensures forall i :: 0 <= i < |s| ==> IsWhitespace(ToLower(s)[i]) == IsWhitespace(s[i])
  {
  }

  lemma ToLowerAppend(a: string, b: string)
    ensures ToLower(a + b) == ToLower(a) + ToLower(b)
  {
  }

  /** `s.replace(/\s+/g, '-')`: every maximal whitespace run becomes one '-'. */
  function DashWhitespaceRuns(s: string): (r: string)
    ensures |r| <= |s|
    decreases |s|
  {
    if |s| == 0 then ""
    else if IsWhitespace(s[0]) then
      "-" + DashWhitespaceRuns(TrimStart(s[1..]))
    else
      [s[0]] + DashWhitespaceRuns(s[1..])
  }

  /** The result holds no whitespace. */
  lemma {:induction false} DashFacts(s: string)
    ensures forall k :: 0 <= k < |DashWhitespaceRuns(s)| ==> !IsWhitespace(DashWhitespaceRuns(s)[k])
    decreases |s|
  {
    if |s| > 0 {
      var t := if IsWhitespace(s[0]) then TrimStart(s[1..]) else s[1..];
      DashFacts(t);
      var head := if IsWhitespace(s[0]) then '-' else s[0];
      DashNoWhitespaceStep(head, DashWhitespaceRuns(t));
      assert DashWhitespaceRuns(s) == [head] + DashWhitespaceRuns(t);
    }
  }

  lemma DashNoWhitespaceStep(head: char, rt: string)
    requires !IsWhitespace(head)
    requires forall k :: 0 <= k < |rt| ==> !IsWhitespace(rt[k])
    ensures forall k :: 0 <= k < |[head] + rt| ==> !IsWhitespace(([head] + rt)[k])
  {
  }

  /** A string without whitespace is kept as it is. */
  lemma {:induction false} DashKeepsWord(s: string)
    requires forall k :: 0 <= k < |s| ==> !IsWhitespace(s[k])
    ensures DashWhitespaceRuns(s) == s
    decreases |s|
  {
    if |s| > 0 {
      DashKeepsWord(s[1..]);
      assert s == [s[0]] + s[1..];
    }
  }

  lemma SplitFirst(w: string, u: string)
    requires |w| > 0
    ensures w + u == [w[0]] + (w[1..] + u)
  {
    assert w == [w[0]] + w[1..];
  }

  /** Every character of a suffix is one of the whole string's characters. */
  lemma SuffixChars(s: string, t: string)
    requires |t| <= |s| && t == s[|s| - |t|..]
    ensures forall k :: 0 <= k < |t| ==> t[k] == s[|s| - |t| + k]
  {
  }

  /** A first character that is not whitespace is kept. */
  lemma DashCons(c: char, t: string)
    requires !IsWhitespace(c)
    ensures DashWhitespaceRuns([c] + t) == [c] + DashWhitespaceRuns(t)
  {
    assert ([c] + t)[1..] == t;
  }

  /** A leading whitespace run becomes one '-'. */
  lemma DashLeadingRun(ws: string, rest: string)
    requires |ws| > 0 && AllWhitespace(ws)
    requires |rest| > 0 ==> !IsWhitespace(rest[0])
    ensures DashWhitespaceRuns(ws + rest) == "-" + DashWhitespaceRuns(rest)
  {
    assert (ws + rest)[0] == ws[0];
    assert (ws + rest)[1..] == ws[1..] + rest;
    TrimStartRun(ws[1..], rest);
  }

  /** The replacement brings in no capital letter. */
  lemma {:induction false} DashKeepsNoUpper(s: string)
    requires forall k :: 0 <= k < |s| ==> !IsUpper(s[k])
    ensures forall k :: 0 <= k < |DashWhitespaceRuns(s)| ==> !IsUpper(DashWhitespaceRuns(s)[k])
    decreases |s|
  {
    if |s| > 0 {
      var t := if IsWhitespace(s[0]) then TrimStart(s[1..]) else s[1..];
      SuffixChars(s, t);
      DashKeepsNoUpper(t);
      var head := if IsWhitespace(s[0]) then '-' else s[0];
      DashNoUpperStep(head, DashWhitespaceRuns(t));
      assert DashWhitespaceRuns(s) == [head] + DashWhitespaceRuns(t);
    }
  }

  lemma DashNoUpperStep(head: char, rt: string)
    requires !IsUpper(head)
    requires forall k :: 0 <= k < |rt| ==> !IsUpper(rt[k])
    ensures forall k :: 0 <= k < |[head] + rt| ==> !IsUpper(([head] + rt)[k])
  {
  }

  /** Leading whitespace up to a non-blank rest is all that `TrimStart` drops. */
  lemma {:induction false} TrimStartRun(ws: string, rest: string)
    requires AllWhitespace(ws)
    requires |rest| > 0 ==> !IsWhitespace(rest[0])
    ensures TrimStart(ws + rest) == rest
    decreases |ws|
  {
    if |ws| > 0 {
      assert (ws + rest)[1..] == ws[1..] + rest;
      TrimStartRun(ws[1..], rest);
    } else {
      assert ws + rest == rest;
    }
  }

  /** A word, one whitespace run, then a rest that starts with no whitespace:
      the word is kept, the whole run becomes a single '-', and the rest is
      converted on its own. With the no-whitespace case this determines the
      result of every string. */
  lemma {:induction false} DashWordThenRun(w: string, ws: string, rest: string)
    requires forall k :: 0 <= k < |w| ==> !IsWhitespace(w[k])
    requires |ws| > 0 && AllWhitespace(ws)
    requires |rest| > 0 ==> !IsWhitespace(rest[0])
    ensures DashWhitespaceRuns(w + ws + rest) == w + "-" + DashWhitespaceRuns(rest)
    decreases |w|
  {
    if |w| == 0 {
      assert w + ws + rest == ws + rest;
      DashLeadingRun(ws, rest);
    } else {
      DashWordThenRun(w[1..], ws, rest);
      DashWordStep(w, ws, rest, DashWhitespaceRuns(rest));
    }
  }

  /** One more leading word character is kept in front of the converted rest. */
  lemma DashWordStep(w: string, ws: string, rest: string, tail: string)
    requires |w| > 0 && !IsWhitespace(w[0])
    requires DashWhitespaceRuns(w[1..] + ws + rest) == w[1..] + "-" + tail
    ensures DashWhitespaceRuns(w + ws + rest) == w + "-" + tail
  {
    var t := w[1..] + ws + rest;
    assert w + ws + rest == [w[0]] + t;
    DashCons(w[0], t);
    assert w + "-" + tail == [w[0]] + (w[1..] + "-" + tail);
  }

  predicate StartsWith(s: string, prefix: string) {
    |prefix| <= |s| && s[..|prefix|] == prefix
  }

  /** `sub` occurs in `s` starting at index `i`. */
  predicate OccursAt(s: string, sub: string, i: int) {
    0 <= i <= |s| - |sub| && s[i..i + |sub|] == sub
  }

  /** `s.includes(sub)`: some window of `s` equals `sub`. */
  function Contains(s: string, sub: string): (b: bool)
    ensures b <==> exists i :: OccursAt(s, sub, i)
    decreases |s|
  {
    if StartsWith(s, sub) then
      assert OccursAt(s, sub, 0);
      true
    else if |s| == 0 then
      false
    else
      var b := Contains(s[1..], sub);
      assert forall i :: OccursAt(s[1..], sub, i) <==> OccursAt(s, sub, i + 1) by {
        forall i
          ensures OccursAt(s[1..], sub, i) <==> OccursAt(s, sub, i + 1)
        {
          if 0 <= i <= |s| - 1 - |sub| {
            assert s[1..][i..i + |sub|] == s[i + 1..i + 1 + |sub|];
          }
        }
      }
      assert !OccursAt(s, sub, 0);
      assert (exists i :: OccursAt(s, sub, i)) ==> exists i :: OccursAt(s[1..], sub, i) by {
        if exists i :: OccursAt(s, sub, i) {
          var i :| OccursAt(s, sub, i);
          assert OccursAt(s[1..], sub, i - 1);
        }
      }
      b
  }
}
