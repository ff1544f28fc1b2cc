/**
 * String helpers the handlers rely on: Python's `str.strip()`, `str.upper()`,
 * `str(int)`, `int(str)`, `str.replace('T', ' ')`, the `normalize` helper of
 * the leaderboard and the code-point order that `sorted()` uses on usernames.
 * Everything is over ASCII; other characters pass through unchanged.
 */
module Text {

  datatype Option<+T> = None | Some(value: T)

  /** Characters that Python's `str.isspace()` accepts in the ASCII range. */
  predicate IsSpace(c: char) {
    c == ' ' || c == '\t' || c == '\n' || c == '\r' || c == '\U{B}' || c == '\U{C}'
    || ('\U{1C}' <= c <= '\U{1F}')
  }

  predicate AllSpace(s: string) {
    forall k :: 0 <= k < |s| ==> IsSpace(s[k])
  }

  predicate IsLower(c: char) { 'a' <= c <= 'z' }

  /** `str.lstrip()`: drops the whitespace prefix. */
  function StripLeft(s: string): (r: string)
    ensures |r| <= |s| && r == s[|s| - |r|..]
    ensures AllSpace(s[..|s| - |r|])
    ensures r == [] || !IsSpace(r[0])
  {
    if s != [] && IsSpace(s[0]) then
      var r := StripLeft(s[1..]);
      assert s[1..][|s| - 1 - |r|..] == s[|s| - |r|..];
      assert forall k :: 1 <= k < |s| - |r| ==> s[k] == s[1..][..|s| - 1 - |r|][k - 1];
      r
    else s
  }

  /** `str.rstrip()`: drops the whitespace suffix. */
  function StripRight(s: string): (r: string)
    ensures |r| <= |s| && r == s[..|r|]
    ensures AllSpace(s[|r|..])
    ensures r == [] || !IsSpace(r[|r| - 1])
  {
    if s != [] && IsSpace(s[|s| - 1]) then
      var r := StripRight(s[..|s| - 1]);
      assert s[..|s| - 1][..|r|] == s[..|r|];
      assert forall k :: |r| <= k < |s| - 1 ==> s[k] == s[..|s| - 1][|r|..][k - |r|];
      r
    else s
  }

  /** `str.strip()`. */
  function Strip(s: string): string {
    StripRight(StripLeft(s))
  }

  /** A string is stripped when it neither starts nor ends with whitespace. */
  predicate Stripped(s: string) {
    s == [] || (!IsSpace(s[0]) && !IsSpace(s[|s| - 1]))
  }

  lemma StripIsStripped(s: string)
    ensures Stripped(Strip(s))
  {
    var l := StripLeft(s);
    var r := StripRight(l);
    if r != [] {
      assert r[0] == l[0];
    }
  }

  /** What `strip` keeps: a contiguous piece of the input, with only whitespace around it. */
  lemma {:induction false} StripShape(s: string) returns (i: int)
    ensures 0 <= i <= |s| - |Strip(s)| && Strip(s) == s[i..i + |Strip(s)|]
    ensures AllSpace(s[..i]) && AllSpace(s[i + |Strip(s)|..])
  {
    i := TrimmedPiece(s, StripLeft(s), Strip(s));
  }

  /** A whitespace suffix cut from a whitespace-trimmed suffix leaves a piece framed by whitespace. */
  lemma TrimmedPiece(s: string, l: string, r: string) returns (i: int)
    requires |l| <= |s| && l == s[|s| - |l|..] && AllSpace(s[..|s| - |l|])
    requires |r| <= |l| && r == l[..|r|] && AllSpace(l[|r|..])
    ensures 0 <= i <= |s| - |r| && r == s[i..i + |r|]
    ensures AllSpace(s[..i]) && AllSpace(s[i + |r|..])
  {
    i := |s| - |l|;
    assert r == s[i..i + |r|] by {
      forall k | 0 <= k < |r| ensures r[k] == s[i + k] {
        assert r[k] == l[k] == s[i..][k];
      }
    }
    var tail := s[i + |r|..];
    forall k | 0 <= k < |tail| ensures IsSpace(tail[k]) {
      assert tail[k] == l[|r|..][k];
    }
  }

  lemma {:induction false} StripLeftOfStripped(s: string)
    requires s == [] || !IsSpace(s[0])
    ensures StripLeft(s) == s
  {
  }

  lemma {:induction false} StripRightOfStripped(s: string)
    requires s == [] || !IsSpace(s[|s| - 1])
    ensures StripRight(s) == s
  {
  }

  lemma StripOfStripped(s: string)
    requires Stripped(s)
    ensures Strip(s) == s
  {
    StripLeftOfStripped(s);
    StripRightOfStripped(s);
  }

  /** Whitespace around a string does not survive `strip`. */
  lemma {:induction false} StripLeftPadding(w: string, s: string)
    requires AllSpace(w)
    ensures StripLeft(w + s) == StripLeft(s)
    decreases |w|
  {
    if w == [] {
      assert w + s == s;
    } else {
      assert (w + s)[0] == w[0];
      assert (w + s)[1..] == w[1..] + s;
      StripLeftPadding(w[1..], s);
    }
  }

  lemma {:induction false} StripRightPadding(s: string, w: string)
    requires AllSpace(w)
    ensures StripRight(s + w) == StripRight(s)
    decreases |w|
  {
    if w == [] {
      assert s + w == s;
    } else {
      assert (s + w)[|s + w| - 1] == w[|w| - 1];
      assert (s + w)[..|s + w| - 1] == s + w[..|w| - 1];
      StripRightPadding(s, w[..|w| - 1]);
    }
  }

  lemma StripLeftKeepsTail(s: string, w: string)
    requires StripLeft(s) != []
    ensures StripLeft(s + w) == StripLeft(s) + w
    decreases |s|
  {
    if s != [] && IsSpace(s[0]) {
      assert (s + w)[1..] == s[1..] + w;
      StripLeftKeepsTail(s[1..], w);
    }
  }

  lemma StripPadding(w1: string, s: string, w2: string)
    requires AllSpace(w1) && AllSpace(w2)
    ensures Strip(w1 + s + w2) == Strip(s)
  {
    assert w1 + s + w2 == w1 + (s + w2);
    StripLeftPadding(w1, s + w2);
    if StripLeft(s) == [] {
      var i := |s|;
      assert AllSpace(s);
      assert AllSpace(s + w2);
      StripLeftPadding(s + w2, []);
      assert s + w2 + [] == s + w2;
      StripLeftPadding(s, []);
      assert s + [] == s;
    } else {
      StripLeftKeepsTail(s, w2);
      StripRightPadding(StripLeft(s), w2);
    }
  }

  /** Python's `str.upper()` on one ASCII character. */
  function UpperChar(c: char): char {
    if IsLower(c) then (c as int - 32) as char else c
  }

  function Upper(s: string): (r: string)
    ensures |r| == |s|
  {
    seq(|s|, k requires 0 <= k < |s| => UpperChar(s[k]))
  }

  lemma UpperHasNoLower(s: string)
    ensures forall k :: 0 <= k < |Upper(s)| ==> !IsLower(Upper(s)[k])
  {
  }

  lemma UpperIdempotent(s: string)
    ensures Upper(Upper(s)) == Upper(s)
  {
  }

  lemma UpperOfUpperCase(s: string)
    requires forall k :: 0 <= k < |s| ==> !IsLower(s[k])
    ensures Upper(s) == s
  {
  }

  /** Case and whitespace commute: upper-casing neither creates nor removes whitespace. */
  lemma {:induction false} StripLeftUpper(s: string)
    ensures StripLeft(Upper(s)) == Upper(StripLeft(s))
    decreases |s|
  {
    if s != [] {
      assert Upper(s)[0] == UpperChar(s[0]);
      if IsSpace(s[0]) {
        assert Upper(s)[1..] == Upper(s[1..]);
        StripLeftUpper(s[1..]);
      }
    }
  }

  lemma {:induction false} StripRightUpper(s: string)
    ensures StripRight(Upper(s)) == Upper(StripRight(s))
    decreases |s|
  {
    if s != [] {
      assert Upper(s)[|s| - 1] == UpperChar(s[|s| - 1]);
      if IsSpace(s[|s| - 1]) {
        assert Upper(s)[..|s| - 1] == Upper(s[..|s| - 1]);
        StripRightUpper(s[..|s| - 1]);
      }
    }
  }

  lemma StripUpper(s: string)
    ensures Strip(Upper(s)) == Upper(Strip(s))
  {
    StripLeftUpper(s);
    StripRightUpper(StripLeft(s));
  }

  /**
   * The leaderboard's `normalize`: a missing or empty code becomes "",
   * anything else is stripped and upper-cased.
   */
  function Normalize(s: Option<string>): (r: string)
    ensures s.None? ==> r == ""
    ensures |r| <= if s.Some? then |s.value| else 0
  {
    match s
    case None => ""
    case Some(x) => if x == "" then "" else Upper(Strip(x))
  }

  /** A normalised code carries no surrounding whitespace and no lower-case letter. */
  lemma NormalizeShape(s: Option<string>)
    ensures Stripped(Normalize(s))
    ensures forall k :: 0 <= k < |Normalize(s)| ==> !IsLower(Normalize(s)[k])
  {
    if s.Some? && s.value != "" {
      var x := s.value;
      StripUpper(x);
      StripIsStripped(Upper(x));
      assert Normalize(s) == Strip(Upper(x));
      UpperHasNoLower(Strip(x));
    }
  }

  /** A code compared against a result: equal after normalisation. */
  predicate SameCode(a: Option<string>, b: Option<string>) {
    Normalize(a) == Normalize(b)
  }

  /** A stripped code without lower-case letters is already normal. */
  lemma NormalFixed(n: string)
    requires Stripped(n) && forall k :: 0 <= k < |n| ==> !IsLower(n[k])
    ensures Normalize(Some(n)) == n
  {
    if n != "" {
      StripOfStripped(n);
      UpperOfUpperCase(n);
    }
  }

  /** Normalising twice is normalising once. */
  lemma NormalizeIdempotent(s: Option<string>)
    ensures Normalize(Some(Normalize(s))) == Normalize(s)
  {
    NormalizeShape(s);
    NormalFixed(Normalize(s));
  }

  /** Surrounding whitespace is ignored: `normalize(" 1 ")` equals `normalize("1")`. */
  lemma NormalizeIgnoresPadding(w1: string, s: string, w2: string)
    requires AllSpace(w1) && AllSpace(w2)
    ensures Normalize(Some(w1 + s + w2)) == Normalize(Some(s))
  {
    StripPadding(w1, s, w2);
    if s == "" {
      assert Strip(w1 + s + w2) == "";
    }
  }

  /** Case is ignored: `normalize("x")` equals `normalize("X")`. */
  lemma NormalizeIgnoresCase(s: string)
    ensures Normalize(Some(Upper(s))) == Normalize(Some(s))
  {
    StripUpper(s);
    StripUpper(Upper(s));
    UpperIdempotent(Strip(s));
    UpperIdempotent(s);
  }

  /** `str.replace('T', ' ')`. */
  function ReplaceT(s: string): (r: string)
    ensures |r| == |s|
    ensures forall k :: 0 <= k < |s| ==> r[k] == (if s[k] == 'T' then ' ' else s[k])
    ensures 'T' !in r
  {
    if s == [] then [] else [if s[0] == 'T' then ' ' else s[0]] + ReplaceT(s[1..])
  }

  // ----- decimal integers: str(n) and int(s) -----

  predicate IsDigit(c: char) { '0' <= c <= '9' }

  function DigitChar(d: nat): char
    requires d < 10
  {
    ('0' as int + d) as char
  }

  function DigitValue(c: char): nat
    requires IsDigit(c)
  {
    c as int - '0' as int
  }

  /** `str(n)` for a natural number: its shortest decimal form. */
  function NatToString(n: nat): (r: string)
    ensures |r| > 0 && forall k :: 0 <= k < |r| ==> IsDigit(r[k])
    ensures |r| > 1 ==> r[0] != '0'
  {
    if n < 10 then [DigitChar(n)] else NatToString(n / 10) + [DigitChar(n % 10)]
  }

  /** `str(n)` for any integer. */
  function IntToString(n: int): string {
    if n < 0 then "-" + NatToString(-n) else NatToString(n)
  }

  /** The value of a string of decimal digits. */
  function DigitsValue(s: string): nat
    requires forall k :: 0 <= k < |s| ==> IsDigit(s[k])
  {
    if s == [] then 0 else 10 * DigitsValue(s[..|s| - 1]) + DigitValue(s[|s| - 1])
  }

  predicate AllDigits(s: string) {
    forall k :: 0 <= k < |s| ==> IsDigit(s[k])
  }

  /**
   * `int(s)`: surrounding whitespace, an optional sign, then at least one
   * ASCII digit; anything else is the `ValueError` case.
   */
  function ParseInt(s: string): (r: Option<int>)
    ensures Strip(s) == [] ==> r.None?
    ensures s != [] && AllDigits(s) ==> r == Some(DigitsValue(s))
  {
    var t := Strip(s);
    if t == [] then None
    else
      var sign := if t[0] == '-' then -1 else 1;
      var body := if t[0] == '-' || t[0] == '+' then t[1..] else t;
      if body != [] && AllDigits(body) then Some(sign * DigitsValue(body))
      else None
  }

  lemma {:induction false} NatToStringValue(n: nat)
    ensures DigitsValue(NatToString(n)) == n
  {
    if n >= 10 {
      NatToStringValue(n / 10);
      var s := NatToString(n);
      assert s[..|s| - 1] == NatToString(n / 10);
    }
  }

  /** `int(str(n)) == n`. */
  lemma IntToStringRoundTrip(n: int)
    ensures ParseInt(IntToString(n)) == Some(n)
  {
    var s := IntToString(n);
    var digits := NatToString(if n < 0 then -n else n);
    NatToStringValue(if n < 0 then -n else n);
    assert Stripped(s) by {
      assert !IsSpace(s[0]);
      assert !IsSpace(s[|s| - 1]);
    }
    StripOfStripped(s);
    if n < 0 {
      assert s[1..] == digits;
    } else {
      assert s[0] != '-' && s[0] != '+';
    }
  }

  /** Distinct numbers get distinct decimal forms, so form keys never collide. */
  lemma IntToStringInjective(a: int, b: int)
    requires IntToString(a) == IntToString(b)
    ensures a == b
  {
    IntToStringRoundTrip(a);
    IntToStringRoundTrip(b);
  }

  // ----- the order of Python string comparison (code point by code point) -----

  predicate Less(a: string, b: string) {
    if a == [] then b != []
    else if b == [] then false
    else if a[0] < b[0] then true
    else a[0] == b[0] && Less(a[1..], b[1..])
  }

  lemma {:induction false} LessIrreflexive(a: string)
    ensures !Less(a, a)
  {
    if a != [] {
      LessIrreflexive(a[1..]);
    }
  }

  lemma {:induction false} LessTransitive(a: string, b: string, c: string)
    requires Less(a, b) && Less(b, c)
    ensures Less(a, c)
  {
    if a != [] && b != [] && c != [] && a[0] == b[0] == c[0] {
      LessTransitive(a[1..], b[1..], c[1..]);
    }
  }

  lemma {:induction false} LessTotal(a: string, b: string)
    requires a != b
    ensures Less(a, b) || Less(b, a)
  {
    if a != [] && b != [] && a[0] == b[0] {
      assert a == [a[0]] + a[1..] && b == [b[0]] + b[1..];
      LessTotal(a[1..], b[1..]);
    }
  }
}
