/**
 * Deadlines: the `datetime.strptime(deadline_str, '%Y-%m-%d %H:%M')` call of
 * the index page and the `deadline_dt > now` comparison. The parser is the
 * strict, zero-padded reading of the format (16 characters), with the
 * calendar checks `datetime` makes (month range, days per month with leap
 * years, hour and minute ranges, years 1 to 9999).
 */
module Deadline {
  import opened Text

  /** A naive `datetime`, to the microsecond. */
  datatype Moment = Moment(year: int, month: int, day: int, hour: int, minute: int, second: int, micro: int)

  predicate LeapYear(y: int) {
    y % 4 == 0 && (y % 100 != 0 || y % 400 == 0)
  }

  function DaysInMonth(y: int, m: int): int
    requires 1 <= m <= 12
  {
    if m == 2 then (if LeapYear(y) then 29 else 28)
    else if m == 4 || m == 6 || m == 9 || m == 11 then 30
    else 31
  }

  /** The values `datetime` accepts. */
  predicate ValidMoment(t: Moment) {
    && 1 <= t.year <= 9999
    && 1 <= t.month <= 12
    && 1 <= t.day <= DaysInMonth(t.year, t.month)
    && 0 <= t.hour < 24
    && 0 <= t.minute < 60
    && 0 <= t.second < 60
    && 0 <= t.micro < 1000000
  }

  /** A moment a deadline string can denote: whole minutes. */
  predicate OnTheMinute(t: Moment) {
    ValidMoment(t) && t.second == 0 && t.micro == 0
  }

  /** Chronological order: `a < b` on `datetime` values. */
  predicate Before(a: Moment, b: Moment): (r: bool)
    ensures r ==> a != b
  {
    if a.year != b.year then a.year < b.year
    else if a.month != b.month then a.month < b.month
    else if a.day != b.day then a.day < b.day
    else if a.hour != b.hour then a.hour < b.hour
    else if a.minute != b.minute then a.minute < b.minute
    else if a.second != b.second then a.second < b.second
    else a.micro < b.micro
  }

  /** `Before` is a strict total order, as `<` on `datetime` is. */
  lemma BeforeStrictOrder(a: Moment, b: Moment, c: Moment)
    ensures Before(a, b) ==> !Before(b, a)
    ensures a != b ==> Before(a, b) || Before(b, a)
    ensures Before(a, b) && Before(b, c) ==> Before(a, c)
  {
  }

  /** The shape of `%Y-%m-%d %H:%M` with every field zero-padded. */
  predicate WellFormed(s: string) {
    && |s| == 16
    && s[4] == '-' && s[7] == '-' && s[10] == ' ' && s[13] == ':'
    && AllDigits(s[0..4]) && AllDigits(s[5..7]) && AllDigits(s[8..10])
    && AllDigits(s[11..13]) && AllDigits(s[14..16])
  }

  function FieldsOf(s: string): Moment
    requires WellFormed(s)
  {
    Moment(DigitsValue(s[0..4]), DigitsValue(s[5..7]), DigitsValue(s[8..10]),
           DigitsValue(s[11..13]), DigitsValue(s[14..16]), 0, 0)
  }

  /** `strptime(s, '%Y-%m-%d %H:%M')`; `None` is the `ValueError` case. */
  function ParseDeadline(s: string): (r: Option<Moment>)
    ensures r.Some? ==> OnTheMinute(r.value)
  {
    if WellFormed(s) && ValidMoment(FieldsOf(s)) then Some(FieldsOf(s)) else None
  }

  function Pow10(n: nat): nat {
    if n == 0 then 1 else 10 * Pow10(n - 1)
  }

  /** `n` written with exactly `width` digits, zero-padded on the left. */
  function Pad(n: nat, width: nat): (r: string)
    ensures |r| == width && AllDigits(r)
  {
    if width == 0 then [] else Pad(n / 10, width - 1) + [DigitChar(n % 10)]
  }

  /** `strftime('%Y-%m-%d %H:%M')`: the canonical text of a deadline. */
  function FormatDeadline(t: Moment): (r: string)
    requires ValidMoment(t)
    ensures |r| == 16
  {
    Pad(t.year, 4) + "-" + Pad(t.month, 2) + "-" + Pad(t.day, 2) + " "
    + Pad(t.hour, 2) + ":" + Pad(t.minute, 2)
  }

  lemma {:induction false} PadValue(n: nat, width: nat)
    requires n < Pow10(width)
    ensures DigitsValue(Pad(n, width)) == n
  {
    if width > 0 {
      var p := Pad(n, width);
      assert p[..width - 1] == Pad(n / 10, width - 1);
      assert n / 10 < Pow10(width - 1);
      PadValue(n / 10, width - 1);
    }
  }

  lemma {:induction false} PadOfDigits(d: string)
    requires AllDigits(d)
    ensures DigitsValue(d) < Pow10(|d|)
    ensures Pad(DigitsValue(d), |d|) == d
  {
    if d != [] {
      var init := d[..|d| - 1];
      PadOfDigits(init);
      var v := DigitsValue(d);
      assert v / 10 == DigitsValue(init) && v % 10 == DigitValue(d[|d| - 1]);
      assert d == init + [d[|d| - 1]];
    }
  }

  /** Parsing a formatted deadline gives the moment back. */
  lemma ParseFormat(t: Moment)
    requires OnTheMinute(t)
    ensures ParseDeadline(FormatDeadline(t)) == Some(t)
  {
    var s := FormatDeadline(t);
    assert s[0..4] == Pad(t.year, 4);
    assert s[5..7] == Pad(t.month, 2);
    assert s[8..10] == Pad(t.day, 2);
    assert s[11..13] == Pad(t.hour, 2);
    assert s[14..16] == Pad(t.minute, 2);
    PadValue(t.year, 4);
    PadValue(t.month, 2);
    PadValue(t.day, 2);
    PadValue(t.hour, 2);
    PadValue(t.minute, 2);
  }

  /** The parser accepts only the canonical text: what it reads formats back to the input. */
  lemma FormatParse(s: string)
    requires ParseDeadline(s).Some?
    ensures FormatDeadline(ParseDeadline(s).value) == s
  {
    PadOfDigits(s[0..4]);
    PadOfDigits(s[5..7]);
    PadOfDigits(s[8..10]);
    PadOfDigits(s[11..13]);
    PadOfDigits(s[14..16]);
    var r := FormatDeadline(ParseDeadline(s).value);
    assert r == s[0..4] + "-" + s[5..7] + "-" + s[8..10] + " " + s[11..13] + ":" + s[14..16];
  }
}
