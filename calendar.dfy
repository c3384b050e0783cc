/**
 * The two `datetime.strptime` calls of the importer, on the fixed-width text
 * they receive: `%Y%m%d` on 8 characters and `%Y%m%d%H%M%S` on 14.
 *
 * CPython's `_strptime` matches the format with a regular expression
 * (`%Y` four digits; `%m` `1[0-2]|0[1-9]|[1-9]`; `%d`
 * `3[01]|[12]\d|0[1-9]|[1-9]| [1-9]`; `%H` `2[0-3]|[0-1]\d|\d`; `%M`
 * `[0-5]\d|\d`; `%S` `6[0-1]|[0-5]\d|\d`), rejects text left over after the
 * match, and then builds a `datetime`, whose constructor rejects year 0, a day
 * past the end of its month and seconds 60 and 61. On text of exactly 8 (or 14)
 * characters nothing may be left over, so every directive must take its
 * two-character form; each directive's two-character alternatives come before
 * its one-character one, so they are the ones the matcher picks.
 */
module Calendar {
  import opened Options
  import opened Chars
  import opened Numbers

  datatype DateTime = DateTime(year: int, month: int, day: int, hour: int, minute: int, second: int)

  /** The Gregorian leap-year rule. */
  predicate IsLeapYear(y: int) {
    y % 4 == 0 && (y % 100 != 0 || y % 400 == 0)
  }

  function DaysInMonth(y: int, m: int): (n: int)
    requires 1 <= m <= 12
    ensures 28 <= n <= 31
    ensures n == 29 <==> m == 2 && IsLeapYear(y)
  {
    if m == 2 then (if IsLeapYear(y) then 29 else 28)
    else if m == 4 || m == 6 || m == 9 || m == 11 then 30
    else 31
  }

  /** What `datetime(year, month, day)` accepts. */
  predicate ValidDate(d: DateTime) {
    1 <= d.year <= 9999 && 1 <= d.month <= 12 && 1 <= d.day <= DaysInMonth(d.year, d.month)
  }

  /** What `datetime(..., hour, minute, second)` accepts. */
  predicate ValidTime(d: DateTime) {
    0 <= d.hour <= 23 && 0 <= d.minute <= 59 && 0 <= d.second <= 59
  }

  predicate IsMidnight(d: DateTime) {
    d.hour == 0 && d.minute == 0 && d.second == 0
  }

  /** Two-character `%m`: `1[0-2]` or `0[1-9]`. */
  predicate MonthField(a: char, b: char) {
    (a == '1' && '0' <= b <= '2') || (a == '0' && '1' <= b <= '9')
  }

  /** Two-character `%d`: `3[01]`, `[12]\d`, `0[1-9]` or a space and `[1-9]`. */
  predicate DayField(a: char, b: char) {
    || (a == '3' && (b == '0' || b == '1'))
    || ((a == '1' || a == '2') && IsDigit(b))
    || (a == '0' && '1' <= b <= '9')
    || (a == ' ' && '1' <= b <= '9')
  }

  /** Two-character `%H`: `2[0-3]` or `[0-1]\d`. */
  predicate HourField(a: char, b: char) {
    (a == '2' && '0' <= b <= '3') || ((a == '0' || a == '1') && IsDigit(b))
  }

  /** Two-character `%M`: `[0-5]\d`. */
  predicate MinuteField(a: char, b: char) {
    '0' <= a <= '5' && IsDigit(b)
  }

  /** Two-character `%S`: `6[0-1]` or `[0-5]\d`. */
  predicate SecondField(a: char, b: char) {
    (a == '6' && (b == '0' || b == '1')) || ('0' <= a <= '5' && IsDigit(b))
  }

  /** The number a two-character directive denotes (a leading space counts as nothing). */
  function FieldValue(a: char, b: char): (n: nat)
    requires a == ' ' || IsDigit(a)
    requires IsDigit(b)
    ensures n < 100
  {
    (if a == ' ' then 0 else DigitValue(a)) * 10 + DigitValue(b)
  }

  /** The `%Y%m%d` directives matched on the first eight characters of `s`. */
  predicate DateShape(s: string)
    requires |s| >= 8
  {
    AllDigits(s[..4]) && MonthField(s[4], s[5]) && DayField(s[6], s[7])
  }

  /** The date the first eight characters of `s` spell, once `DateShape(s)` holds. */
  function DateFields(s: string, hour: int, minute: int, second: int): DateTime
    requires |s| >= 8 && DateShape(s)
  {
    DateTime(DigitsValue(s[..4]), FieldValue(s[4], s[5]), FieldValue(s[6], s[7]), hour, minute, second)
  }

  /** `datetime.strptime(s, '%Y%m%d')` for an 8-character `s`; `None` where it raises `ValueError`. */
  function ParseDate(s: string): (r: Option<DateTime>)
    requires |s| == 8
    ensures r.Some? ==> ValidDate(r.value) && IsMidnight(r.value)
  {
    if DateShape(s) then
      var d := DateFields(s, 0, 0, 0);
      if ValidDate(d) then Some(d) else None
    else None
  }

  /** `datetime.strptime(s, '%Y%m%d%H%M%S')` for a 14-character `s`; `None` where it raises `ValueError`. */
  function ParseDateTime(s: string): (r: Option<DateTime>)
    requires |s| == 14
    ensures r.Some? ==> ValidDate(r.value) && ValidTime(r.value)
  {
    if DateShape(s) && HourField(s[8], s[9]) && MinuteField(s[10], s[11]) && SecondField(s[12], s[13]) then
      var d := DateFields(s, FieldValue(s[8], s[9]), FieldValue(s[10], s[11]), FieldValue(s[12], s[13]));
      if ValidDate(d) && ValidTime(d) then Some(d) else None
    else None
  }

  /** Two decimal digits for `0 <= n < 100`. */
  function Digits2(n: nat): (r: string)
    requires n < 100
  {
    [DigitChar(n / 10), DigitChar(n % 10)]
  }

  /** The `YYYYMMDD` spelling of a date (ADIF's `QSO_DATE` form). */
  function FormatDate(d: DateTime): (r: string)
    requires ValidDate(d)
    ensures |r| == 8
  {
    Digits2(d.year / 100) + Digits2(d.year % 100) + Digits2(d.month) + Digits2(d.day)
  }

  /** The `HHMMSS` spelling of a time of day (ADIF's `TIME_ON` form). */
  function FormatTime(d: DateTime): (r: string)
    requires ValidTime(d)
    ensures |r| == 6
  {
    Digits2(d.hour) + Digits2(d.minute) + Digits2(d.second)
  }

  lemma Digits2Value(n: nat)
    requires n < 100
    ensures FieldValue(Digits2(n)[0], Digits2(n)[1]) == n
  {
  }

  lemma Digits4Value(n: nat)
    requires n < 10000
    ensures AllDigits(Digits2(n / 100) + Digits2(n % 100))
    ensures DigitsValue(Digits2(n / 100) + Digits2(n % 100)) == n
  {
    var s := Digits2(n / 100) + Digits2(n % 100);
    assert s[..3][..2] == s[..2];
    assert s[..2][..1] == s[..1];
    assert s[..1][..0] == [];
    assert DigitsValue(s[..1]) == n / 1000;
    assert DigitsValue(s[..2]) == n / 100;
    assert DigitsValue(s[..3]) == n / 10;
  }

  /** A date written as `YYYYMMDD` parses back to itself. */
  lemma ParseFormatDate(d: DateTime)
    requires ValidDate(d) && IsMidnight(d)
    ensures ParseDate(FormatDate(d)) == Some(d)
  {
    var s := FormatDate(d);
    Digits4Value(d.year);
    assert s[..4] == Digits2(d.year / 100) + Digits2(d.year % 100);
    Digits2Value(d.month);
    Digits2Value(d.day);
    assert DateShape(s);
  }

  /** A date and time written as `YYYYMMDDHHMMSS` parse back to themselves. */
  lemma ParseFormatDateTime(d: DateTime)
    requires ValidDate(d) && ValidTime(d)
    ensures ParseDateTime(FormatDate(d) + FormatTime(d)) == Some(d)
  {
    var s := FormatDate(d) + FormatTime(d);
    Digits4Value(d.year);
    assert s[..4] == Digits2(d.year / 100) + Digits2(d.year % 100);
    Digits2Value(d.month);
    Digits2Value(d.day);
    Digits2Value(d.hour);
    Digits2Value(d.minute);
    Digits2Value(d.second);
    assert DateShape(s);
  }

  /**
   * Conversely, an 8-character text that parses is the `YYYYMMDD` spelling of its
   * date, except that a day below 10 may be written with a leading space.
   */
  lemma ParseDateInverse(s: string)
    requires |s| == 8 && ParseDate(s).Some?
    ensures var d := ParseDate(s).value;
      || s == FormatDate(d)
      || (s[6] == ' ' && s[..6] + "0" + s[7..] == FormatDate(d))
  {
    var d := ParseDate(s).value;
    Digits4Inverse(s[..4]);
    Digits2Inverse(s[4], s[5]);
    var day := if s[6] == ' ' then '0' else s[6];
    Digits2Inverse(day, s[7]);
    assert FieldValue(day, s[7]) == d.day;
    assert FormatDate(d) == s[..4] + [s[4], s[5]] + [day, s[7]];
  }

  /**
   * Likewise, a 14-character text that parses is the `YYYYMMDDHHMMSS` spelling of
   * its date and time, except that a day below 10 may be written with a leading
   * space; `%H`, `%M` and `%S` have no spaced form.
   */
  lemma ParseDateTimeInverse(s: string)
    requires |s| == 14 && ParseDateTime(s).Some?
    ensures var d := ParseDateTime(s).value;
      || s == FormatDate(d) + FormatTime(d)
      || (s[6] == ' ' && s[..6] + "0" + s[7..] == FormatDate(d) + FormatTime(d))
  {
    var d := ParseDateTime(s).value;
    Digits4Inverse(s[..4]);
    Digits2Inverse(s[4], s[5]);
    var day := if s[6] == ' ' then '0' else s[6];
    Digits2Inverse(day, s[7]);
    Digits2Inverse(s[8], s[9]);
    Digits2Inverse(s[10], s[11]);
    Digits2Inverse(s[12], s[13]);
    assert FieldValue(day, s[7]) == d.day;
    assert FormatDate(d) + FormatTime(d) == s[..4] + [s[4], s[5]] + [day, s[7]] + [s[8], s[9]] + [s[10], s[11]] + [s[12], s[13]];
  }

  lemma Digits2Inverse(a: char, b: char)
    requires IsDigit(a) && IsDigit(b)
    ensures Digits2(FieldValue(a, b)) == [a, b]
  {
    DigitCharValue(a);
    DigitCharValue(b);
  }

  lemma Digits4Inverse(y: string)
    requires |y| == 4 && AllDigits(y)
    ensures DigitsValue(y) < 10000
    ensures Digits2(DigitsValue(y) / 100) + Digits2(DigitsValue(y) % 100) == y
  {
    assert y[..3][..2] == y[..2];
    assert y[..2][..1] == y[..1];
    assert y[..1][..0] == [];
    var a, b, c, e := DigitValue(y[0]), DigitValue(y[1]), DigitValue(y[2]), DigitValue(y[3]);
    assert DigitsValue(y[..1]) == a;
    assert DigitsValue(y[..2]) == a * 10 + b;
    assert DigitsValue(y[..3]) == (a * 10 + b) * 10 + c;
    assert DigitsValue(y) == (a * 10 + b) * 100 + (c * 10 + e);
    assert DigitsValue(y) / 100 == FieldValue(y[0], y[1]);
    assert DigitsValue(y) % 100 == FieldValue(y[2], y[3]);
    Digits2Inverse(y[0], y[1]);
    Digits2Inverse(y[2], y[3]);
  }

  lemma DigitCharValue(c: char)
    requires IsDigit(c)
    ensures DigitChar(DigitValue(c)) == c
  {
  }
}
