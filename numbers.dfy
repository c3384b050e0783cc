/**
 * Decimal text: the declared length of a field tag (`int("007")`), and what
 * Python's `int(value)` and `float(value)` accept for an already stripped value.
 */
module Numbers {
  import opened Chars

  predicate AllDigits(s: string) {
    forall i :: 0 <= i < |s| ==> IsDigit(s[i])
  }

  function DigitValue(c: char): (d: nat)
    requires IsDigit(c)
    ensures d < 10
  {
    c as int - '0' as int
  }

  function DigitChar(d: nat): (c: char)
    requires d < 10
    ensures IsDigit(c) && DigitValue(c) == d
  {
    ('0' as int + d) as char
  }

  /** The number a run of decimal digits denotes; leading zeros are allowed. */
  function DigitsValue(s: string): nat
    requires AllDigits(s)
    decreases |s|
  {
    if s == [] then 0 else DigitsValue(s[..|s| - 1]) * 10 + DigitValue(s[|s| - 1])
  }

  /** The shortest decimal spelling of `n`; reading it back gives `n`. */
  function NatToDigits(n: nat): (r: string)
    ensures |r| >= 1 && AllDigits(r)
    ensures DigitsValue(r) == n
    decreases n
  {
    if n < 10 then [DigitChar(n)]
    else
      var front := NatToDigits(n / 10);
      var r := front + [DigitChar(n % 10)];
      assert r[..|r| - 1] == front;
      r
  }

  /**
   * PEP 515, as `int()` and `float()` read text: an underscore may stand only
   * between two decimal digits.
   */
  predicate UnderscoresOk(s: string) {
    forall i :: 0 <= i < |s| && s[i] == '_' ==> 0 < i < |s| - 1 && IsDigit(s[i - 1]) && IsDigit(s[i + 1])
  }

  /** `s` with its underscores removed. */
  function RemoveUnderscores(s: string): (r: string)
    ensures |r| <= |s|
    ensures forall i :: 0 <= i < |r| ==> r[i] != '_'
    ensures (forall i :: 0 <= i < |s| ==> s[i] != '_') ==> r == s
    decreases |s|
  {
    if s == [] then []
    else (if s[0] == '_' then [] else [s[0]]) + RemoveUnderscores(s[1..])
  }

  predicate IsSign(c: char) {
    c == '+' || c == '-'
  }

  /** The text after an optional leading sign. */
  function Unsigned(t: string): string {
    if |t| > 0 && IsSign(t[0]) then t[1..] else t
  }

  /** The integers Python's `int(s)` reads (ASCII digits): an optional sign, then digits. */
  predicate IsIntLiteral(s: string) {
    var t := RemoveUnderscores(s);
    UnderscoresOk(s) && |Unsigned(t)| > 0 && AllDigits(Unsigned(t))
  }

  function IntLiteralValue(s: string): int
    requires IsIntLiteral(s)
  {
    var t := RemoveUnderscores(s);
    if t[0] == '-' then -(DigitsValue(t[1..]) as int) else DigitsValue(Unsigned(t))
  }

  /** The first index at or after `i` that does not hold a decimal digit, or `|s|`. */
  function DigitEnd(s: string, i: nat): (j: nat)
    requires i <= |s|
    ensures i <= j <= |s|
    ensures AllDigits(s[i..j])
    ensures j < |s| ==> !IsDigit(s[j])
    decreases |s| - i
  {
    if i < |s| && IsDigit(s[i]) then DigitEnd(s, i + 1) else i
  }

  /** `DigitEnd` stops at the first character after a run of digits. */
  lemma {:induction false} DigitEndAt(s: string, i: nat, j: nat)
    requires i <= j <= |s|
    requires AllDigits(s[i..j])
    requires j < |s| ==> !IsDigit(s[j])
    ensures DigitEnd(s, i) == j
    decreases j - i
  {
    if i < j {
      assert IsDigit(s[i..j][0]);
      assert s[i + 1..j] == s[i..j][1..];
      DigitEndAt(s, i + 1, j);
    }
  }

  /**
   * The decimal spellings Python's `float(s)` reads, underscores removed:
   * optional sign, digits, optional `.` and digits (at least one digit in all),
   * optional exponent `e`/`E`, optional sign, at least one digit.
   * (`float` also reads `inf` and `nan`; they hold no `.`, and the importer
   * calls `float` only on text that holds one.)
   */
  predicate IsDecimalSyntax(t: string) {
    var a := if |t| > 0 && IsSign(t[0]) then 1 else 0;
    var b := DigitEnd(t, a);
    var c := if b < |t| && t[b] == '.' then b + 1 else b;
    var d := DigitEnd(t, c);
    && (b > a || d > c)
    && (d == |t|
        || (&& (t[d] == 'e' || t[d] == 'E')
            && var e := if d + 1 < |t| && IsSign(t[d + 1]) then d + 2 else d + 1;
               DigitEnd(t, e) > e && DigitEnd(t, e) == |t|))
  }

  predicate IsFloatLiteral(s: string) {
    UnderscoresOk(s) && IsDecimalSyntax(RemoveUnderscores(s))
  }

  /** The decimal spelling of an integer, as Python's `str(i)` writes it. */
  function IntToText(i: int): (r: string)
    ensures IsIntLiteral(r) && IntLiteralValue(r) == i
    ensures forall k :: 0 <= k < |r| ==> r[k] != '.'
  {
    var digits := NatToDigits(if i < 0 then -i else i);
    SignedDigitsLiteral(digits, i < 0);
    if i < 0 then "-" + digits else digits
  }

  /** Digits, with or without a leading `-`, are read by `int()` as their value, negated after the `-`. */
  lemma SignedDigitsLiteral(digits: string, negative: bool)
    requires |digits| >= 1 && AllDigits(digits)
    ensures var r := if negative then "-" + digits else digits;
      && IsIntLiteral(r)
      && IntLiteralValue(r) == (if negative then -(DigitsValue(digits) as int) else DigitsValue(digits))
      && forall k :: 0 <= k < |r| ==> r[k] != '.'
  {
    var r := if negative then "-" + digits else digits;
    assert forall k :: 0 <= k < |r| ==> r[k] != '_';
    assert RemoveUnderscores(r) == r;
    assert UnderscoresOk(r);
    assert Unsigned(r) == digits;
  }
}
