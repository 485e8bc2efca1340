/**
 * Decimal rendering of plotter coordinates, as `printf("%.3f", v)` writes a
 * value v that is an exact multiple of 1/64 (FreeType's 26.6 fixed point):
 * rounded to the nearest thousandth, ties to even, an optional minus sign, the
 * integer part without leading zeros, a point and exactly three digits.
 * ParseDecimal reads such text back.
 */
module Decimal {
  import opened Wrappers

  predicate IsDigit(c: char) {
    '0' <= c <= '9'
  }

  predicate AllDigits(s: string) {
    forall i :: 0 <= i < |s| ==> IsDigit(s[i])
  }

  function DigitValue(c: char): (d: nat)
    requires IsDigit(c)
    ensures d < 10
  {
    c as int - '0' as int
  }

  function DigitChar(d: nat): (c: char)
    requires d < 10
    ensures IsDigit(c) && DigitValue(c) == d
  {
    ('0' as int + d) as char
  }

  /** The decimal digits of n, most significant first, as `%d` prints them. */
  function NatText(n: nat): (s: string)
    ensures 1 <= |s| && AllDigits(s)
    ensures s[0] == '0' ==> n == 0
  {
    if n < 10 then [DigitChar(n)] else NatText(n / 10) + [DigitChar(n % 10)]
  }

  /** The value of a string of decimal digits. */
  function DigitsValue(s: string): nat
    requires AllDigits(s)
  {
    if |s| == 0 then 0 else 10 * DigitsValue(s[..|s| - 1]) + DigitValue(s[|s| - 1])
  }

  lemma {:induction false} NatTextValue(n: nat)
    ensures DigitsValue(NatText(n)) == n
  {
    if n >= 10 {
      var s := NatText(n);
      assert s[..|s| - 1] == NatText(n / 10);
      NatTextValue(n / 10);
    }
  }

  /**
   * The nearest thousandth to v/64, halfway cases to the even neighbour: the
   * number that `%.3f` prints, in thousandths. v/64 has at most six decimals
   * (1/64 = 0.015625), so the value is exact and ties occur when v % 8 == 4.
   */
  function RoundSixtyFourths(v: int): (m: int)
    ensures -4 <= 8 * m - 125 * v <= 4
    ensures (8 * m - 125 * v == 4 || 8 * m - 125 * v == -4) ==> m % 2 == 0
    ensures m < 0 <==> v < 0
  {
    var a: int := if v < 0 then -v else v;
    var n: int := 125 * a;
    var rounded: int := RoundEighths(n);
    assert a > 0 ==> n >= 125 && rounded > 0;
    if v < 0 then
      assert 125 * v == -n && 8 * -rounded - 125 * v == -(8 * rounded - n);
      assert (8 * rounded - n == 4 || 8 * rounded - n == -4) ==> -rounded % 2 == 0 by {
        if rounded % 2 == 0 {
          assert -rounded == 2 * -(rounded / 2);
        }
      }
      -rounded
    else
      assert 125 * v == n;
      rounded
  }

  /** The nearest integer to n/8, halfway cases to the even neighbour. */
  function RoundEighths(n: nat): (q: nat)
    ensures -4 <= 8 * q - n <= 4
    ensures (8 * q - n == 4 || 8 * q - n == -4) ==> q % 2 == 0
  {
    var q, r := n / 8, n % 8;
    if r > 4 || (r == 4 && q % 2 == 1) then q + 1 else q
  }

  /** The three fractional digits of f thousandths, with leading zeros. */
  function FractionText(f: nat): (s: string)
    requires f < 1000
    ensures |s| == 3 && AllDigits(s)
  {
    [DigitChar(f / 100), DigitChar(f / 10 % 10), DigitChar(f % 10)]
  }

  /** m thousandths written with three decimals, as `%.3f` writes m/1000. */
  function DecimalText(m: int): string {
    var a := if m < 0 then -m else m;
    (if m < 0 then "-" else "") + NatText(a / 1000) + "." + FractionText(a % 1000)
  }

  /** Text made only of digits, points and minus signs. */
  predicate NumericText(s: string) {
    forall i :: 0 <= i < |s| ==> IsDigit(s[i]) || s[i] == '.' || s[i] == '-'
  }

  /** The text of a number holds only digits, the point and the sign. */
  lemma DecimalTextChars(m: int)
    ensures NumericText(DecimalText(m))
  {
  }

  /** Any other character is absent from numeric text. */
  lemma NumericTextExcludes(s: string, c: char)
    requires NumericText(s) && !IsDigit(c) && c != '.' && c != '-'
    ensures c !in s
  {
  }

  /** `%.3f` of the value v/64. */
  function Fixed3(v: int): string {
    DecimalText(RoundSixtyFourths(v))
  }

  /** Reads `<digits>.<three digits>` back as a number of thousandths. */
  function ParseUnsigned(s: string): Option<int> {
    if |s| >= 5 && s[|s| - 4] == '.' && AllDigits(s[..|s| - 4]) && AllDigits(s[|s| - 3..]) then
      Some(DigitsValue(s[..|s| - 4]) * 1000 + DigitsValue(s[|s| - 3..]))
    else
      None
  }

  /** Reads an optionally negative decimal with three fractional digits, in thousandths. */
  function ParseDecimal(s: string): Option<int> {
    if |s| > 0 && s[0] == '-' then
      match ParseUnsigned(s[1..])
      case None => None
      case Some(a) => Some(-a)
    else
      ParseUnsigned(s)
  }

  lemma FractionTextValue(f: nat)
    requires f < 1000
    ensures DigitsValue(FractionText(f)) == f
  {
    ThreeDigitsValue(DigitChar(f / 100), DigitChar(f / 10 % 10), DigitChar(f % 10));
    assert f / 10 == 10 * (f / 100) + f / 10 % 10;
  }

  lemma ThreeDigitsValue(a: char, b: char, c: char)
    requires IsDigit(a) && IsDigit(b) && IsDigit(c)
    ensures DigitsValue([a, b, c]) == 100 * DigitValue(a) + 10 * DigitValue(b) + DigitValue(c)
  {
    assert [a, b, c][..2] == [a, b] && [a, b][..1] == [a] && [a][..0] == [];
    assert DigitsValue([a]) == DigitValue(a);
    assert DigitsValue([a, b]) == 10 * DigitValue(a) + DigitValue(b);
  }

  lemma UnsignedRoundTrip(a: nat)
    ensures ParseUnsigned(NatText(a / 1000) + "." + FractionText(a % 1000)) == Some(a)
  {
    var ip, fp := NatText(a / 1000), FractionText(a % 1000);
    var s := ip + "." + fp;
    assert s[..|s| - 4] == ip;
    assert s[|s| - 3..] == fp;
    NatTextValue(a / 1000);
    FractionTextValue(a % 1000);
  }

  /** ParseDecimal inverts DecimalText. */
  lemma DecimalRoundTrip(m: int)
    ensures ParseDecimal(DecimalText(m)) == Some(m)
  {
    var a := if m < 0 then -m else m;
    var u := NatText(a / 1000) + "." + FractionText(a % 1000);
    assert DecimalText(m) == if m < 0 then "-" + u else u;
    assert u[0] != '-' by { assert u[0] == NatText(a / 1000)[0]; }
    hide *;
    UnsignedRoundTrip(a);
    SignedText(u, a);
  }

  /** An unsigned text that does not start with a minus sign reads the same with and without one in front. */
  lemma SignedText(u: string, a: int)
    requires ParseUnsigned(u) == Some(a) && u[0] != '-'
    ensures ParseDecimal(u) == Some(a)
    ensures ParseDecimal("-" + u) == Some(-a)
  {
    assert ("-" + u)[1..] == u;
  }
}
