/**
 * Decimal rendering of a natural number, as Python's `'{}'.format(n)` writes
 * an `int`, together with its inverse (reading a run of digits back).
 */
module Decimal {

  predicate IsDigit(c: char) {
    '0' <= c <= '9'
  }

  predicate AllDigits(s: string) {
    forall i :: 0 <= i < |s| ==> IsDigit(s[i])
  }

  function DigitChar(d: nat): (c: char)
    requires d < 10
    ensures IsDigit(c) && DigitValue(c) == d
  {
    ('0' as int + d) as char
  }

  function DigitValue(c: char): (d: nat)
    requires IsDigit(c)
    ensures d < 10
  {
    c as int - '0' as int
  }

  /** The shortest decimal numeral of `n`: digits only, no leading zero. */
  function DecimalString(n: nat): (s: string)
    ensures |s| > 0 && AllDigits(s)
    ensures n > 0 ==> s[0] != '0'
    ensures n == 0 ==> s == "0"
  {
    if n < 10 then [DigitChar(n)] else DecimalString(n / 10) + [DigitChar(n % 10)]
  }

  /** The number a string of digits denotes (most significant digit first). */
  function DecimalValue(s: string): nat
    requires AllDigits(s)
  {
    if s == [] then 0 else DecimalValue(s[..|s| - 1]) * 10 + DigitValue(s[|s| - 1])
  }

  /** Reading a numeral back gives the number it was written from. */
  lemma {:induction false} DecimalRoundTrip(n: nat)
    ensures DecimalValue(DecimalString(n)) == n
  {
    var s := DecimalString(n);
    if n >= 10 {
      assert s[..|s| - 1] == DecimalString(n / 10);
      DecimalRoundTrip(n / 10);
    }
  }

  /**
   * Conversely, a numeral with no leading zero is exactly what
   * `DecimalString` prints for the (positive) number it denotes.
   */
  lemma {:induction false} CanonicalDecimal(d: string)
    requires d != [] && AllDigits(d) && d[0] != '0'
    ensures DecimalValue(d) > 0 && DecimalString(DecimalValue(d)) == d
    decreases |d|
  {
    var n := DecimalValue(d);
    var init := d[..|d| - 1];
    var last := DigitValue(d[|d| - 1]);
    assert DigitChar(last) == d[|d| - 1];
    if |d| == 1 {
      assert init == [];
    } else {
      assert init[0] == d[0];
      CanonicalDecimal(init);
      var m := DecimalValue(init);
      assert n == m * 10 + last;
      assert n / 10 == m && n % 10 == last;
      assert d == init + [d[|d| - 1]];
    }
  }

  /** The length of the longest prefix of `s` made of digits. */
  function DigitCount(s: string): (k: nat)
    ensures k <= |s| && AllDigits(s[..k])
    ensures k < |s| ==> !IsDigit(s[k])
  {
    if s == [] || !IsDigit(s[0]) then 0 else 1 + DigitCount(s[1..])
  }

  /** A run of digits followed by a non-digit is read up to the non-digit. */
  lemma {:induction false} DigitCountStopsAt(d: string, t: string)
    requires AllDigits(d)
    requires t != [] && !IsDigit(t[0])
    ensures DigitCount(d + t) == |d|
  {
    if d != [] {
      assert (d + t)[1..] == d[1..] + t;
      DigitCountStopsAt(d[1..], t);
    }
  }
}
