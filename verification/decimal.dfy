/** Decimal spelling of natural numbers: Python's `str(n)` for `n >= 0`, and
    Python's `int(s)` restricted to strings made only of ASCII digits. */
module Decimal {

  predicate IsDigit(c: char) {
    '0' <= c <= '9'
  }

  predicate AllDigits(s: string) {
    forall i :: 0 <= i < |s| ==> IsDigit(s[i])
  }

  function DigitValue(c: char): (v: nat)
    requires IsDigit(c)
    ensures v < 10
  {
    c as int - '0' as int
  }

  function DigitChar(d: nat): (c: char)
    requires d < 10
    ensures IsDigit(c) && DigitValue(c) == d
  {
    ('0' as int + d) as char
  }

  /** The shortest decimal spelling of `n`, as Python's `str` produces it. */
  function FromNat(n: nat): (s: string)
    ensures 1 <= |s| && AllDigits(s)
    ensures s[0] == '0' <==> n == 0
    decreases n
  {
    if n < 10 then [DigitChar(n)] else FromNat(n / 10) + [DigitChar(n % 10)]
  }

  /** `10` to the power `n`. */
  function Pow10(n: nat): (p: nat)
    ensures p >= 1
  {
    if n == 0 then 1 else 10 * Pow10(n - 1)
  }

  /** The value of a non-empty digit string, as Python's `int` reads it
      (leading zeros allowed; the empty string is refused). */
  function ToNat(s: string): (n: nat)
    requires 1 <= |s| && AllDigits(s)
    ensures n < Pow10(|s|)
    ensures s[0] != '0' ==> Pow10(|s| - 1) <= n
    decreases |s|
  {
    if |s| == 1 then DigitValue(s[0])
    else 10 * ToNat(s[..|s| - 1]) + DigitValue(s[|s| - 1])
  }

  /** A spelling `FromNat` can produce: no leading zero unless it is "0". */
  predicate Canonical(s: string) {
    1 <= |s| && AllDigits(s) && (|s| > 1 ==> s[0] != '0')
  }

  /** `int(str(n)) == n`. */
  lemma {:induction false} ToNatFromNat(n: nat)
    ensures ToNat(FromNat(n)) == n
    decreases n
  {
    if n >= 10 {
      var p := FromNat(n / 10);
      var s := FromNat(n);
      assert s[..|s| - 1] == p;
      ToNatFromNat(n / 10);
    }
  }

  /** `str(int(s)) == s` for every canonical spelling: the two conversions are
      inverse bijections between naturals and canonical digit strings. */
  lemma {:induction false} FromNatToNat(s: string)
    requires Canonical(s)
    ensures FromNat(ToNat(s)) == s
    decreases |s|
  {
    if |s| > 1 {
      var p := s[..|s| - 1];
      var d := DigitValue(s[|s| - 1]);
      assert Canonical(p);
      FromNatToNat(p);
      var n := ToNat(s);
      assert n == 10 * ToNat(p) + d;
      assert n / 10 == ToNat(p) && n % 10 == d;
      assert DigitChar(d) == s[|s| - 1];
      assert s == p + [s[|s| - 1]];
    }
  }

  /** A leading `'0'` does not change the value `int` reads. */
  lemma {:induction false} ToNatLeadingZero(s: string)
    requires 1 <= |s| && AllDigits(s)
    ensures AllDigits(['0'] + s) && ToNat(['0'] + s) == ToNat(s)
    decreases |s|
  {
    var z := ['0'] + s;
    if |s| == 1 {
      assert z[..1] == ['0'];
    } else {
      assert z[..|z| - 1] == ['0'] + s[..|s| - 1];
      ToNatLeadingZero(s[..|s| - 1]);
    }
  }

  /** A two-character field such as `HH` reads as tens and units. */
  lemma ToNatTwoDigits(s: string)
    requires |s| == 2 && AllDigits(s)
    ensures ToNat(s) == 10 * DigitValue(s[0]) + DigitValue(s[1])
  {
    assert s[..1] == [s[0]];
  }
}
