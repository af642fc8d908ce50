/** Decimal digits: reading them, writing them, and the facts that make a printed
    number an unambiguous name. */
module Decimals {

  predicate IsDigit(c: char) {
    '0' <= c <= '9'
  }

  predicate AllDigits(s: string) {
    forall i :: 0 <= i < |s| ==> IsDigit(s[i])
  }

  function DigitOf(n: nat): (c: char)
    requires n < 10
    ensures IsDigit(c) && c as int - '0' as int == n
  {
    ('0' as int + n) as char
  }

  function Pow10(n: nat): (r: nat)
    ensures r > 0
  {
    if n == 0 then 1 else 10 * Pow10(n - 1)
  }

  /** The number a digit string denotes. */
  function DecimalValue(s: string): nat
    requires AllDigits(s)
  {
    if s == "" then 0
    else DecimalValue(s[..|s| - 1]) * 10 + (s[|s| - 1] as int - '0' as int)
  }

  /** `n` in exactly `width` digits, the low ones if it needs more. */
  function Padded(n: nat, width: nat): (s: string)
    ensures |s| == width && AllDigits(s)
  {
    if width == 0 then "" else Padded(n / 10, width - 1) + [DigitOf(n % 10)]
  }

  /** `n` with no leading zeros, as `to_string` prints it. */
  function ToDecimal(n: nat): (s: string)
    ensures s != "" && AllDigits(s)
  {
    if n < 10 then [DigitOf(n)] else ToDecimal(n / 10) + [DigitOf(n % 10)]
  }

  lemma {:induction false} DecimalBound(s: string)
    requires AllDigits(s)
    ensures DecimalValue(s) < Pow10(|s|)
  {
    if s != "" {
      DecimalBound(s[..|s| - 1]);
    }
  }

  lemma Rescale(v: nat, p: nat)
    ensures v * (10 * p) == v * p * 10
  {
  }

  lemma {:induction false} DecimalConcat(a: string, b: string)
    requires AllDigits(a) && AllDigits(b)
    ensures AllDigits(a + b)
    ensures DecimalValue(a + b) == DecimalValue(a) * Pow10(|b|) + DecimalValue(b)
  {
    if b == "" {
      assert a + b == a;
    } else {
      var front := b[..|b| - 1];
      DecimalConcat(a, front);
      assert (a + b)[..|a + b| - 1] == a + front;
      Rescale(DecimalValue(a), Pow10(|front|));
    }
  }

  /** Reading back a padded number. */
  lemma {:induction false} PaddedReads(n: nat, width: nat)
    requires n < Pow10(width)
    ensures DecimalValue(Padded(n, width)) == n
  {
    if width > 0 {
      PaddedReads(n / 10, width - 1);
      assert Padded(n, width)[..width - 1] == Padded(n / 10, width - 1);
    }
  }

  /** Writing back a digit string of any width gives the same characters. */
  lemma {:induction false} PaddedWrites(s: string)
    requires AllDigits(s)
    ensures Padded(DecimalValue(s), |s|) == s
  {
    if s != "" {
      PaddedWrites(s[..|s| - 1]);
      assert s == s[..|s| - 1] + [s[|s| - 1]];
    }
  }

  lemma {:induction false} ToDecimalReads(n: nat)
    ensures DecimalValue(ToDecimal(n)) == n
  {
    if n >= 10 {
      ToDecimalReads(n / 10);
      assert ToDecimal(n)[..|ToDecimal(n)| - 1] == ToDecimal(n / 10);
    } else {
      assert DecimalValue([DigitOf(n)]) == DecimalValue([]) * 10 + n;
    }
  }

  /** Different numbers have different decimal names. */
  lemma ToDecimalInjective(m: nat, n: nat)
    requires ToDecimal(m) == ToDecimal(n)
    ensures m == n
  {
    ToDecimalReads(m);
    ToDecimalReads(n);
  }
}
