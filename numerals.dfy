/**
  How a JavaScript template literal writes an integer: its decimal digits,
  with a leading `-` when negative.
 */
module Numerals {

  predicate IsDigit(c: char) {
    '0' <= c <= '9'
  }

  function DigitChar(d: nat): (c: char)
    requires d < 10
    ensures IsDigit(c)
  {
    ('0' as int + d) as char
  }

  function DigitValue(c: char): (d: nat)
    requires IsDigit(c)
    ensures d < 10 && DigitChar(d) == c
  {
    c as int - '0' as int
  }

  /** The decimal digits of n, most significant first, with no leading zero. */
  function Digits(n: nat): (s: string)
    ensures |s| >= 1
    ensures forall i | 0 <= i < |s| :: IsDigit(s[i])
    ensures s[0] == '0' ==> n == 0
    decreases n
  {
    if n < 10 then [DigitChar(n)] else Digits(n / 10) + [DigitChar(n % 10)]
  }

  /** `${n}` for an integer n (below 10^21 in magnitude, where JavaScript would switch to exponent notation). */
  function Decimal(n: int): (s: string)
    ensures |s| >= 1 && (s[0] == '-' || IsDigit(s[0]))
  {
    if n < 0 then "-" + Digits(-n) else Digits(n)
  }

  /** Reads a string of decimal digits back as a number. */
  function ParseDigits(s: string): nat
    requires forall i | 0 <= i < |s| :: IsDigit(s[i])
    decreases |s|
  {
    if s == [] then 0 else ParseDigits(s[..|s| - 1]) * 10 + DigitValue(s[|s| - 1])
  }

  /** Digits loses nothing: reading the digits back gives the number. */
  lemma {:induction false} DigitsRoundTrip(n: nat)
    ensures ParseDigits(Digits(n)) == n
    decreases n
  {
    var s := Digits(n);
    if n >= 10 {
      DigitsRoundTrip(n / 10);
      assert s[..|s| - 1] == Digits(n / 10);
      assert DigitValue(s[|s| - 1]) == n % 10;
    }
  }

  function Pow10(k: nat): (p: nat)
    ensures p >= 1
  {
    if k == 0 then 1 else 10 * Pow10(k - 1)
  }

  lemma {:induction false} Pow10Monotone(j: nat, k: nat)
    requires j <= k
    ensures Pow10(j) <= Pow10(k)
    decreases k
  {
    if j < k {
      Pow10Monotone(j, k - 1);
    }
  }

  /** n has exactly k digits iff 10^(k-1) <= n < 10^k (for k >= 2; one digit below 10). */
  lemma {:induction false} DigitsCount(n: nat)
    ensures n < Pow10(|Digits(n)|)
    ensures n >= 10 ==> Pow10(|Digits(n)| - 1) <= n
    decreases n
  {
    if n >= 10 {
      DigitsCount(n / 10);
      var m := |Digits(n / 10)|;
      assert |Digits(n)| == m + 1;
      if n / 10 >= 10 {
        assert Pow10(m - 1) <= n / 10;
      }
    }
  }

  /** Every integer from 10000 to 99999 is written with exactly five digits. */
  lemma FiveDigits(n: nat)
    requires 10000 <= n <= 99999
    ensures |Digits(n)| == 5
  {
    DigitsCount(n);
    var k := |Digits(n)|;
    assert Pow10(4) == 10000 && Pow10(5) == 100000;
    if k < 5 {
      Pow10Monotone(k, 4);
    } else if k > 5 {
      Pow10Monotone(5, k - 1);
    }
  }

  /** Every integer from 1 to 200 is written with one to three digits, the first not zero. */
  lemma AtMostThreeDigits(n: nat)
    requires 1 <= n <= 200
    ensures 1 <= |Digits(n)| <= 3 && Digits(n)[0] != '0'
  {
    DigitsCount(n);
    var k := |Digits(n)|;
    assert Pow10(3) == 1000;
    if k > 3 {
      Pow10Monotone(3, k - 1);
    }
  }
}
