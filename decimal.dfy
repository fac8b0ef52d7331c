/**
 * Decimal text of integers, as PHP's `strval` (and string interpolation of an
 * int) writes them: no leading zeros, a leading '-' for negative numbers.
 * The parse in the other direction is what shows that nothing is lost.
 */
module Decimal {

  predicate IsDigit(c: char) {
    '0' <= c <= '9'
  }

  predicate AllDigits(s: string) {
    forall i :: 0 <= i < |s| ==> IsDigit(s[i])
  }

  function DigitChar(d: nat): (c: char)
    requires d < 10
    ensures IsDigit(c)
  {
    ('0' as int + d) as char
  }

  function DigitValue(c: char): (d: nat)
    requires IsDigit(c)
    ensures d < 10 && DigitChar(d) == c
  {
    c as int - '0' as int
  }

  function Pow10(k: nat): (p: nat)
    ensures p >= 1
  {
    if k == 0 then 1 else 10 * Pow10(k - 1)
  }

  lemma Pow10Values()
    ensures Pow10(2) == 100
    ensures Pow10(19) == 10000000000000000000
  {
    assert Pow10(1) == 10;
    assert Pow10(2) == 100;
    assert Pow10(3) == 1000;
    assert Pow10(4) == 10000;
    assert Pow10(5) == 100000;
    assert Pow10(6) == 1000000;
    assert Pow10(7) == 10000000;
    assert Pow10(8) == 100000000;
    assert Pow10(9) == 1000000000;
    assert Pow10(10) == 10000000000;
    assert Pow10(11) == 100000000000;
    assert Pow10(12) == 1000000000000;
    assert Pow10(13) == 10000000000000;
    assert Pow10(14) == 100000000000000;
    assert Pow10(15) == 1000000000000000;
    assert Pow10(16) == 10000000000000000;
    assert Pow10(17) == 100000000000000000;
    assert Pow10(18) == 1000000000000000000;
  }

  /** The decimal digits of n, most significant first; "0" for zero. */
  function NatToString(n: nat): (s: string)
    ensures |s| >= 1 && AllDigits(s)
    ensures |s| > 1 ==> s[0] != '0'
    decreases n
  {
    if n < 10 then [DigitChar(n)] else NatToString(n / 10) + [DigitChar(n % 10)]
  }

  /** The number a string of decimal digits denotes. */
  function ParseDigits(s: string): nat
    requires AllDigits(s)
  {
    if s == [] then 0 else 10 * ParseDigits(s[..|s| - 1]) + DigitValue(s[|s| - 1])
  }

  /** PHP's decimal text of an int. */
  function IntToString(i: int): (s: string)
    ensures |s| >= 1
    ensures i < 0 <==> s[0] == '-'
  {
    if i < 0 then "-" + NatToString(-i) else NatToString(i)
  }

  lemma {:induction false} ParseNatToString(n: nat)
    ensures ParseDigits(NatToString(n)) == n
    decreases n
  {
    var s := NatToString(n);
    if n >= 10 {
      assert s[..|s| - 1] == NatToString(n / 10);
      ParseNatToString(n / 10);
    }
  }

  lemma NatToStringInjective(a: nat, b: nat)
    requires NatToString(a) == NatToString(b)
    ensures a == b
  {
    ParseNatToString(a);
    ParseNatToString(b);
  }

  lemma IntToStringInjective(a: int, b: int)
    requires IntToString(a) == IntToString(b)
    ensures a == b
  {
    var s := IntToString(a);
    if a < 0 && b < 0 {
      assert s[1..] == NatToString(-a) == NatToString(-b);
      NatToStringInjective(-a, -b);
    } else if a >= 0 && b >= 0 {
      NatToStringInjective(a, b);
    }
  }

  /** A number below 10^k has at most k digits; one at or above 10^k has more. */
  lemma {:induction false} NatToStringLength(n: nat, k: nat)
    ensures n < Pow10(k) && k >= 1 ==> |NatToString(n)| <= k
    ensures n >= Pow10(k) ==> |NatToString(n)| > k
    decreases n
  {
    if n >= 10 {
      if k >= 1 {
        NatToStringLength(n / 10, k - 1);
      } else {
        NatToStringLength(n / 10, 0);
      }
    }
  }
}
