/**
 * Decimal rendering of integers, as Python's f-strings print them inside
 * the generated instructions (`li $v0, -3`, `sw $v0, -8($fp)`, `else_12`).
 */
module Numerals {
  function Digit(d: nat): (c: char)
    requires d < 10
    ensures '0' <= c <= '9'
  {
    "0123456789"[d]
  }

  function DigitValue(c: char): (d: nat)
    requires '0' <= c <= '9'
    ensures d < 10 && Digit(d) == c
  {
    var d := (c as int) - ('0' as int);
    assert "0123456789"[d] == c;
    d
  }

  predicate AllDigits(s: string)
  {
    forall i | 0 <= i < |s| :: '0' <= s[i] <= '9'
  }

  /** Decimal digits of `n`, most significant first, no leading zero. */
  function NatToString(n: nat): (s: string)
    ensures |s| > 0 && AllDigits(s)
    ensures |s| > 1 ==> s[0] != '0'
    ensures n < 10 <==> |s| == 1
  {
    if n < 10 then [Digit(n)] else NatToString(n / 10) + [Digit(n % 10)]
  }

  /** The value a digit string denotes. */
  function ValueOf(s: string): nat
    requires AllDigits(s)
  {
    if s == [] then 0 else 10 * ValueOf(s[..|s| - 1]) + DigitValue(s[|s| - 1])
  }

  /** Reading back the rendering gives the number. */
  lemma {:induction false} NatToStringRoundTrip(n: nat)
    ensures ValueOf(NatToString(n)) == n
  {
    if n < 10 {
      ValueOfSnoc([], Digit(n));
      DigitValueOfDigit(n);
      assert NatToString(n) == [] + [Digit(n)];
    } else {
      var q, r := n / 10, n % 10;
      NatToStringRoundTrip(q);
      ValueOfSnoc(NatToString(q), Digit(r));
      DigitValueOfDigit(r);
      assert NatToString(n) == NatToString(q) + [Digit(r)];
      assert n == 10 * q + r;
    }
  }

  /** Reading a rendered digit gives it back. */
  lemma DigitValueOfDigit(d: nat)
    requires d < 10
    ensures DigitValue(Digit(d)) == d
  {
  }

  /** One more digit at the end multiplies the value by ten and adds the digit. */
  lemma ValueOfSnoc(p: string, c: char)
    requires AllDigits(p) && '0' <= c <= '9'
    ensures AllDigits(p + [c]) && ValueOf(p + [c]) == 10 * ValueOf(p) + DigitValue(c)
  {
    var s := p + [c];
    assert s[..|s| - 1] == p;
  }

  /** Distinct numbers render differently. */
  lemma NatToStringInjective(a: nat, b: nat)
    requires NatToString(a) == NatToString(b)
    ensures a == b
  {
    NatToStringRoundTrip(a);
    NatToStringRoundTrip(b);
  }

  /** `str(i)`: a minus sign before the digits of a negative number. */
  function IntToString(i: int): (s: string)
    ensures |s| > 0
    ensures i < 0 <==> s[0] == '-'
    ensures i >= 0 ==> s == NatToString(i)
    ensures i < 0 ==> s[1..] == NatToString(-i)
  {
    if i < 0 then "-" + NatToString(-i) else NatToString(i)
  }

  lemma IntToStringInjective(a: int, b: int)
    requires IntToString(a) == IntToString(b)
    ensures a == b
  {
    if a < 0 {
      NatToStringInjective(-a, -b);
    } else {
      NatToStringInjective(a, b);
    }
  }
}
