/** Decimal rendering of the integers that appear in the gradient text:
    angles, stop positions, colour channels and opacities. */
module Numerals {

  function DigitChar(d: nat): (c: char)
    requires d < 10
    ensures '0' <= c <= '9'
  {
    "0123456789"[d]
  }

  predicate IsDecimalDigit(c: char) { '0' <= c <= '9' }

  function DigitValue(c: char): (d: nat)
    requires IsDecimalDigit(c)
    ensures d < 10
  {
    (c as int - '0' as int) as nat
  }

  /** How JavaScript writes a non-negative integer: its shortest decimal form. */
  function NatToString(n: nat): (s: string)
    ensures |s| >= 1
    ensures forall i :: 0 <= i < |s| ==> IsDecimalDigit(s[i])
    ensures s[0] == '0' ==> n == 0
    decreases n
  {
    if n < 10 then [DigitChar(n)] else NatToString(n / 10) + [DigitChar(n % 10)]
  }

  /** How JavaScript writes an integer-valued number (a minus sign for negatives). */
  function IntToString(n: int): (s: string)
    ensures |s| >= 1
    ensures s[0] == '-' <==> n < 0
  {
    if n < 0 then "-" + NatToString(-n) else NatToString(n)
  }

  /** The value of a string of decimal digits; the inverse of NatToString. */
  function ParseNat(s: string): nat
    requires forall i :: 0 <= i < |s| ==> IsDecimalDigit(s[i])
    decreases |s|
  {
    if s == [] then 0 else ParseNat(s[..|s| - 1]) * 10 + DigitValue(s[|s| - 1])
  }

  lemma DigitRoundTrip(d: nat)
    requires d < 10
    ensures DigitValue(DigitChar(d)) == d
  {
  }

  /** Rendering a position or angle loses nothing: it reads back as the same number. */
  lemma {:induction false} NatToStringRoundTrip(n: nat)
    ensures ParseNat(NatToString(n)) == n
    decreases n
  {
    var s := NatToString(n);
    if n < 10 {
      DigitRoundTrip(n);
    } else {
      NatToStringRoundTrip(n / 10);
      DigitRoundTrip(n % 10);
      assert s[..|s| - 1] == NatToString(n / 10);
    }
  }

  /** Two different integers never render to the same text. */
  lemma IntToStringInjective(a: int, b: int)
    requires IntToString(a) == IntToString(b)
    ensures a == b
  {
    var t := IntToString(a);
    if a < 0 {
      assert t[0] == '-';
      assert b < 0;
      var na, nb := -a, -b;
      assert t[1..] == NatToString(na) && t[1..] == NatToString(nb);
      NatToStringRoundTrip(na);
      NatToStringRoundTrip(nb);
      assert na == ParseNat(t[1..]) == nb;
    } else {
      assert b >= 0;
      NatToStringRoundTrip(a);
      NatToStringRoundTrip(b);
      assert a == ParseNat(t) == b;
    }
  }

  /** Decimal text is made of digits and at most a leading minus sign. */
  lemma IntToStringAlphabet(n: int)
    ensures forall i :: 0 <= i < |IntToString(n)| ==>
      IntToString(n)[i] == '-' || IsDecimalDigit(IntToString(n)[i])
  {
  }
}
