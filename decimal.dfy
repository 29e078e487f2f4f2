/** Decimal text of non-negative integers, as Python's built-in str() writes it.
    The game turns grid indices into the strings its selection lists show and later
    compares those strings, so the model needs str() and a way to read a value back. */
module Decimal {

  predicate IsDigit(c: char) {
    '0' <= c <= '9'
  }

  predicate AllDigits(s: string) {
    forall i :: 0 <= i < |s| ==> IsDigit(s[i])
  }

  function DigitChar(d: nat): (c: char)
    requires d < 10
    ensures IsDigit(c) && DigitValue(c) == d
  {
    (48 + d) as char
  }

  function DigitValue(c: char): (d: nat)
    requires IsDigit(c)
    ensures d < 10
  {
    c as int - '0' as int
  }

  /** str(k): the decimal digits of k, most significant first, with no leading zero. */
  function NatToString(k: nat): (s: string)
    ensures |s| >= 1 && AllDigits(s)
    ensures s[0] == '0' <==> k == 0
    decreases k
  {
    if k < 10 then [DigitChar(k)] else NatToString(k / 10) + [DigitChar(k % 10)]
  }

  /** The number a string of digits denotes. */
  function Value(s: string): nat
    requires AllDigits(s)
  {
    if s == [] then 0 else 10 * Value(s[..|s| - 1]) + DigitValue(s[|s| - 1])
  }

  /** Reading str(k) back gives k. */
  lemma {:induction false} ValueOfNatToString(k: nat)
    ensures Value(NatToString(k)) == k
    decreases k
  {
    if k >= 10 {
      ValueOfNatToString(k / 10);
      var s := NatToString(k);
      assert s[..|s| - 1] == NatToString(k / 10);
    }
  }

  /** Two numbers have the same text exactly when they are equal. */
  lemma NatToStringInjective(a: nat, b: nat)
    ensures NatToString(a) == NatToString(b) <==> a == b
  {
    if NatToString(a) == NatToString(b) {
      ValueOfNatToString(a);
      ValueOfNatToString(b);
    }
  }
}
