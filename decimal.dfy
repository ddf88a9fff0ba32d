/**
 * JavaScript's conversion of an integer-valued number to a string when it is
 * concatenated with a string (`mins + "m, "`): plain decimal digits, a
 * leading `-` for a negative value, no leading zeros. `Value` reads the
 * digits back and is the partner that shows the rendering loses nothing.
 */
module Decimal {

  predicate IsDigit(c: char) {
    '0' <= c <= '9'
  }

  function DigitChar(d: int): (c: char)
    requires 0 <= d < 10
    ensures IsDigit(c)
    ensures c as int - '0' as int == d
  {
    ['0', '1', '2', '3', '4', '5', '6', '7', '8', '9'][d]
  }

  /** The decimal digits of a natural number, most significant first. */
  function NatToString(n: nat): (s: string)
    ensures |s| >= 1
    ensures forall i :: 0 <= i < |s| ==> IsDigit(s[i])
    ensures |s| > 1 ==> s[0] != '0'
  {
    if n < 10 then [DigitChar(n)] else NatToString(n / 10) + [DigitChar(n % 10)]
  }

  /** `String(i)` for an integer `i`. */
  function IntToString(i: int): (s: string)
    ensures |s| >= 1
    ensures i >= 0 ==> s == NatToString(i)
    ensures i < 0 ==> s == "-" + NatToString(-i)
  {
    if i < 0 then "-" + NatToString(-i) else NatToString(i)
  }

  /** A two-digit number renders as its tens digit followed by its units digit. */
  lemma {:induction false} TwoDigits(n: nat)
    requires 10 <= n < 100
    ensures NatToString(n) == [DigitChar(n / 10), DigitChar(n % 10)]
  {
    assert NatToString(n / 10) == [DigitChar(n / 10)];
  }

  /** The number a string of decimal digits denotes. */
  function Value(s: string): (v: nat)
    requires forall i :: 0 <= i < |s| ==> IsDigit(s[i])
  {
    if s == [] then 0
    else
      assert IsDigit(s[|s| - 1]);
      10 * Value(s[..|s| - 1]) + (s[|s| - 1] as int - '0' as int)
  }

  /** Reading back the digits of `NatToString(n)` gives `n`. */
  lemma {:induction false} ValueOfNatToString(n: nat)
    ensures Value(NatToString(n)) == n
  {
    var s := NatToString(n);
    if n >= 10 {
      ValueOfNatToString(n / 10);
      assert s[..|s| - 1] == NatToString(n / 10);
    }
  }

  /**
   * `String(i)` starts with `-` exactly when `i` is negative, and the digits
   * after any sign read back as the magnitude of `i`.
   */
  lemma {:induction false} IntToStringRoundTrip(i: int)
    ensures var s := IntToString(i);
      && (s[0] == '-' <==> i < 0)
      && var digits := if s[0] == '-' then s[1..] else s;
        && (forall k :: 0 <= k < |digits| ==> IsDigit(digits[k]))
        && Value(digits) == if i < 0 then -i else i
  {
    var n := if i < 0 then -i else i;
    var digits := NatToString(n);
    ValueOfNatToString(n);
    if i < 0 {
      assert ("-" + digits)[1..] == digits;
    }
  }

  /** Distinct numbers render differently, so a label determines the numbers in it. */
  lemma {:induction false} NatToStringInjective(m: nat, n: nat)
    requires NatToString(m) == NatToString(n)
    ensures m == n
  {
    ValueOfNatToString(m);
    ValueOfNatToString(n);
  }
}
