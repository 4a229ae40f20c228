/** Decimal digits: printing natural numbers without leading zeros and reading them back. */
module Digits {

  predicate IsDigit(c: char) {
    '0' <= c <= '9'
  }

  predicate AllDigits(s: string) {
    forall i | 0 <= i < |s| :: IsDigit(s[i])
  }

  function DigitChar(d: int): (c: char)
    requires 0 <= d < 10
    ensures IsDigit(c) && DigitValue(c) == d
  {
    '0' + d as char
  }

  function DigitValue(c: char): (d: int)
    requires IsDigit(c)
    ensures 0 <= d < 10
  {
    c as int - '0' as int
  }

  /** `String(n)`, `n.toString()` and template interpolation of a natural number. */
  function NatToString(n: nat): (s: string)
    ensures s != "" && AllDigits(s)
  {
    if n < 10 then [DigitChar(n)] else NatToString(n / 10) + [DigitChar(n % 10)]
  }

  function StringToNat(s: string): nat
    requires AllDigits(s)
  {
    if s == "" then 0 else 10 * StringToNat(s[..|s| - 1]) + DigitValue(s[|s| - 1])
  }

  lemma {:induction false} NatRoundTrip(n: nat)
    ensures StringToNat(NatToString(n)) == n
  {
    if n < 10 {
    } else {
      NatRoundTrip(n / 10);
      var s := NatToString(n);
      assert s[..|s| - 1] == NatToString(n / 10);
    }
  }

  /** Printed numbers that end a dash-separated name can be told apart from what precedes them. */
  lemma DashedNameInjective(a: string, m: nat, b: string, n: nat)
    requires a + "-" + NatToString(m) == b + "-" + NatToString(n)
    ensures a == b && m == n
  {
    var c, d := NatToString(m), NatToString(n);
    var s, t := a + "-" + c, b + "-" + d;
    assert s[|a|] == '-' && t[|b|] == '-';
    assert s[..|a|] == a && t[..|b|] == b;
    assert s[|a| + 1..] == c && t[|b| + 1..] == d;
    NatRoundTrip(m);
    NatRoundTrip(n);
  }
}
