/** Decimal text of natural numbers, as number streams print and read it. */
module Decimal {
  import opened Bytes

  predicate IsDigit(b: byte) {
    0x30 <= b <= 0x39
  }

  function DigitsOf(n: nat): (s: seq<byte>)
    ensures s != []
    ensures forall i :: 0 <= i < |s| ==> IsDigit(s[i])
  {
    if n < 10 then [0x30 + n] else DigitsOf(n / 10) + [0x30 + n % 10]
  }

  /** The number spelled by digits. */
  function NatOf(s: seq<byte>): nat
    requires forall i :: 0 <= i < |s| ==> IsDigit(s[i])
  {
    if s == [] then 0
    else
      var last: int := s[|s| - 1];
      assert IsDigit(last);
      NatOf(s[..|s| - 1]) * 10 + (last - 0x30)
  }

  lemma {:induction false} DigitsRoundTrip(n: nat)
    ensures NatOf(DigitsOf(n)) == n
  {
    if n < 10 {
      assert DigitsOf(n)[..0] == [];
    } else {
      DigitsRoundTrip(n / 10);
      assert DigitsOf(n)[..|DigitsOf(n)| - 1] == DigitsOf(n / 10);
    }
  }

  /** No leading zero, except for zero itself. */
  lemma {:induction false} DigitsLead(n: nat)
    ensures n == 0 ==> DigitsOf(n) == [0x30]
    ensures n > 0 ==> DigitsOf(n)[0] != 0x30
  {
    if n < 10 {
    } else {
      DigitsLead(n / 10);
    }
  }

  lemma DigitsInjective(m: nat, n: nat)
    requires DigitsOf(m) == DigitsOf(n)
    ensures m == n
  {
    DigitsRoundTrip(m);
    DigitsRoundTrip(n);
  }
}
