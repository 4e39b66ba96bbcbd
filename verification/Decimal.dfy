/** Decimal digits, as timestamps write them and format specs read them. */
module Decimal {
  import opened Layout

  const ZERO := 48

  function Pow10(n: nat): (p: nat)
    ensures p >= 1
  {
    if n == 0 then 1 else 10 * Pow10(n - 1)
  }

  /** The last `n` decimal digits of `v`. */
  function Digits(v: nat, n: nat): (s: seq<Byte>)
    ensures |s| == n
  {
    if n == 0 then [] else Digits(v / 10, n - 1) + [ZERO + v % 10]
  }

  function Number(s: seq<Byte>): int {
    if s == [] then 0 else 10 * Number(s[..|s| - 1]) + (s[|s| - 1] as int - ZERO)
  }

  lemma {:induction false} DigitsRoundTrip(v: nat, n: nat)
    requires v < Pow10(n)
    ensures Number(Digits(v, n)) == v
    decreases n
  {
    if n > 0 {
      DigitsRoundTrip(v / 10, n - 1);
      assert Digits(v, n)[..n - 1] == Digits(v / 10, n - 1);
    }
  }

  lemma {:induction false} DigitsAreNumerals(v: nat, n: nat)
    ensures forall k | 0 <= k < n :: 48 <= Digits(v, n)[k] <= 57
    decreases n
  {
    if n > 0 { DigitsAreNumerals(v / 10, n - 1); }
  }

  /** Numerals are read in base ten, the last one counting once. */
  lemma NumberIs(s: seq<Byte>, c: Byte)
    ensures Number([]) == 0 && Number(s + [c]) == 10 * Number(s) + (c as int - 48)
  {
    assert (s + [c])[..|s|] == s;
  }
}
