/** Bit masks as arithmetic.

The ring indexes its storage with `pos & mask` and rounds sizes with
`(n + align - 1) & !(align - 1)`. Those expressions are modelled here bit by
bit, on naturals, and shown equal to a remainder and to rounding up.
`Off` is a remainder computed by repeated subtraction: it keeps the proofs
about ring positions free of division by a variable. */
module Bits {

  const U64 := 0x1_0000_0000_0000_0000

  function Pow2(k: nat): (p: nat)
    ensures p >= 1
  {
    if k == 0 then 1 else 2 * Pow2(k - 1)
  }

  /** Bitwise `x & y`. */
  function And(x: nat, y: nat): nat
    decreases x
  {
    if x == 0 || y == 0 then 0
    else 2 * And(x / 2, y / 2) + (if x % 2 == 1 && y % 2 == 1 then 1 else 0)
  }

  /** Bitwise `x | y`. */
  function Or(x: nat, y: nat): nat
    decreases x + y
  {
    if x == 0 then y
    else if y == 0 then x
    else 2 * Or(x / 2, y / 2) + (if x % 2 == 1 || y % 2 == 1 then 1 else 0)
  }

  /** The remainder of `p` by `m`, by repeated subtraction. */
  function Off(m: nat, p: nat): (r: nat)
    requires m > 0
    ensures r < m
    ensures r <= p
    decreases p
  {
    if p < m then p else Off(m, p - m)
  }

  lemma {:induction false} OffIsRemainder(m: nat, p: nat)
    requires m > 0
    ensures Off(m, p) == p % m
    decreases p
  {
    if p >= m {
      OffIsRemainder(m, p - m);
      RemainderStep(m, p);
    }
  }

  lemma RemainderStep(m: nat, p: nat)
    requires 0 < m <= p
    ensures p % m == (p - m) % m
  {
    var q, r := (p - m) / m, (p - m) % m;
    assert p - m == q * m + r;
    assert (q + 1) * m == q * m + m;
    RemainderUnique(m, p, q + 1, r);
  }

  lemma RemainderUnique(m: nat, p: nat, q: nat, r: nat)
    requires m > 0 && r < m && p == q * m + r
    ensures p % m == r && p / m == q
  {
    var q', r' := p / m, p % m;
    assert p == q' * m + r';
    assert q == q' by {
      if q > q' { TimesMonotone(q' + 1, q, m); }
      if q < q' { TimesMonotone(q + 1, q', m); }
    }
  }

  lemma TimesMonotone(a: int, b: int, m: nat)
    requires a <= b
    ensures a * m <= b * m
    ensures a * m == (a - 1) * m + m && b * m == (b - 1) * m + m
  {
    assert (b - a) * m >= 0;
  }

  /** Stepping `n` further within the current lap moves the offset by `n`. */
  lemma {:induction false} OffWithinLap(m: nat, p: nat, n: nat)
    requires m > 0 && Off(m, p) + n < m
    ensures Off(m, p + n) == Off(m, p) + n
    decreases p
  {
    if p >= m {
      OffWithinLap(m, p - m, n);
      assert p - m + n == p + n - m;
    }
  }

  /** Stepping exactly to the end of the lap wraps to offset 0. */
  lemma {:induction false} OffEndOfLap(m: nat, p: nat, n: nat)
    requires m > 0 && Off(m, p) + n == m
    ensures Off(m, p + n) == 0
    decreases p
  {
    if p >= m {
      OffEndOfLap(m, p - m, n);
      assert p - m + n == p + n - m;
    }
  }

  /** Two positions less than one lap apart have different offsets. */
  lemma {:induction false} OffDistinct(m: nat, p: nat, q: nat)
    requires m > 0 && p < q < p + m
    ensures Off(m, p) != Off(m, q)
    decreases p
  {
    if p >= m {
      OffDistinct(m, p - m, q - m);
    }
  }

  /** Sums of multiples of `a` are multiples of `a`. */
  lemma {:induction false} OffMultiplesAdd(a: nat, p: nat, q: nat)
    requires a > 0 && Off(a, p) == 0
    ensures Off(a, p + q) == Off(a, q)
    decreases p
  {
    if p >= a {
      OffMultiplesAdd(a, p - a, q);
      assert p - a + q == p + q - a;
    }
  }

  /** If `a` divides both the lap and a position, it divides the offset. */
  lemma {:induction false} OffKeepsMultiples(a: nat, m: nat, p: nat)
    requires a > 0 && m > 0 && Off(a, m) == 0 && Off(a, p) == 0
    ensures Off(a, Off(m, p)) == 0
    decreases p
  {
    if p >= m {
      OffMultiplesAdd(a, m, p - m);
      OffKeepsMultiples(a, m, p - m);
    }
  }

  /** Multiples of `a` that differ, differ by at least `a`. */
  lemma {:induction false} MultiplesGap(a: nat, p: nat, q: nat)
    requires a > 0 && Off(a, p) == 0 && Off(a, q) == 0 && p < q
    ensures p + a <= q
    decreases p
  {
    if p >= a { MultiplesGap(a, p - a, q - a); }
  }

  lemma {:induction false} Pow2Multiple(j: nat, k: nat)
    requires j <= k
    ensures Off(Pow2(j), Pow2(k)) == 0
    decreases k
  {
    if j < k {
      Pow2Multiple(j, k - 1);
      OffMultiplesAdd(Pow2(j), Pow2(k - 1), Pow2(k - 1));
    }
  }

  /** `x & (2^k - 1)` is the remainder by `2^k`. */
  lemma {:induction false} AndLowMask(x: nat, k: nat)
    ensures And(x, Pow2(k) - 1) == Off(Pow2(k), x)
    decreases k
  {
    OffIsRemainder(Pow2(k), x);
    if k > 0 && x > 0 {
      var h := Pow2(k - 1);
      AndLowMask(x / 2, k - 1);
      OffIsRemainder(h, x / 2);
      assert (Pow2(k) - 1) / 2 == h - 1 && (Pow2(k) - 1) % 2 == 1;
      HalfRemainder(x, h);
    }
  }

  lemma HalfRemainder(x: nat, h: nat)
    requires h > 0
    ensures x % (2 * h) == 2 * (x / 2 % h) + x % 2
  {
    var q, r := x / 2 / h, x / 2 % h;
    assert x / 2 == q * h + r;
    assert x == q * (2 * h) + (2 * r + x % 2);
    RemainderUnique(2 * h, x, q, 2 * r + x % 2);
  }

  /** `x & !(2^k - 1)` on `n`-bit words clears the low `k` bits. */
  lemma {:induction false} AndHighMask(x: nat, n: nat, k: nat)
    requires k <= n && x < Pow2(n)
    ensures Pow2(k) <= Pow2(n)
    ensures And(x, Pow2(n) - Pow2(k)) == x - Off(Pow2(k), x)
    decreases n
  {
    if k == 0 {
      AndLowMask(x, n);
      assert Off(Pow2(n), x) == x;
      assert Off(1, x) == 0;
    } else {
      var hn, hk := Pow2(n - 1), Pow2(k - 1);
      AndHighMask(x / 2, n - 1, k - 1);
      OffIsRemainder(hk, x / 2);
      OffIsRemainder(2 * hk, x);
      HalfRemainder(x, hk);
      assert (Pow2(n) - Pow2(k)) / 2 == hn - hk;
    }
  }

  /** `x << k`, on words wide enough to hold it. */
  function Shl(x: nat, k: nat): nat {
    if k == 0 then x else 2 * Shl(x, k - 1)
  }

  lemma {:induction false} ShlIsTimes(x: nat, k: nat, p: nat)
    requires p == Pow2(k)
    ensures Shl(x, k) == x * p
    decreases k
  {
    if k > 0 {
      ShlIsTimes(x, k - 1, p / 2);
      assert x * p == 2 * (x * (p / 2));
    }
  }

  /** Fields packed into disjoint bit ranges: `|` is `+`. */
  lemma {:induction false} OrDisjoint(x: nat, y: nat, k: nat)
    requires x < Pow2(k)
    ensures Or(x, Shl(y, k)) == x + Shl(y, k)
    decreases k
  {
    if k > 0 && x > 0 && Shl(y, k) > 0 { OrDisjoint(x / 2, y, k - 1); }
  }
}
