/** The byte layout shared by the producers and the drain: header constants,
little-endian words, slot rounding and the framing condition of a record. */
module Layout {
  import opened Bits

  type Byte = x: int | 0 <= x < 256
  type Record = seq<Byte>

  const VERSION: Byte := 2
  const LOG_RECORD: Byte := 1
  const END_OF_BUFFER: Byte := 2
  const HEADER_SIZE := 16
  const SITE_SECTION_SIZE := 8
  const COUNT_SIZE := 1
  const BASE_RECORD_SIZE := HEADER_SIZE + SITE_SECTION_SIZE + COUNT_SIZE
  const MAX_RECORD_SIZE := 65535

  lemma Assoc<T>(a: seq<T>, b: seq<T>, c: seq<T>)
    ensures a + (b + c) == (a + b) + c
  {
  }

  /** A word as its bytes. */
  function Ascii(s: string): (b: seq<Byte>)
    requires forall i | 0 <= i < |s| :: s[i] < 128 as char
    ensures |b| == |s| && forall i | 0 <= i < |s| :: b[i] == s[i] as int
  {
    seq(|s|, i requires 0 <= i < |s| => s[i] as int)
  }

  /** The first `n` little-endian bytes of `v`. Higher bytes are cut off, as a
  narrowing cast followed by `to_le_bytes` does. */
  function LeBytes(v: nat, n: nat): (b: seq<Byte>)
    ensures |b| == n
  {
    if n == 0 then [] else [v % 256] + LeBytes(v / 256, n - 1)
  }

  /** `from_le_bytes`. */
  function LeValue(b: seq<Byte>): nat {
    if b == [] then 0 else b[0] + 256 * LeValue(b[1..])
  }

  function Pow256(n: nat): (p: nat)
    ensures p >= 1
  {
    if n == 0 then 1 else 256 * Pow256(n - 1)
  }

  /** Reading back a word that fits its width gives the word. */
  lemma {:induction false} LeRoundTrip(v: nat, n: nat)
    requires v < Pow256(n)
    ensures LeValue(LeBytes(v, n)) == v
    decreases n
  {
    if n > 0 {
      LeRoundTrip(v / 256, n - 1);
      assert LeBytes(v, n)[1..] == LeBytes(v / 256, n - 1);
    }
  }

  /** `n` rounded up to a multiple of `a`. */
  function RoundUp(n: nat, a: nat): (r: nat)
    requires a > 0
    ensures n <= r < n + a && Off(a, r) == 0
  {
    if Off(a, n) == 0 then n
    else
      OffEndOfLap(a, n, a - Off(a, n));
      n + (a - Off(a, n))
  }

  /** `align_up`: `n.wrapping_add(align - 1) & !(align - 1)` on 64-bit words. */
  function AlignUp(n: nat, align: nat): nat
    requires 0 < align <= U64
  {
    And((n + align - 1) % U64, U64 - align)
  }

  /** A word has `w` bits, 64 of them, so any `k` up to 64 is at most `w`. */
  lemma WordBits(k: nat) returns (w: nat)
    requires k <= 64
    ensures k <= w && Pow2(w) == U64
  {
    assert Pow2(8) == 256;
    var a := Pow2Square(8, 256);
    var b := Pow2Square(a, 65536);
    w := Pow2Square(b, 0x1_0000_0000);
  }

  lemma Pow2Square(k: nat, v: nat) returns (d: nat)
    requires Pow2(k) == v
    ensures d == 2 * k && Pow2(d) == v * v
  {
    d := k + k;
    Pow2Sum(k, k);
  }

  lemma {:induction false} Pow2Sum(j: nat, k: nat)
    ensures Pow2(j + k) == Pow2(j) * Pow2(k)
    decreases k
  {
    if k > 0 { Pow2Sum(j, k - 1); }
  }

  /** The bit form of `align_up` rounds up, whenever the sum does not overflow. */
  lemma AlignUpRounds(n: nat, k: nat, a: nat)
    requires k <= 64 && a == Pow2(k) && n + a <= U64
    ensures AlignUp(n, a) == RoundUp(n, a)
  {
    var w := WordBits(k);
    var x, y := (n + a - 1) % U64, U64 - a;
    assert x == n + a - 1;
    ClearLowBitsRounds(n, k, w, x, y);
  }

  lemma ClearLowBitsRounds(n: nat, k: nat, w: nat, x: nat, y: nat)
    requires k <= w && n + Pow2(k) <= Pow2(w)
    requires x == n + Pow2(k) - 1 && y == Pow2(w) - Pow2(k)
    ensures And(x, y) == RoundUp(n, Pow2(k))
  {
    var a, r := Pow2(k), RoundUp(n, Pow2(k));
    AndHighMask(x, w, k);
    OffMultiplesAdd(a, r, x - r);
  }

  /** A u16 read from its two little-endian bytes. */
  function U16Of(lo: Byte, hi: Byte): (v: nat)
    ensures v < 65536
  {
    lo as int + 256 * (hi as int)
  }

  /** What the drain's frame check accepts as a log record of its own length. */
  predicate ValidRecord(r: Record) {
    && HEADER_SIZE <= |r| <= MAX_RECORD_SIZE
    && r[0] == VERSION && r[1] == LOG_RECORD
    && U16Of(r[2], r[3]) == |r|
  }

  /** The four bytes `write_eob` stores: a header-only filler of `span` bytes. */
  function EobBytes(span: nat): (b: seq<Byte>)
    ensures |b| == 4
  {
    [VERSION, END_OF_BUFFER, span % 256, span / 256 % 256]
  }

  lemma EobSpan(span: nat)
    requires span < 65536
    ensures U16Of(EobBytes(span)[2], EobBytes(span)[3]) == span
  {
  }

  /** `b` stored over `s` from position `at`. */
  function Splice(s: seq<Byte>, at: nat, b: seq<Byte>): (r: seq<Byte>)
    requires at + |b| <= |s|
    ensures |r| == |s|
  {
    seq(|s|, i requires 0 <= i < |s| => if at <= i < at + |b| then b[i - at] else s[i])
  }

  lemma SpliceNext(s: seq<Byte>, p: nat, a: seq<Byte>, b: seq<Byte>)
    requires p + |a| + |b| <= |s|
    ensures Splice(Splice(s, p, a), p + |a|, b) == Splice(s, p, a + b)
  {
    var l, r := Splice(Splice(s, p, a), p + |a|, b), Splice(s, p, a + b);
    assert forall i | 0 <= i < |s| :: l[i] == r[i];
  }
}
