/** `reserve_with_policy`, and the handoff loop of its segmented policies. */
module Handoff {
  import opened Bits
  import opened Layout
  import opened RingProtocol
  import opened RingBuffers

  datatype Turn = Never | At(turn: nat)

  /** The turn of the handoff loop, of `n` at most, in which a ring with these
  indices or one of the new segments after it grants `total` bytes. */
  function GrantedAt(c: Config, head: nat, tail: nat, total: nat, n: nat): Turn {
    if n == 0 then Never
    else if head + Needed(c, head, total) - tail < c.capacity then At(0)
    else
      var later := GrantedAt(c, 0, 0, total, n - 1);
      if later.At? then At(later.turn + 1) else Never
  }

  lemma NewSegment(c: Config, total: nat)
    ensures Needed(c, 0, total) < c.capacity <==> Aligned(c, total) < c.capacity
  {
  }

  lemma {:induction false} TooLargeNever(c: Config, head: nat, tail: nat, total: nat, n: nat)
    requires tail <= head && Aligned(c, total) >= c.capacity
    ensures GrantedAt(c, head, tail, total, n).Never?
    decreases n
  {
    if n > 0 { TooLargeNever(c, 0, 0, total, n - 1); }
  }

  /** From every state of the current segment: a record whose aligned size is
  below the capacity gets its slot in the first or second turn, and any other
  gets none in any number of turns, so the loop, which has no bound, goes
  through new segments for ever. */
  lemma HandoffReturnsIff(c: Config, head: nat, tail: nat, total: nat)
    requires tail <= head
    ensures (exists n: nat :: GrantedAt(c, head, tail, total, n).At?) <==> Aligned(c, total) < c.capacity
    ensures Aligned(c, total) < c.capacity ==>
              forall n: nat | n >= 2 :: GrantedAt(c, head, tail, total, n).At?
                                        && GrantedAt(c, head, tail, total, n).turn <= 1
  {
    NewSegment(c, total);
    if Aligned(c, total) < c.capacity {
      forall n: nat | n >= 2
        ensures GrantedAt(c, head, tail, total, n).At? && GrantedAt(c, head, tail, total, n).turn <= 1
      {
        assert GrantedAt(c, 0, 0, total, n - 1) == At(0);
      }
      assert GrantedAt(c, head, tail, total, 2).At?;
    } else {
      forall n: nat ensures GrantedAt(c, head, tail, total, n).Never? {
        TooLargeNever(c, head, tail, total, n);
      }
    }
  }

  /** A real configuration: segments of 64 bytes, the smallest allowed, never
  take even a record without arguments. */
  lemma SmallestSegmentsTakeNothing(n: nat)
    ensures ValidSetup(Setup(64, 64, Quill, false))
    ensures GrantedAt(Setup(64, 64, Quill, false), 0, 0, BASE_RECORD_SIZE, n).Never?
  {
    assert Pow2(6) == 64;
    TooLargeNever(Setup(64, 64, Quill, false), 0, 0, BASE_RECORD_SIZE, n);
  }

  predicate Segmented(p: Policy) { p.NanoLog? || p.Quill? }

  /** The whole function. Under Drop and Block it is one reserve, a `retry` being a
  turn of the waiting loop. Under the segmented policies a full segment is marked
  handed off and the next one takes its place, cut off after `turns` turns: a new
  segment, or a spare of the bounded pool, whose rewinding makes it as good as
  new, so that a pool of `n` spares lasts for `n + 1` turns. The answer is that of
  `GrantedAt`, and the records of the first segment stay. */
  method ReserveWithPolicy(first: RingBuffer, total: nat, turns: nat)
    returns (ring: RingBuffer, r: Reservation, used: nat)
    requires first.Valid() && total <= MAX_RECORD_SIZE
    requires first.head + Needed(first.c, first.head, total) < U64
    modifies first`tailCache, first`handedOff, first.data
    ensures first.Valid() && first.Contents() == old(first.Contents()) && ring.Valid()
    ensures var n := if Segmented(first.c.policy) then turns else 1;
            var g := GrantedAt(first.c, first.head, first.tail, total, n);
            && (r.Slot? <==> g.At?) && used == (if g.At? then g.turn + 1 else n)
    ensures r.Slot? ==>
              && (ring == first || fresh(ring)) && ring.c == first.c
              && r.dst == Off(ring.c.capacity, RecordStart(ring.c, ring.head, total))
              && r.newHead == ring.head + Needed(ring.c, ring.head, total)
    ensures first.handedOff
            == (old(first.handedOff) || (Segmented(first.c.policy) && turns > 0 && !(r.Slot? && used == 1)))
    ensures !Segmented(first.c.policy) ==>
              && ring == first
              && (r.NoSlot? ==> (r.retry <==> first.c.policy.Block? && first.live))
  {
    if Segmented(first.c.policy) {
      ring, r, used := HandoffLoop(first, total, turns);
    } else {
      r := ReserveHere(first, total);
      ring, used := first, 1;
      OneTurn(first.c, first.head, first.tail, total);
    }
  }

  /** The loop of the segmented policies. */
  method HandoffLoop(first: RingBuffer, total: nat, turns: nat)
    returns (ring: RingBuffer, r: Reservation, used: nat)
    requires first.Valid() && total <= MAX_RECORD_SIZE
    requires first.head + Needed(first.c, first.head, total) < U64
    modifies first`tailCache, first`handedOff, first.data
    ensures first.Valid() && first.Contents() == old(first.Contents()) && ring.Valid()
    ensures var g := GrantedAt(first.c, first.head, first.tail, total, turns);
            && (r.Slot? <==> g.At?) && used == (if g.At? then g.turn + 1 else turns)
    ensures r.Slot? ==>
              && (ring == first || fresh(ring)) && ring.c == first.c
              && r.dst == Off(ring.c.capacity, RecordStart(ring.c, ring.head, total))
              && r.newHead == ring.head + Needed(ring.c, ring.head, total)
    ensures first.handedOff == (old(first.handedOff) || (turns > 0 && !(r.Slot? && used == 1)))
  {
    ring, r, used := first, NoSlot(false), 0;
    if turns > 0 {
      r := TryOrHandOff(first, total);
      used := 1;
      if r.NoSlot? {
        ghost var c, n := first.c, turns - 1;
        assert GrantedAt(c, first.head, first.tail, total, turns)
               == (var later := GrantedAt(c, 0, 0, total, n); if later.At? then At(later.turn + 1) else Never);
        var more;
        ring, r, more := OnNewSegments(first, total, turns - 1);
        used := more + 1;
      }
    }
  }

  lemma OneTurn(c: Config, head: nat, tail: nat, total: nat)
    ensures GrantedAt(c, head, tail, total, 1)
            == if head + Needed(c, head, total) - tail < c.capacity then At(0) else Never
  {
  }

  /** The later turns of the loop, each on a new segment. */
  method OnNewSegments(like: RingBuffer, total: nat, turns: nat)
    returns (ring: RingBuffer, r: Reservation, used: nat)
    requires like.Shape() && total <= MAX_RECORD_SIZE
    ensures fresh(ring) && fresh(ring.data) && ring.Valid() && ring.c == like.c
    ensures var g := GrantedAt(like.c, 0, 0, total, turns);
            && (r.Slot? <==> g.At?) && used == (if g.At? then g.turn + 1 else turns)
    ensures r.Slot? ==>
              && r.dst == Off(ring.c.capacity, RecordStart(ring.c, ring.head, total))
              && r.newHead == ring.head + Needed(ring.c, ring.head, total)
  {
    NewSegmentFits(like.c, total, like.log2Capacity);
    r, used := NoSlot(false), 0;
    ring := NextSegment(like);
    while used < turns
      invariant used <= turns && r.NoSlot? && fresh(ring) && fresh(ring.data)
      invariant ring.Valid() && ring.c == like.c && ring.head == ring.tail == 0
      invariant var g := GrantedAt(like.c, 0, 0, total, turns);
                var h := GrantedAt(like.c, 0, 0, total, turns - used);
                if h.At? then g == At(h.turn + used) else g.Never?
    {
      r := TryOrHandOff(ring, total);
      used := used + 1;
      if r.Slot? { return; }
      ring := NextSegment(like);
    }
  }

  /** One reserve on the current ring. */
  method ReserveHere(ring: RingBuffer, total: nat) returns (r: Reservation)
    requires ring.Valid() && total <= MAX_RECORD_SIZE && ring.head + Needed(ring.c, ring.head, total) < U64
    modifies ring`tailCache, ring.data
    ensures ring.Valid() && ring.Contents() == old(ring.Contents())
    ensures r.Slot? <==> ring.head + Needed(ring.c, ring.head, total) - ring.tail < ring.c.capacity
    ensures r.Slot? ==>
              && r.dst == Off(ring.c.capacity, RecordStart(ring.c, ring.head, total))
              && r.newHead == ring.head + Needed(ring.c, ring.head, total)
    ensures r.NoSlot? ==> (r.retry <==> ring.c.policy.Block? && ring.live)
  {
    r := ring.Reserve(total);
  }

  /** One reserve; a segment that refuses is marked handed off. */
  method TryOrHandOff(ring: RingBuffer, total: nat) returns (r: Reservation)
    requires ring.Valid() && total <= MAX_RECORD_SIZE && ring.head + Needed(ring.c, ring.head, total) < U64
    modifies ring`tailCache, ring`handedOff, ring.data
    ensures ring.Valid() && ring.Contents() == old(ring.Contents())
    ensures r.Slot? <==> ring.head + Needed(ring.c, ring.head, total) - ring.tail < ring.c.capacity
    ensures ring.handedOff == (old(ring.handedOff) || r.NoSlot?)
    ensures r.Slot? ==>
              && r.dst == Off(ring.c.capacity, RecordStart(ring.c, ring.head, total))
              && r.newHead == ring.head + Needed(ring.c, ring.head, total)
  {
    r := ReserveHere(ring, total);
    if r.NoSlot? { ring.handedOff := true; }
  }

  /** `alloc_fresh`, or a rewound spare: a segment of the same shape. */
  method NextSegment(like: RingBuffer) returns (ring: RingBuffer)
    requires like.Shape()
    ensures fresh(ring) && fresh(ring.data) && ring.Valid() && ring.c == like.c && ring.head == ring.tail == 0
  {
    ring := new RingBuffer(like.log2Capacity, like.log2Slot, like.c.policy, like.c.fastTailCache);
  }

  lemma NewSegmentFits(c: Config, total: nat, k: nat)
    requires total <= MAX_RECORD_SIZE && c.capacity == Pow2(k) && k <= 63
    ensures Needed(c, 0, total) < U64
  {
    AlignedFitsU16(c, total);
  }
}
