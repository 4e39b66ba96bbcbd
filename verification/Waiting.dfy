/** Backpressure that waits: which records get through the blocking loops of the
ring and of the chunked backend, and which hold their thread up for good. */
module Waiting {
  import opened Bits
  import opened Layout
  import opened RingProtocol
  import Wire
  import Rtrb

  // ---------------------------------------------------------------- The ring

  /** The producer is in the refresh loop in states `j .. i`. */
  ghost predicate Waits(states: seq<State>, j: nat, i: nat)
    requires i < |states|
  {
    forall k | j <= k <= i :: states[k].producer.Spinning?
  }

  lemma WaitStep(c: Config, s: State, a: Action, s': State)
    requires |s.mem| == c.capacity && Step(c, s, a, s') && s.producer.Spinning? && s'.producer.Spinning?
    ensures s'.producer == s.producer && s'.head == s.head && s'.published == s.published
  {
  }

  lemma {:induction false} WaitStands(c: Config, states: seq<State>, acts: seq<Action>, j: nat, i: nat)
    requires Run(c, states, acts) && j <= i <= |acts| && Waits(states, j, i)
    ensures states[i].producer == states[j].producer
    ensures states[i].head == states[j].head && states[i].published == states[j].published
    decreases i - j
  {
    if j < i {
      WaitStands(c, states, acts, j, i - 1);
      assert StepAt(c, states, acts, i - 1);
      WaitStep(c, states[i - 1], acts[i - 1], states[i]);
    }
  }

  /** A pass of the drain decides: the next look at the tail grants the record, or
  no later look will, as the pass leaves the ring empty. */
  lemma ServedAfterPassIff(c: Config, states: seq<State>, acts: seq<Action>, j: nat, i: nat, s': State)
    requires PassFrom(c, states, acts, j, i) && i < |acts| && acts[i].EndPass?
    requires Waits(states, j, i + 1) && RefreshStep(c, states[i + 1], s')
    ensures var Spinning(rec) := states[j].producer;
            && (s'.producer.Writing? <==> Needed(c, states[j].head, |rec|) < c.capacity)
            && (s'.producer.Writing? ==> s'.producer.rec == rec)
            && (!s'.producer.Writing? ==>
                  s'.producer == if c.policy.Block? && states[i + 1].live then states[j].producer else Idle)
  {
    var s := states[i + 1];
    WaitStands(c, states, acts, j, i + 1);
    PassDeliversSnapshot(c, states, acts, j, i);
    RunKeepsInv(c, states, acts, i + 1);
    FitsIsOccupancy(c, s.head, Needed(c, s.head, |s.producer.rec|), s.tail);
  }

  lemma HopelessStep(c: Config, s: State, a: Action, s': State)
    requires |s.mem| == c.capacity && Step(c, s, a, s')
    requires c.policy.Block? && s'.live && s.producer.Spinning? && s.tail <= s.head
    requires c.capacity <= Needed(c, s.head, |s.producer.rec|) < U64 - s.head
    ensures s.live && s'.producer == s.producer && s'.head == s.head && s'.published == s.published
  {
    FitsIsOccupancy(c, s.head, Needed(c, s.head, |s.producer.rec|), s.tail);
  }

  /** A record that needs the whole storage or more at its write position holds its
  thread up until shutdown, in every run, however often the drain empties the ring. */
  lemma {:induction false} HopelessWait(c: Config, states: seq<State>, acts: seq<Action>, j: nat, i: nat)
    requires Run(c, states, acts) && j <= i <= |acts| && c.policy.Block? && states[i].live
    requires states[j].producer.Spinning?
    requires Needed(c, states[j].head, |states[j].producer.rec|) >= c.capacity
    ensures states[j].live && states[i].producer == states[j].producer
    ensures states[i].head == states[j].head && states[i].published == states[j].published
    decreases i - j
  {
    if j < i {
      var s := states[i - 1];
      assert StepAt(c, states, acts, i - 1);
      WaitIndices(c, states, acts, i - 1);
      LiveBefore(c, s, acts[i - 1], states[i]);
      HopelessWait(c, states, acts, j, i - 1);
      HopelessStep(c, s, acts[i - 1], states[i]);
    }
  }

  lemma WaitIndices(c: Config, states: seq<State>, acts: seq<Action>, i: nat)
    requires Run(c, states, acts) && i <= |acts|
    ensures var s := states[i];
            && s.tail <= s.head
            && (s.producer.Spinning? ==> Needed(c, s.head, |s.producer.rec|) < U64 - s.head)
  {
    RunKeepsInv(c, states, acts, i);
  }

  lemma LiveBefore(c: Config, s: State, a: Action, s': State)
    requires |s.mem| == c.capacity && Step(c, s, a, s') && s'.live
    ensures s.live
  {
  }

  /** A record of `n` bytes, all zero behind its header word. */
  function Blank(n: nat): Record
    requires HEADER_SIZE <= n <= MAX_RECORD_SIZE
  {
    [VERSION, LOG_RECORD, n % 256, n / 256] + seq(n - 4, _ => 0)
  }

  lemma BlankIsValid(n: nat)
    requires HEADER_SIZE <= n <= MAX_RECORD_SIZE
    ensures ValidRecord(Blank(n))
  {
  }

  /** Such waits happen: every record whose aligned size reaches the capacity is in
  one after two steps of a run. */
  lemma HangingRun(c: Config, mem: seq<Byte>, rec: Record) returns (states: seq<State>, acts: seq<Action>)
    requires ValidSetup(c) && c.policy.Block? && |mem| == c.capacity
    requires ValidRecord(rec) && Aligned(c, |rec|) >= c.capacity
    ensures Run(c, states, acts) && |acts| == 2
    ensures states[2].live && states[2].producer == Spinning(rec) && states[2].head == 0
    ensures Needed(c, 0, |rec|) >= c.capacity
  {
    AlignedFitsU16(c, |rec|);
    FitsIsOccupancy(c, 0, Needed(c, 0, |rec|), 0);
    var s := State(mem, 0, 0, 0, 0, true, Idle, Resting, [], [], []);
    var t, u := s.(producer := Checking(rec)), s.(producer := Spinning(rec));
    states, acts := [s, t, u], [Begin(rec), CheckCached];
    assert StepAt(c, states, acts, 0) && StepAt(c, states, acts, 1);
  }

  /** A real configuration: rings of 64 bytes, the smallest allowed, and a record
  without arguments. */
  lemma SmallestRingsHang(c: Config)
    requires c == Setup(64, 64, Block, false)
    ensures ValidSetup(c) && ValidRecord(Blank(BASE_RECORD_SIZE)) && Aligned(c, BASE_RECORD_SIZE) >= c.capacity
  {
    assert Pow2(6) == 64;
    BlankIsValid(BASE_RECORD_SIZE);
  }

  // ---------------------------------------------------------------- The chunked backend

  /** While the producer of the chunked backend waits, only drain passes change the
  pipe. One pass decides: there is room from then on exactly if the record fits
  beside the staged bytes, which nobody flushes meanwhile. */
  lemma {:induction false} RoomAfterPassesIff(
      capacity: nat, states: seq<Rtrb.State>, acts: seq<Rtrb.Action>, j: nat, i: nat, total: nat)
    requires Rtrb.Run(capacity, states, acts) && j < i <= |acts|
    requires forall k | j <= k < i :: acts[k].DrainPass?
    ensures states[i].pipe == states[j].pipe.(ring := [])
    ensures Rtrb.Room(capacity, states[i].pipe, total) <==> |states[j].pipe.staged| + total < capacity
    decreases i - j
  {
    assert Rtrb.StepAt(capacity, states, acts, i - 1);
    if j < i - 1 { RoomAfterPassesIff(capacity, states, acts, j, i - 1, total); }
  }

  /** Two records of 25 bytes staged, as they are with a chunk size of three, leave no
  room for a third in a ring of 64 bytes: the ring is empty, and no pass of the drain
  helps, though the third record would have flushed all of them. */
  lemma StagedRun() returns (states: seq<Rtrb.State>, acts: seq<Rtrb.Action>)
    ensures Rtrb.Run(63, states, acts) && |acts| == 4
    ensures states[4].pipe.ring == [] && states[4].pipe.stagedRecords == 2 && states[4].pipe.chunkSize == 3
    ensures |states[4].pipe.staged| + BASE_RECORD_SIZE >= 63
  {
    var rec := Blank(BASE_RECORD_SIZE);
    BlankIsValid(BASE_RECORD_SIZE);
    var s := Rtrb.State(Rtrb.Pipe([], [], 0, 3), Wire.None, [], [], [], []);
    var t := s.(granted := Wire.Some(rec));
    var u := s.(pipe := Rtrb.Committed(s.pipe, rec), committed := s.committed + [rec]);
    var v := u.(granted := Wire.Some(rec));
    var w := u.(pipe := Rtrb.Committed(u.pipe, rec), committed := u.committed + [rec]);
    states, acts := [s, t, u, v, w],
                    [Rtrb.ReserveFor(rec), Rtrb.CommitRecord, Rtrb.ReserveFor(rec), Rtrb.CommitRecord];
    assert Rtrb.StepAt(63, states, acts, 0) && Rtrb.StepAt(63, states, acts, 1);
    assert Rtrb.StepAt(63, states, acts, 2) && Rtrb.StepAt(63, states, acts, 3);
  }
}
