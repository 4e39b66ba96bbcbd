/** The single-producer single-consumer ring as an interleaving of atomic steps.

One producer thread and the drain thread share the byte storage and the two
indices `head` and `tail`. Every step below is one access to shared state: the
producer stores one byte, or loads `tail`, or stores `head`; the drain loads
`head`, or reads one byte, or stores `tail`. A run is any sequence of enabled
steps, so bytes of a record may be stored in any order and read while others
are being stored. */
module RingProtocol {
  import opened Bits
  import opened Layout
  import opened RingFrames

  datatype Policy = Drop | Block | NanoLog | Quill

  /** The answer of one look for space. After `Retry` the caller waits and asks again. */
  datatype Space = Granted | Refused | Retry

  datatype Setup = Setup(capacity: nat, slot: nat, policy: Policy, fastTailCache: bool)

  /** What `with_capacity` asserts; the slot is one cache line. */
  ghost predicate ValidSetup(c: Setup) {
    && (c.slot == 64 || c.slot == 128)
    && c.slot <= c.capacity < U64
    && exists k: nat :: c.capacity == Pow2(k)
  }

  /** The consequences of `ValidSetup` that the protocol rests on. */
  predicate Geometry(c: Setup) {
    && (c.slot == 64 || c.slot == 128)
    && c.slot <= c.capacity
    && Off(c.slot, c.capacity) == 0
  }

  type Config = c: Setup | Geometry(c) witness Setup(64, 64, Drop, false)

  lemma ValidSetupGeometry(c: Setup)
    requires ValidSetup(c)
    ensures Geometry(c)
  {
    var k: nat :| c.capacity == Pow2(k);
    assert Pow2(6) == 64 && Pow2(7) == 128;
    if k < 6 { Pow2Monotone(k, 5); }
    if k == 6 { assert c.slot == 64; }
    Pow2Multiple(6, k);
    if k >= 7 { Pow2Multiple(7, k); }
  }

  lemma {:induction false} Pow2Monotone(j: nat, k: nat)
    requires j <= k
    ensures Pow2(j) <= Pow2(k)
    decreases k - j
  {
    if j < k { Pow2Monotone(j + 1, k); }
  }

  // ---------------------------------------------------------------- Sizing

  /** Contiguous bytes between the write position and the end of the storage. */
  function Remaining(c: Config, head: nat): (r: nat)
    ensures 0 < r <= c.capacity
  {
    c.capacity - Off(c.capacity, head)
  }

  function Aligned(c: Config, total: nat): (a: nat)
    ensures total <= a < total + c.slot && Off(c.slot, a) == 0
  {
    RoundUp(total, c.slot)
  }

  predicate Wraps(c: Config, head: nat, total: nat)
  {
    Aligned(c, total) > Remaining(c, head)
  }

  /** The filler written before a record that would straddle the end. */
  function FillerSpan(c: Config, head: nat, total: nat): nat
  {
    if Wraps(c, head, total) then Remaining(c, head) else 0
  }

  function Needed(c: Config, head: nat, total: nat): nat
  {
    FillerSpan(c, head, total) + Aligned(c, total)
  }

  /** The producer's capacity test, in wrapping 64-bit arithmetic. */
  predicate Fits(c: Config, head: nat, needed: nat, tail: nat)
  {
    ((head + needed) % U64 + U64 - tail) % U64 <= c.capacity - 1
  }

  /** Below 2^64 the wrapping test is the plain one. */
  lemma FitsIsOccupancy(c: Config, head: nat, needed: nat, tail: nat)
    requires tail <= head && head + needed < U64
    ensures Fits(c, head, needed, tail) <==> head + needed - tail < c.capacity
  {
  }

  // ---------------------------------------------------------------- State

  datatype Producer =
    | Idle
    | Checking(rec: Record)   // about to test against the cached tail
    | Spinning(rec: Record)   // in the refresh loop
    | Writing(rec: Record)    // space granted, storing bytes

  datatype DrainPc =
    | Resting
    | Passing(t: nat, hc: nat, got: seq<Byte>) // local tail, local head copy, bytes of the current frame

  datatype State = State(
    mem: seq<Byte>,
    head: nat, tailCache: nat,
    tail: nat, headCache: nat,
    live: bool,
    producer: Producer,
    drain: DrainPc,
    // Histories: records whose reserve succeeded, published records,
    // records handed to the sink.
    accepted: seq<Record>,
    published: seq<Record>,
    delivered: seq<Record>)

  datatype Action =
    | Begin(rec: Record)
    | CheckCached
    | Refresh
    | WriteFiller(k: nat, b: Byte)
    | WriteRecord(k: nat, b: Byte)
    | Publish
    | MarkDead
    | StartPass
    | ReadByte
    | Dispatch
    | EndPass

  predicate IsDrainAction(a: Action) {
    a.StartPass? || a.ReadByte? || a.Dispatch? || a.EndPass?
  }

  predicate Init(c: Config, s: State) {
    && |s.mem| == c.capacity
    && s == State(s.mem, 0, 0, 0, 0, true, Idle, Resting, [], [], [])
  }

  /** What the drain makes of a frame prefix of at least four bytes at `t`. */
  datatype Verdict = Empty | Corrupt | Skip(size: nat) | Log(size: nat)

  function Classify(c: Config, t: nat, got: seq<Byte>): Verdict
    requires |got| >= 4
  {
    var size := U16Of(got[2], got[3]);
    if size == 0 then Empty
    else if got[0] != VERSION || (got[1] != LOG_RECORD && got[1] != END_OF_BUFFER)
         || size < HEADER_SIZE || Off(c.capacity, t) + size > c.capacity then Corrupt
    else if got[1] == END_OF_BUFFER then Skip(size)
    else Log(size)
  }

  predicate NeedsMore(c: Config, t: nat, got: seq<Byte>)
  {
    |got| < 4 || (var v := Classify(c, t, got); v.Log? && |got| < v.size)
  }

  /** Reads are clamped to the storage: past its end they yield 0. */
  function ByteAt(c: Config, s: State, t: nat, k: nat): Byte
    requires |s.mem| == c.capacity
  {
    if Off(c.capacity, t) + k < c.capacity then s.mem[Off(c.capacity, t) + k] else 0
  }

  /** Where the record of a granted reservation starts. */
  function RecordStart(c: Config, head: nat, total: nat): nat {
    head + FillerSpan(c, head, total)
  }

  predicate SliceIs(mem: seq<Byte>, at: nat, b: seq<Byte>) {
    at + |b| <= |mem| && mem[at..at + |b|] == b
  }

  /** The bytes of the reservation hold the filler header and the record: the
  contract of the code that runs between `reserve` and `publish`. */
  predicate Written(c: Config, mem: seq<Byte>, head: nat, rec: Record) {
    && SliceIs(mem, Off(c.capacity, RecordStart(c, head, |rec|)), rec)
    && (Wraps(c, head, |rec|) ==>
          SliceIs(mem, Off(c.capacity, head), EobBytes(FillerSpan(c, head, |rec|))))
  }

  /** The drain acts on one complete frame. */
  function AfterFrame(c: Config, s: State): State
    requires s.drain.Passing? && |s.drain.got| >= 4
  {
    var Passing(t, hc, got) := s.drain;
    match Classify(c, t, got)
    case Empty => s.(tail := t, headCache := hc, drain := Resting)
    case Corrupt => s.(drain := Passing(hc, hc, []))
    case Skip(size) => s.(drain := Passing(t + Aligned(c, size), hc, []))
    case Log(size) => s.(drain := Passing(t + Aligned(c, size), hc, []), delivered := s.delivered + [got])
  }

  predicate BeginStep(c: Config, s: State, rec: Record, s': State)
  {
    && s.producer.Idle? && ValidRecord(rec)
    && s.head + Needed(c, s.head, |rec|) < U64
    && s' == s.(producer := Checking(rec))
  }

  /** First test, against the cached tail. Without `fast-tail-cache` a success
  also reloads the tail. */
  predicate CheckCachedStep(c: Config, s: State, s': State)
  {
    && s.producer.Checking?
    && var rec := s.producer.rec;
       if Fits(c, s.head, Needed(c, s.head, |rec|), s.tailCache) then
         s' == s.(producer := Writing(rec), accepted := s.accepted + [rec],
                  tailCache := if c.fastTailCache then s.tailCache else s.tail)
       else s' == s.(producer := Spinning(rec))
  }

  /** One turn of the refresh loop. */
  predicate RefreshStep(c: Config, s: State, s': State)
  {
    && s.producer.Spinning?
    && var rec := s.producer.rec;
       if Fits(c, s.head, Needed(c, s.head, |rec|), s.tail) then
         s' == s.(tailCache := s.tail, producer := Writing(rec), accepted := s.accepted + [rec])
       else if c.policy.Block? && s.live then s' == s.(tailCache := s.tail)
       else s' == s.(tailCache := s.tail, producer := Idle)
  }

  predicate WriteFillerStep(c: Config, s: State, k: nat, b: Byte, s': State)
    requires |s.mem| == c.capacity
  {
    && s.producer.Writing? && Wraps(c, s.head, |s.producer.rec|) && k < 4
    && var at := Off(c.capacity, s.head) + k;
       at < c.capacity && s' == s.(mem := s.mem[at := b])
  }

  predicate WriteRecordStep(c: Config, s: State, k: nat, b: Byte, s': State)
    requires |s.mem| == c.capacity
  {
    && s.producer.Writing? && k < |s.producer.rec|
    && var at := Off(c.capacity, RecordStart(c, s.head, |s.producer.rec|)) + k;
       at < c.capacity && s' == s.(mem := s.mem[at := b])
  }

  predicate PublishStep(c: Config, s: State, s': State)
    requires |s.mem| == c.capacity
  {
    && s.producer.Writing? && Written(c, s.mem, s.head, s.producer.rec)
    && s' == s.(head := s.head + Needed(c, s.head, |s.producer.rec|), producer := Idle,
                published := s.published + [s.producer.rec])
  }

  /** The drain reloads `head` only when its own copy says it has caught up. */
  predicate StartPassStep(s: State, s': State) {
    && s.drain.Resting?
    && var hc := if s.tail == s.headCache then s.head else s.headCache;
       s' == if s.tail == hc then s else s.(drain := Passing(s.tail, hc, []))
  }

  predicate ReadByteStep(c: Config, s: State, s': State)
    requires |s.mem| == c.capacity
  {
    && s.drain.Passing? && s.drain.t < s.drain.hc && NeedsMore(c, s.drain.t, s.drain.got)
    && s' == s.(drain := s.drain.(got := s.drain.got + [ByteAt(c, s, s.drain.t, |s.drain.got|)]))
  }

  predicate DispatchStep(c: Config, s: State, s': State)
  {
    && s.drain.Passing? && s.drain.t < s.drain.hc && !NeedsMore(c, s.drain.t, s.drain.got)
    && s' == AfterFrame(c, s)
  }

  predicate EndPassStep(s: State, s': State) {
    && s.drain.Passing? && s.drain.t >= s.drain.hc
    && s' == s.(tail := s.drain.t, headCache := s.drain.hc, drain := Resting)
  }

  predicate Step(c: Config, s: State, a: Action, s': State)
    requires |s.mem| == c.capacity
  {
    match a
    case Begin(rec) => BeginStep(c, s, rec, s')
    case CheckCached => CheckCachedStep(c, s, s')
    case Refresh => RefreshStep(c, s, s')
    case WriteFiller(k, b) => WriteFillerStep(c, s, k, b, s')
    case WriteRecord(k, b) => WriteRecordStep(c, s, k, b, s')
    case Publish => PublishStep(c, s, s')
    case MarkDead => s' == s.(live := false)
    case StartPass => StartPassStep(s, s')
    case ReadByte => ReadByteStep(c, s, s')
    case Dispatch => DispatchStep(c, s, s')
    case EndPass => EndPassStep(s, s')
  }

  // ---------------------------------------------------------------- Frames

  function FrameBytes(f: Frame): seq<Byte> {
    match f case Rec(r, _) => r case Filler(n) => EobBytes(n)
  }

  /** A frame that may lie at position `p`: it stays inside one lap. */
  predicate FrameOk(c: Config, p: nat, f: Frame)
  {
    && Off(c.capacity, p) + f.size <= c.capacity
    && (f.Rec? ==> ValidRecord(f.rec) && f.size == Aligned(c, |f.rec|))
    && (f.Filler? ==>
          && 64 <= f.size < 65536 && Off(c.slot, f.size) == 0
          && Off(c.capacity, p) + f.size == c.capacity)
  }

  predicate Holds(c: Config, mem: seq<Byte>, p: nat, f: Frame)
  {
    && |mem| == c.capacity && FrameOk(c, p, f)
    && SliceIs(mem, Off(c.capacity, p), FrameBytes(f))
  }

  function Lies(c: Config, mem: seq<Byte>): Placement {
    (p: nat, f: Frame) => Holds(c, mem, p, f)
  }

  predicate Framed(c: Config, mem: seq<Byte>, p: nat, fs: Frames, end: nat) {
    Tiles(Lies(c, mem), p, fs, end)
  }

  lemma FramedCons(c: Config, mem: seq<Byte>, p: nat, f: Frame, rest: Frames, end: nat)
    requires Holds(c, mem, p, f) && Framed(c, mem, p + f.size, rest, end)
    ensures Framed(c, mem, p, Cons(f, rest), end)
  {
    TilesCons(Lies(c, mem), p, f, rest, end);
  }

  lemma FramedUncons(c: Config, mem: seq<Byte>, p: nat, fs: Frames, end: nat)
    requires fs.Cons? && Framed(c, mem, p, fs, end)
    ensures Holds(c, mem, p, fs.first)
    ensures Framed(c, mem, p + fs.first.size, fs.rest, end)
    ensures p < p + fs.first.size <= end
  {
    TilesForward(Lies(c, mem), p + fs.first.size, fs.rest, end);
  }

  /** The two memories agree except on `n` bytes from `at`. */
  predicate SameOutside(before: seq<Byte>, after: seq<Byte>, at: nat, n: nat) {
    && |before| == |after|
    && forall i | 0 <= i < |before| && !(at <= i < at + n) :: after[i] == before[i]
  }

  /** Storing bytes at positions past the frames, less than one lap beyond the
  first of them, leaves every frame intact. */
  lemma FramedUndisturbed(
      c: Config, mem: seq<Byte>, p: nat, fs: Frames, end: nat, w: nat, n: nat, mem': seq<Byte>)
    requires Framed(c, mem, p, fs, end)
    requires end <= w && w + n <= p + c.capacity && Off(c.capacity, w) + n <= c.capacity
    requires SameOutside(mem, mem', Off(c.capacity, w), n)
    ensures Framed(c, mem', p, fs, end)
  {
    forall q: nat, f: Frame | p <= q && q + f.size <= end && Lies(c, mem)(q, f)
      ensures Lies(c, mem')(q, f)
    {
      FrameUndisturbed(c, mem, q, f, w, n, mem');
    }
    TilesKept(Lies(c, mem), Lies(c, mem'), p, fs, end);
  }

  lemma FrameUndisturbed(c: Config, mem: seq<Byte>, p: nat, f: Frame, w: nat, n: nat, mem': seq<Byte>)
    requires Holds(c, mem, p, f)
    requires p + f.size <= w && w + n <= p + c.capacity && Off(c.capacity, w) + n <= c.capacity
    requires SameOutside(mem, mem', Off(c.capacity, w), n)
    ensures Holds(c, mem', p, f)
  {
    var off, len := Off(c.capacity, p), |FrameBytes(f)|;
    forall i | off <= i < off + len
      ensures mem'[i] == mem[i]
    {
      var at := Off(c.capacity, w);
      if at <= i < at + n { ApartIndex(c.capacity, p, i - off, w, i - at); }
    }
    assert mem'[off..off + len] == mem[off..off + len];
  }

  /** Positions `p + u` and `w + v`, less than one lap apart and each within its
  own lap, have different storage indices. */
  lemma ApartIndex(capacity: nat, p: nat, u: nat, w: nat, v: nat)
    requires capacity > 0 && p + u < w + v < p + u + capacity
    requires Off(capacity, p) + u < capacity && Off(capacity, w) + v < capacity
    ensures Off(capacity, p) + u != Off(capacity, w) + v
  {
    OffWithinLap(capacity, p, u);
    OffWithinLap(capacity, w, v);
    OffDistinct(capacity, p + u, w + v);
  }

  // ---------------------------------------------------------------- Invariant

  /** The frames still to be read: `toRead` in the current pass, `later` after it. */
  datatype Unread = Unread(toRead: Frames, later: Frames)

  function Cursor(s: State): nat { if s.drain.Passing? then s.drain.t else s.tail }

  function Goal(s: State): nat { if s.drain.Passing? then s.drain.hc else s.tail }

  ghost predicate Inv(c: Config, s: State, u: Unread) {
    && |s.mem| == c.capacity
    && Indices(c, s)
    && Tiled(c, s, u)
    && s.published == s.delivered + Records(u.toRead) + Records(u.later)
    && DrainOk(s, u)
    && ProducerOk(c, s)
  }

  /** The frames of the pass end at its goal; those after it end at `head`. */
  ghost predicate Tiled(c: Config, s: State, u: Unread)
    requires |s.mem| == c.capacity
  {
    && Framed(c, s.mem, Cursor(s), u.toRead, Goal(s))
    && Framed(c, s.mem, Goal(s), u.later, s.head)
  }

  ghost predicate Indices(c: Config, s: State)
  {
    && s.tailCache <= s.tail == s.headCache <= Cursor(s) <= Goal(s) <= s.head
    && s.head + c.slot <= s.tail + c.capacity
    && s.head < U64
    && Off(c.slot, s.head) == 0 && Off(c.slot, s.tail) == 0 && Off(c.slot, Goal(s)) == 0
  }

  ghost predicate DrainOk(s: State, u: Unread) {
    && (s.drain.Resting? ==> u.toRead.End?)
    && (s.drain.Passing? && s.drain.got != [] ==>
          && u.toRead.Cons?
          && s.drain.got <= FrameBytes(u.toRead.first))
  }

  ghost predicate ProducerOk(c: Config, s: State)
  {
    && (!s.producer.Idle? ==>
          && ValidRecord(s.producer.rec)
          && s.head + Needed(c, s.head, |s.producer.rec|) < U64)
    && (s.producer.Writing? ==>
          && s.head + Needed(c, s.head, |s.producer.rec|) + c.slot <= s.tail + c.capacity
          && s.accepted == s.published + [s.producer.rec])
    && (!s.producer.Writing? ==> s.accepted == s.published)
  }

  lemma InitInv(c: Config, s: State)
    requires Init(c, s)
    ensures Inv(c, s, Unread(End, End))
  {
  }

  /** All indices are multiples of the slot, so "below capacity" leaves a slot. */
  lemma OccupancyLeavesSlot(c: Config, end: nat, tail: nat)
    requires Off(c.slot, end) == 0 && Off(c.slot, tail) == 0
    requires end < tail + c.capacity
    ensures end + c.slot <= tail + c.capacity
  {
    OffMultiplesAdd(c.slot, tail, c.capacity);
    MultiplesGap(c.slot, end, tail + c.capacity);
  }

  /** Granting space on a tail value that is not ahead of the real one. */
  lemma GrantIsSound(c: Config, s: State, tail: nat, needed: nat)
    requires Indices(c, s) && tail <= s.tail
    requires s.head + needed < U64 && Off(c.slot, needed) == 0
    requires Fits(c, s.head, needed, tail)
    ensures Fits(c, s.head, needed, s.tail)
    ensures s.head + needed + c.slot <= s.tail + c.capacity
  {
    FitsIsOccupancy(c, s.head, needed, tail);
    FitsIsOccupancy(c, s.head, needed, s.tail);
    OffMultiplesAdd(c.slot, s.head, needed);
    OccupancyLeavesSlot(c, s.head + needed, s.tail);
  }

  lemma NeededIsAligned(c: Config, head: nat, total: nat)
    requires Off(c.slot, head) == 0
    ensures Off(c.slot, Remaining(c, head)) == 0
    ensures c.slot <= Remaining(c, head)
    ensures Off(c.slot, Needed(c, head, total)) == 0
    ensures Off(c.slot, FillerSpan(c, head, total)) == 0
  {
    var off, r := Off(c.capacity, head), Remaining(c, head);
    OffKeepsMultiples(c.slot, c.capacity, head);
    OffMultiplesAdd(c.slot, off, r);
    MultiplesGap(c.slot, 0, r);
    OffMultiplesAdd(c.slot, r, Aligned(c, total));
  }

  /** A record that may be granted at `head`. */
  predicate Grantable(c: Config, head: nat, rec: Record) {
    && Off(c.slot, head) == 0 && ValidRecord(rec)
    && Needed(c, head, |rec|) + c.slot <= c.capacity
  }

  /** Where the granted bytes lie: the filler runs to the end of the storage,
  the record starts at offset 0 after it, and neither straddles. */
  lemma ReservationLayout(c: Config, head: nat, rec: Record)
    requires Grantable(c, head, rec)
    ensures Off(c.capacity, RecordStart(c, head, |rec|)) + Aligned(c, |rec|) <= c.capacity
    ensures Off(c.slot, head + Needed(c, head, |rec|)) == 0
    ensures Wraps(c, head, |rec|) ==>
              && 64 <= Remaining(c, head) < 65536 && Off(c.slot, Remaining(c, head)) == 0
              && Off(c.capacity, RecordStart(c, head, |rec|)) == 0
              && Aligned(c, |rec|) <= Off(c.capacity, head)
  {
    NeededIsAligned(c, head, |rec|);
    OffMultiplesAdd(c.slot, head, Needed(c, head, |rec|));
    if Wraps(c, head, |rec|) {
      OffEndOfLap(c.capacity, head, Remaining(c, head));
      AlignedFitsU16(c, |rec|);
      MultiplesGap(c.slot, Remaining(c, head), Aligned(c, |rec|));
    }
  }

  lemma AlignedFitsU16(c: Config, total: nat)
    requires total <= MAX_RECORD_SIZE
    ensures Aligned(c, total) <= 65536
  {
    assert Off(64, 65536) == 0 && Off(128, 65536) == 0 by {
      OffIsRemainder(64, 65536);
      OffIsRemainder(128, 65536);
    }
    if Aligned(c, total) > 65536 { MultiplesGap(c.slot, 65536, Aligned(c, total)); }
  }

  // ---------------------------------------------------------------- Steps keep the invariant

  /** The frames of a reservation: the filler, if it wraps, and the record. */
  function GrantedFrames(c: Config, head: nat, rec: Record): Frames {
    var last := Cons(Rec(rec, Aligned(c, |rec|)), End);
    if Wraps(c, head, |rec|) then Cons(Filler(Remaining(c, head)), last) else last
  }

  lemma Regroup(a: seq<Record>, b: seq<Record>, c: seq<Record>, d: seq<Record>)
    ensures a + (b + c) + d == (a + b) + c + d
    ensures a + (b + c) == a + b + c
  {
  }

  /** How the witness of the invariant moves with a step. */
  ghost function NextUnread(c: Config, s: State, a: Action, u: Unread): Unread
  {
    match a
    case Publish => if s.producer.Writing? then u.(later := Append(u.later, GrantedFrames(c, s.head, s.producer.rec))) else u
    case StartPass => if s.tail == s.head then u else Unread(u.later, End)
    case Dispatch => if u.toRead.Cons? then u.(toRead := u.toRead.rest) else u
    case _ => u
  }

  lemma CheckCachedKeepsInv(c: Config, s: State, s': State, u: Unread)
    requires Inv(c, s, u) && CheckCachedStep(c, s, s')
    ensures Inv(c, s', u)
  {
    var needed := Needed(c, s.head, |s.producer.rec|);
    NeededIsAligned(c, s.head, |s.producer.rec|);
    if Fits(c, s.head, needed, s.tailCache) { GrantIsSound(c, s, s.tailCache, needed); }
  }

  lemma RefreshKeepsInv(c: Config, s: State, s': State, u: Unread)
    requires Inv(c, s, u) && RefreshStep(c, s, s')
    ensures Inv(c, s', u)
  {
    var needed := Needed(c, s.head, |s.producer.rec|);
    NeededIsAligned(c, s.head, |s.producer.rec|);
    if Fits(c, s.head, needed, s.tail) { GrantIsSound(c, s, s.tail, needed); }
  }

  /** A byte stored inside the reservation touches no unread frame. */
  lemma WriteKeepsInv(c: Config, s: State, w: nat, at: nat, b: Byte, s': State, u: Unread)
    requires Inv(c, s, u) && s.head <= w < s.tail + c.capacity
    requires at == Off(c.capacity, w) && s' == s.(mem := s.mem[at := b])
    ensures Inv(c, s', u)
  {
    FramedUndisturbed(c, s.mem, Cursor(s), u.toRead, Goal(s), w, 1, s'.mem);
    FramedUndisturbed(c, s.mem, Goal(s), u.later, s.head, w, 1, s'.mem);
  }

  /** The positions the bytes of a reservation are stored at. */
  lemma StoreTargets(c: Config, head: nat, rec: Record, k: nat)
    requires Grantable(c, head, rec)
    ensures Wraps(c, head, |rec|) && k < 4 ==>
              && Off(c.capacity, head + k) == Off(c.capacity, head) + k
              && k < Needed(c, head, |rec|)
    ensures k < |rec| ==>
              var dst := RecordStart(c, head, |rec|);
              && Off(c.capacity, dst + k) == Off(c.capacity, dst) + k
              && dst + k < head + Needed(c, head, |rec|)
  {
    ReservationLayout(c, head, rec);
    if Wraps(c, head, |rec|) && k < 4 { OffWithinLap(c.capacity, head, k); }
    if k < |rec| { OffWithinLap(c.capacity, RecordStart(c, head, |rec|), k); }
  }

  lemma WriteFillerKeepsInv(c: Config, s: State, k: nat, b: Byte, s': State, u: Unread)
    requires Inv(c, s, u) && WriteFillerStep(c, s, k, b, s')
    ensures Inv(c, s', u)
  {
    StoreTargets(c, s.head, s.producer.rec, k);
    WriteKeepsInv(c, s, s.head + k, Off(c.capacity, s.head) + k, b, s', u);
  }

  lemma WriteRecordKeepsInv(c: Config, s: State, k: nat, b: Byte, s': State, u: Unread)
    requires Inv(c, s, u) && WriteRecordStep(c, s, k, b, s')
    ensures Inv(c, s', u)
  {
    StoreTargets(c, s.head, s.producer.rec, k);
    var dst := RecordStart(c, s.head, |s.producer.rec|);
    WriteKeepsInv(c, s, dst + k, Off(c.capacity, dst) + k, b, s', u);
  }

  /** Once written, the granted frames tile the positions up to the new head. */
  lemma WrittenFrames(c: Config, mem: seq<Byte>, head: nat, rec: Record)
    requires |mem| == c.capacity && Grantable(c, head, rec) && Written(c, mem, head, rec)
    ensures Framed(c, mem, head, GrantedFrames(c, head, rec), head + Needed(c, head, |rec|))
    ensures Records(GrantedFrames(c, head, rec)) == [rec]
  {
    ReservationLayout(c, head, rec);
    var dst, end := RecordStart(c, head, |rec|), head + Needed(c, head, |rec|);
    var last := Cons(Rec(rec, Aligned(c, |rec|)), End);
    FramedCons(c, mem, dst, Rec(rec, Aligned(c, |rec|)), End, end);
    assert Records(last) == [rec];
    if Wraps(c, head, |rec|) { FramedCons(c, mem, head, Filler(Remaining(c, head)), last, end); }
  }

  lemma WritingIsGrantable(c: Config, s: State)
    requires Indices(c, s) && ProducerOk(c, s) && s.producer.Writing?
    ensures Grantable(c, s.head, s.producer.rec)
  {
  }

  lemma PublishKeepsIndices(c: Config, s: State, s': State)
    requires Indices(c, s) && ProducerOk(c, s) && s.producer.Writing?
    requires s' == s.(head := s.head + Needed(c, s.head, |s.producer.rec|), producer := Idle, published := s'.published)
    ensures Indices(c, s')
  {
    ReservationLayout(c, s.head, s.producer.rec);
  }

  lemma HeadMovesKeepsInv(c: Config, s: State, s': State, u: Unread, more: Frames)
    requires Inv(c, s, u) && s.producer.Writing?
    requires s' == s.(head := s'.head, producer := Idle, published := s.published + [s.producer.rec])
    requires Indices(c, s') && Framed(c, s.mem, s.head, more, s'.head)
    requires Records(more) == [s.producer.rec]
    ensures Inv(c, s', u.(later := Append(u.later, more)))
  {
    TilesAppend(Lies(c, s.mem), Goal(s), u.later, s.head, more, s'.head);
    RecordsAppend(u.later, more);
    Regroup(s.delivered + Records(u.toRead), Records(u.later), [s.producer.rec], []);
  }

  lemma PublishKeepsInv(c: Config, s: State, s': State, u: Unread)
    requires Inv(c, s, u) && PublishStep(c, s, s')
    ensures Inv(c, s', NextUnread(c, s, Publish, u))
  {
    WritingIsGrantable(c, s);
    PublishKeepsIndices(c, s, s');
    var more := GrantedFrames(c, s.head, s.producer.rec);
    assert Framed(c, s.mem, s.head, more, s'.head) && Records(more) == [s.producer.rec] by {
      WrittenFrames(c, s.mem, s.head, s.producer.rec);
    }
    HeadMovesKeepsInv(c, s, s', u, more);
  }

  /** The prefix of the frame at the cursor is classified as what it is. */
  lemma FrameClassified(c: Config, p: nat, f: Frame, got: seq<Byte>)
    requires FrameOk(c, p, f) && 4 <= |got| && got <= FrameBytes(f)
    ensures Classify(c, p, got) == if f.Rec? then Log(|f.rec|) else Skip(f.size)
  {
    var b := FrameBytes(f);
    assert got[0] == b[0] && got[1] == b[1] && got[2] == b[2] && got[3] == b[3];
    if f.Filler? { EobSpan(f.size); }
  }

  lemma PrefixNeedsMore(c: Config, p: nat, f: Frame, got: seq<Byte>)
    requires FrameOk(c, p, f) && got <= FrameBytes(f)
    ensures NeedsMore(c, p, got) <==> |got| < |FrameBytes(f)|
  {
    if |got| >= 4 { FrameClassified(c, p, f, got); }
  }

  /** While a pass has bytes to go, a whole well-formed frame lies at its cursor. */
  lemma FrameAtCursor(c: Config, s: State, u: Unread)
    requires |s.mem| == c.capacity && s.drain.Passing? && s.drain.t < s.drain.hc
    requires Framed(c, s.mem, s.drain.t, u.toRead, s.drain.hc) && DrainOk(s, u)
    ensures u.toRead.Cons? && Holds(c, s.mem, s.drain.t, u.toRead.first)
    ensures s.drain.got <= FrameBytes(u.toRead.first)
    ensures NeedsMore(c, s.drain.t, s.drain.got) <==> |s.drain.got| < |FrameBytes(u.toRead.first)|
    ensures var next := s.drain.t + u.toRead.first.size;
            s.drain.t < next <= s.drain.hc && Framed(c, s.mem, next, u.toRead.rest, s.drain.hc)
  {
    FrameHere(c, s.mem, s.drain.t, s.drain.hc, s.drain.got, u.toRead);
  }

  lemma FrameHere(c: Config, mem: seq<Byte>, t: nat, hc: nat, got: seq<Byte>, fs: Frames)
    requires |mem| == c.capacity && t < hc && Framed(c, mem, t, fs, hc)
    requires got != [] ==> fs.Cons? && got <= FrameBytes(fs.first)
    ensures fs.Cons? && Holds(c, mem, t, fs.first) && got <= FrameBytes(fs.first)
    ensures NeedsMore(c, t, got) <==> |got| < |FrameBytes(fs.first)|
    ensures t < t + fs.first.size <= hc && Framed(c, mem, t + fs.first.size, fs.rest, hc)
  {
    FramedUncons(c, mem, t, fs, hc);
    PrefixNeedsMore(c, t, fs.first, got);
  }

  /** One more byte of the storage is one more byte of the frame. */
  lemma NextByte(c: Config, s: State, t: nat, f: Frame, got: seq<Byte>)
    requires |s.mem| == c.capacity && Holds(c, s.mem, t, f)
    requires got <= FrameBytes(f) && |got| < |FrameBytes(f)|
    ensures got + [ByteAt(c, s, t, |got|)] <= FrameBytes(f)
  {
    var off := Off(c.capacity, t);
    assert s.mem[off..off + |FrameBytes(f)|][|got|] == s.mem[off + |got|];
  }

  lemma ReadByteKeepsInv(c: Config, s: State, s': State, u: Unread)
    requires Inv(c, s, u) && ReadByteStep(c, s, s')
    ensures Inv(c, s', u)
  {
    FrameAtCursor(c, s, u);
    NextByte(c, s, s.drain.t, u.toRead.first, s.drain.got);
  }

  /** A complete frame is skipped or delivered; the empty-slot and the
  corrupt-frame branches are never taken. */
  lemma FrameDispatched(c: Config, s: State, u: Unread)
    requires |s.mem| == c.capacity && s.drain.Passing? && s.drain.t < s.drain.hc
    requires Framed(c, s.mem, s.drain.t, u.toRead, s.drain.hc) && DrainOk(s, u)
    requires !NeedsMore(c, s.drain.t, s.drain.got)
    ensures u.toRead.Cons?
    ensures var f := u.toRead.first;
            AfterFrame(c, s) == s.(drain := Passing(s.drain.t + f.size, s.drain.hc, []),
                                   delivered := s.delivered + RecordOf(f))
    ensures s.drain.t + u.toRead.first.size <= s.drain.hc
    ensures Framed(c, s.mem, s.drain.t + u.toRead.first.size, u.toRead.rest, s.drain.hc)
  {
    FrameAtCursor(c, s, u);
    FrameActedOn(c, s, u.toRead.first);
  }

  /** The frame is all there: what the drain makes of it. */
  lemma FrameActedOn(c: Config, s: State, f: Frame)
    requires s.drain.Passing? && FrameOk(c, s.drain.t, f)
    requires s.drain.got == FrameBytes(f) && |s.drain.got| >= 4
    ensures AfterFrame(c, s) == s.(drain := Passing(s.drain.t + f.size, s.drain.hc, []),
                                   delivered := s.delivered + RecordOf(f))
  {
    FrameClassified(c, s.drain.t, f, s.drain.got);
    assert s.delivered + [] == s.delivered;
  }

  /** The pass moves on to `next`, with the frames `rest` before its goal. */
  ghost predicate Advances(s: State, s': State, next: nat) {
    && s.drain.Passing? && s.drain.t <= next <= s.drain.hc
    && s' == s.(drain := Passing(next, s.drain.hc, []), delivered := s'.delivered)
  }

  lemma AdvanceIndices(c: Config, s: State, s': State, next: nat)
    requires Indices(c, s) && ProducerOk(c, s) && Advances(s, s', next)
    ensures Indices(c, s') && ProducerOk(c, s')
  {
  }

  lemma AdvanceKeepsInv(c: Config, s: State, s': State, next: nat, rest: Frames, later: Frames)
    requires |s.mem| == c.capacity && Indices(c, s') && ProducerOk(c, s') && Advances(s, s', next)
    requires s.published == s'.delivered + Records(rest) + Records(later)
    requires Framed(c, s.mem, next, rest, s.drain.hc) && Framed(c, s.mem, s.drain.hc, later, s.head)
    ensures Inv(c, s', Unread(rest, later))
  {
  }

  lemma AdvanceRecords(done: seq<Record>, f: Frame, rest: Frames, later: seq<Record>)
    ensures done + Records(Cons(f, rest)) + later == done + RecordOf(f) + Records(rest) + later
  {
    Regroup(done, RecordOf(f), Records(rest), later);
  }

  /** Dispatching the frame at the cursor: where the pass goes on, and that the
  records stay accounted for. */
  lemma DispatchAdvances(c: Config, s: State, s': State, u: Unread) returns (next: nat)
    requires |s.mem| == c.capacity && DispatchStep(c, s, s')
    requires Framed(c, s.mem, s.drain.t, u.toRead, s.drain.hc) && DrainOk(s, u)
    requires s.published == s.delivered + Records(u.toRead) + Records(u.later)
    ensures u.toRead.Cons? && Advances(s, s', next)
    ensures Framed(c, s.mem, next, u.toRead.rest, s.drain.hc)
    ensures s.published == s'.delivered + Records(u.toRead.rest) + Records(u.later)
  {
    FrameDispatched(c, s, u);
    next := s.drain.t + u.toRead.first.size;
    AdvanceRecords(s.delivered, u.toRead.first, u.toRead.rest, Records(u.later));
  }

  lemma DispatchKeepsInv(c: Config, s: State, s': State, u: Unread)
    requires Inv(c, s, u) && DispatchStep(c, s, s')
    ensures Inv(c, s', NextUnread(c, s, Dispatch, u))
  {
    var next := DispatchAdvances(c, s, s', u);
    AdvanceIndices(c, s, s', next);
    AdvanceKeepsInv(c, s, s', next, u.toRead.rest, u.later);
  }

  lemma StartPassKeepsInv(c: Config, s: State, s': State, u: Unread)
    requires Inv(c, s, u) && StartPassStep(s, s')
    ensures Inv(c, s', NextUnread(c, s, StartPass, u))
  {
    NothingMoved(s.delivered, Records(u.later));
  }

  lemma NothingMoved(a: seq<Record>, b: seq<Record>)
    ensures a + [] + b == a + b + []
  {
  }

  lemma EndPassKeepsInv(c: Config, s: State, s': State, u: Unread)
    requires Inv(c, s, u) && EndPassStep(s, s')
    ensures Inv(c, s', u)
    ensures u.toRead.End?
  {
    if u.toRead.Cons? { FramedUncons(c, s.mem, s.drain.t, u.toRead, s.drain.hc); }
  }

  /** Every step, by either side, keeps the invariant. */
  lemma StepKeepsInv(c: Config, s: State, a: Action, s': State, u: Unread)
    requires Inv(c, s, u) && Step(c, s, a, s')
    ensures Inv(c, s', NextUnread(c, s, a, u))
  {
    match a
    case Begin(_) =>
    case CheckCached => CheckCachedKeepsInv(c, s, s', u);
    case Refresh => RefreshKeepsInv(c, s, s', u);
    case WriteFiller(k, b) => WriteFillerKeepsInv(c, s, k, b, s', u);
    case WriteRecord(k, b) => WriteRecordKeepsInv(c, s, k, b, s', u);
    case Publish => PublishKeepsInv(c, s, s', u);
    case MarkDead =>
    case StartPass => StartPassKeepsInv(c, s, s', u);
    case ReadByte => ReadByteKeepsInv(c, s, s', u);
    case Dispatch => DispatchKeepsInv(c, s, s', u);
    case EndPass => EndPassKeepsInv(c, s, s', u);
  }

  // ---------------------------------------------------------------- Runs

  /** A run of the protocol: any interleaving of enabled steps. */
  ghost predicate Run(c: Config, states: seq<State>, acts: seq<Action>) {
    && ValidSetup(c)
    && |states| == |acts| + 1
    && Init(c, states[0])
    && forall i | 0 <= i < |acts| :: StepAt(c, states, acts, i)
  }

  ghost predicate StepAt(c: Config, states: seq<State>, acts: seq<Action>, i: nat)
    requires |states| == |acts| + 1 && i < |acts|
  {
    |states[i].mem| == c.capacity && Step(c, states[i], acts[i], states[i + 1])
  }

  ghost function Witness(c: Config, states: seq<State>, acts: seq<Action>, i: nat): Unread
    requires |states| == |acts| + 1 && i <= |acts|
  {
    if i == 0 then Unread(End, End)
    else NextUnread(c, states[i - 1], acts[i - 1], Witness(c, states, acts, i - 1))
  }

  lemma {:induction false} RunKeepsInv(c: Config, states: seq<State>, acts: seq<Action>, i: nat)
    requires Run(c, states, acts) && i <= |acts|
    ensures Inv(c, states[i], Witness(c, states, acts, i))
  {
    if i == 0 {
      InitInv(c, states[0]);
    } else {
      RunKeepsInv(c, states, acts, i - 1);
      assert StepAt(c, states, acts, i - 1);
      StepKeepsInv(c, states[i - 1], acts[i - 1], states[i], Witness(c, states, acts, i - 1));
    }
  }

  /** In every reachable state the bytes granted to the producer, filler and
  record alike, share no storage index with a byte the drain may still read,
  and a whole slot stays free even after they are published. */
  lemma NeverOverlaps(c: Config, states: seq<State>, acts: seq<Action>, i: nat, p: nat, w: nat)
    requires Run(c, states, acts) && i <= |acts|
    ensures states[i].head - states[i].tail <= c.capacity - c.slot
    ensures var s := states[i];
            s.producer.Writing? ==>
              var needed := Needed(c, s.head, |s.producer.rec|);
              && s.head + needed - s.tail <= c.capacity - c.slot
              && (s.tail <= p < s.head <= w < s.head + needed ==>
                    Off(c.capacity, p) != Off(c.capacity, w))
  {
    RunKeepsInv(c, states, acts, i);
    var s := states[i];
    if s.producer.Writing? && s.tail <= p < s.head <= w < s.head + Needed(c, s.head, |s.producer.rec|) {
      OffDistinct(c.capacity, p, w);
    }
  }

  lemma FillerStoreIsGranted(c: Config, s: State, k: nat, b: Byte, s': State)
    requires |s.mem| == c.capacity && WriteFillerStep(c, s, k, b, s') && Grantable(c, s.head, s.producer.rec)
    ensures s.head + k < s.head + Needed(c, s.head, |s.producer.rec|)
    ensures s' == s.(mem := s.mem[Off(c.capacity, s.head + k) := b])
  {
    StoreTargets(c, s.head, s.producer.rec, k);
  }

  lemma RecordStoreIsGranted(c: Config, s: State, k: nat, b: Byte, s': State)
    requires |s.mem| == c.capacity && WriteRecordStep(c, s, k, b, s') && Grantable(c, s.head, s.producer.rec)
    ensures var w := RecordStart(c, s.head, |s.producer.rec|) + k;
            && s.head <= w < s.head + Needed(c, s.head, |s.producer.rec|)
            && s' == s.(mem := s.mem[Off(c.capacity, w) := b])
  {
    StoreTargets(c, s.head, s.producer.rec, k);
  }

  lemma StoreIsGranted(c: Config, s: State, a: Action, s': State) returns (w: nat)
    requires |s.mem| == c.capacity && s.producer.Writing? && Grantable(c, s.head, s.producer.rec)
    requires if a.WriteFiller? then WriteFillerStep(c, s, a.k, a.b, s')
             else a.WriteRecord? && WriteRecordStep(c, s, a.k, a.b, s')
    ensures s.head <= w < s.head + Needed(c, s.head, |s.producer.rec|)
    ensures s' == s.(mem := s.mem[Off(c.capacity, w) := a.b])
  {
    if a.WriteFiller? {
      w := s.head + a.k;
      FillerStoreIsGranted(c, s, a.k, a.b, s');
    } else {
      w := RecordStart(c, s.head, |s.producer.rec|) + a.k;
      RecordStoreIsGranted(c, s, a.k, a.b, s');
    }
  }

  /** A byte store is one of those granted bytes. */
  lemma StoresAreGranted(c: Config, states: seq<State>, acts: seq<Action>, i: nat)
    returns (w: nat)
    requires Run(c, states, acts) && i < |acts| && (acts[i].WriteFiller? || acts[i].WriteRecord?)
    ensures states[i].producer.Writing?
    ensures states[i].head <= w < states[i].head + Needed(c, states[i].head, |states[i].producer.rec|)
    ensures |states[i].mem| == c.capacity
    ensures states[i + 1] == states[i].(mem := states[i].mem[Off(c.capacity, w) := acts[i].b])
  {
    RunKeepsInv(c, states, acts, i);
    assert StepAt(c, states, acts, i);
    var s, a := states[i], acts[i];
    WritingIsGrantable(c, s);
    w := StoreIsGranted(c, s, a, states[i + 1]);
  }

  /** Exact FIFO: what the sink received is a prefix of what was published, and
  that is exactly the granted records, in order, bar the one being written. */
  lemma DeliveredInOrder(c: Config, states: seq<State>, acts: seq<Action>, i: nat)
    requires Run(c, states, acts) && i <= |acts|
    ensures states[i].delivered <= states[i].published
    ensures states[i].accepted ==
            states[i].published + (if states[i].producer.Writing? then [states[i].producer.rec] else [])
  {
    RunKeepsInv(c, states, acts, i);
    var s, u := states[i], Witness(c, states, acts, i);
    assert s.delivered <= s.delivered + Records(u.toRead) + Records(u.later);
  }

  /** The drain never meets an empty slot or a corrupt frame. */
  lemma NeverCorrupt(c: Config, states: seq<State>, acts: seq<Action>, i: nat)
    requires Run(c, states, acts) && i <= |acts|
    ensures var d := states[i].drain;
            d.Passing? && d.t < d.hc && |d.got| >= 4 ==>
              Classify(c, d.t, d.got).Log? || Classify(c, d.t, d.got).Skip?
  {
    RunKeepsInv(c, states, acts, i);
    var s, u := states[i], Witness(c, states, acts, i);
    if s.drain.Passing? && s.drain.t < s.drain.hc && |s.drain.got| >= 4 {
      FrameAtCursor(c, s, u);
      FrameClassified(c, s.drain.t, u.toRead.first, s.drain.got);
    }
  }

  /** The cached tail lags, so a grant on it is one the real tail would give:
  skipping the reload under `fast-tail-cache` is sound. */
  lemma CachedGrantIsRealGrant(c: Config, states: seq<State>, acts: seq<Action>, i: nat, total: nat)
    requires Run(c, states, acts) && i <= |acts|
    requires states[i].head + Needed(c, states[i].head, total) < U64
    ensures states[i].tailCache <= states[i].tail
    ensures var s, needed := states[i], Needed(c, states[i].head, total);
            Fits(c, s.head, needed, s.tailCache) ==> Fits(c, s.head, needed, s.tail)
  {
    RunKeepsInv(c, states, acts, i);
    var s, needed := states[i], Needed(c, states[i].head, total);
    NeededIsAligned(c, s.head, total);
    if Fits(c, s.head, needed, s.tailCache) { GrantIsSound(c, s, s.tailCache, needed); }
  }

  // ---------------------------------------------------------------- One drain pass

  /** States `j + 1 .. i` of a run belong to the pass opened by action `j`. */
  ghost predicate PassFrom(c: Config, states: seq<State>, acts: seq<Action>, j: nat, i: nat) {
    && Run(c, states, acts) && j < i <= |acts|
    && acts[j].StartPass?
    && forall k | j < k <= i :: states[k].drain.Passing?
  }

  lemma PassOpens(c: Config, s: State, s': State, u: Unread)
    requires Inv(c, s, u) && StartPassStep(s, s') && s'.drain.Passing?
    ensures s'.delivered + Records(NextUnread(c, s, StartPass, u).toRead) == s.published
    ensures s'.drain.hc == s.head
  {
    NothingBetween(s.delivered, Records(u.later));
  }

  lemma NothingBetween(a: seq<Record>, b: seq<Record>)
    ensures a + [] + b == a + b
  {
  }

  lemma PassContinues(c: Config, s: State, a: Action, s': State, u: Unread)
    requires Inv(c, s, u) && Step(c, s, a, s') && s.drain.Passing? && s'.drain.Passing?
    ensures s'.delivered + Records(NextUnread(c, s, a, u).toRead) == s.delivered + Records(u.toRead)
    ensures s'.drain.hc == s.drain.hc
  {
    if a.Dispatch? { DispatchContinues(c, s, s', u); }
    else if !IsDrainAction(a) { ProducerLeavesDrain(c, s, a, s'); }
  }

  lemma DispatchContinues(c: Config, s: State, s': State, u: Unread)
    requires Inv(c, s, u) && DispatchStep(c, s, s')
    ensures s'.delivered + Records(NextUnread(c, s, Dispatch, u).toRead) == s.delivered + Records(u.toRead)
    ensures s'.drain.Passing? && s'.drain.hc == s.drain.hc
  {
    FrameDispatched(c, s, u);
    Regroup(s.delivered, RecordOf(u.toRead.first), Records(u.toRead.rest), []);
  }

  /** The producer's steps, and the mark, leave the drain's side alone. */
  lemma ProducerLeavesDrain(c: Config, s: State, a: Action, s': State)
    requires |s.mem| == c.capacity && Step(c, s, a, s') && !IsDrainAction(a)
    ensures s'.drain == s.drain && s'.delivered == s.delivered && s'.tail == s.tail && s'.headCache == s.headCache
  {
  }

  /** During a pass, delivered plus still-to-read records are what was published
  when the pass loaded `head`. */
  lemma {:induction false} PassTarget(c: Config, states: seq<State>, acts: seq<Action>, j: nat, i: nat)
    requires PassFrom(c, states, acts, j, i)
    ensures states[i].delivered + Records(Witness(c, states, acts, i).toRead) == states[j].published
    ensures states[i].drain.hc == states[j].head
    decreases i
  {
    var k := i - 1;
    var s, u := states[k], Witness(c, states, acts, k);
    RunKeepsInv(c, states, acts, k);
    assert StepAt(c, states, acts, k);
    assert states[i].drain.Passing?;
    if k == j {
      PassOpens(c, s, states[i], u);
    } else {
      assert s.drain.Passing?;
      PassTarget(c, states, acts, j, k);
      PassContinues(c, s, acts[k], states[i], u);
    }
  }

  /** A pass ends exactly at the head it loaded, having delivered every record
  published by then; whatever the producer did meanwhile is left for later. */
  lemma PassDeliversSnapshot(c: Config, states: seq<State>, acts: seq<Action>, j: nat, i: nat)
    requires PassFrom(c, states, acts, j, i) && i < |acts| && acts[i].EndPass?
    ensures states[i + 1].delivered == states[j].published
    ensures states[i + 1].tail == states[i + 1].headCache == states[j].head
  {
    PassTarget(c, states, acts, j, i);
    RunKeepsInv(c, states, acts, i);
    assert StepAt(c, states, acts, i);
    EndPassKeepsInv(c, states[i], states[i + 1], Witness(c, states, acts, i));
    assert states[i].delivered + [] == states[i].delivered;
  }

  /** The final drain: a pass over a ring whose producer published nothing more
  empties it. */
  lemma FinalPassEmpties(c: Config, states: seq<State>, acts: seq<Action>, j: nat, i: nat)
    requires PassFrom(c, states, acts, j, i) && i < |acts| && acts[i].EndPass?
    requires states[i + 1].published == states[j].published && states[i + 1].head == states[j].head
    ensures states[i + 1].delivered == states[i + 1].published
    ensures states[i + 1].tail == states[i + 1].head
  {
    PassDeliversSnapshot(c, states, acts, j, i);
  }

  /** A pass is only skipped when nothing is unread: between passes the drain's
  copy of `head` equals its tail, so it always reloads `head`. */
  lemma SkippedPassMeansEmpty(c: Config, states: seq<State>, acts: seq<Action>, i: nat)
    requires Run(c, states, acts) && i < |acts| && acts[i].StartPass?
    ensures states[i].tail == states[i].headCache
    ensures states[i + 1].drain.Resting? ==> states[i].delivered == states[i].published
  {
    RunKeepsInv(c, states, acts, i);
    assert StepAt(c, states, acts, i);
    var s, u := states[i], Witness(c, states, acts, i);
    if s.tail == s.head && u.later.Cons? { FramedUncons(c, s.mem, s.tail, u.later, s.head); }
    assert s.delivered + [] + [] == s.delivered;
  }

  /** Work left in a pass: one unit per byte to read, a large one per position. */
  function PassWork(s: State): int {
    if s.drain.Passing? then (s.drain.hc - s.drain.t) * 65536 - |s.drain.got| + 1 else 0
  }

  lemma PassWorkLeft(c: Config, s: State, u: Unread)
    requires Inv(c, s, u) && s.drain.Passing?
    ensures PassWork(s) > 0
    ensures |s.drain.got| <= MAX_RECORD_SIZE
  {
    if u.toRead.Cons? { FramedUncons(c, s.mem, s.drain.t, u.toRead, s.drain.hc); }
  }

  lemma DispatchLowersWork(c: Config, s: State, s': State, u: Unread)
    requires Inv(c, s, u) && DispatchStep(c, s, s')
    ensures 0 <= PassWork(s') < PassWork(s)
  {
    PassWorkLeft(c, s, u);
    FrameAtCursor(c, s, u);
    FrameDispatched(c, s, u);
  }

  /** Passes end: each drain step inside a pass lowers a natural number and the
  producer's steps do not change it. */
  lemma PassMakesProgress(c: Config, s: State, a: Action, s': State, u: Unread)
    requires Inv(c, s, u) && Step(c, s, a, s') && s.drain.Passing?
    ensures IsDrainAction(a) ==> 0 <= PassWork(s') < PassWork(s)
    ensures !IsDrainAction(a) ==> PassWork(s') == PassWork(s)
  {
    if a.Dispatch? { DispatchLowersWork(c, s, s', u); }
    else if IsDrainAction(a) { OtherLowersWork(c, s, a, s', u); }
    else { ProducerLeavesDrain(c, s, a, s'); }
  }

  lemma OtherLowersWork(c: Config, s: State, a: Action, s': State, u: Unread)
    requires Inv(c, s, u) && s.drain.Passing? && (a.StartPass? || a.ReadByte? || a.EndPass?) && Step(c, s, a, s')
    ensures 0 <= PassWork(s') < PassWork(s)
  {
    PassWorkLeft(c, s, u);
  }

  /** What the drain would do with bytes that are no frame, in any state whatever: rest
  on a size of nought, and otherwise go on at the head it loaded, delivering nothing. */
  lemma RecoveryFromNoFrame(c: Config, s: State)
    requires s.drain.Passing? && |s.drain.got| >= 4
    ensures var Passing(t, hc, got) := s.drain;
            var size := got[2] as int + 256 * got[3] as int;
            && (size == 0 ==> AfterFrame(c, s) == s.(tail := t, headCache := hc, drain := Resting))
            && (size > 0 && (got[0] != 2 || got[1] !in [1, 2] || size < 16 || Off(c.capacity, t) + size > c.capacity) ==>
                  AfterFrame(c, s) == s.(drain := Passing(hc, hc, [])))
  {
  }

  /** In a pass some drain step is always enabled. */
  lemma PassNeverStuck(c: Config, s: State, u: Unread)
    requires Inv(c, s, u) && s.drain.Passing?
    ensures exists a, s' :: IsDrainAction(a) && Step(c, s, a, s')
  {
    var d := s.drain;
    if d.t >= d.hc {
      assert Step(c, s, EndPass, s.(tail := d.t, headCache := d.hc, drain := Resting));
    } else if NeedsMore(c, d.t, d.got) {
      assert Step(c, s, ReadByte, s.(drain := d.(got := d.got + [ByteAt(c, s, d.t, |d.got|)])));
    } else {
      assert Step(c, s, Dispatch, AfterFrame(c, s));
    }
  }

  // ---------------------------------------------------------------- Size bounds

  /** A record fits an emptied ring at every slot offset exactly when twice its
  aligned size fits the capacity. */
  lemma FitsEverywhereIff(c: Config, total: nat)
    requires total > 0
    ensures (forall head: nat | Off(c.slot, head) == 0 :: Needed(c, head, total) < c.capacity)
            <==> 2 * Aligned(c, total) <= c.capacity
  {
    var a := Aligned(c, total);
    MultiplesGap(c.slot, 0, a);
    if 2 * a <= c.capacity {
      forall head: nat | Off(c.slot, head) == 0
        ensures Needed(c, head, total) < c.capacity
      {
        NeededIsAligned(c, head, total);
      }
    } else {
      // One slot less than the record remains before the end of the storage;
      // a one-slot record, or one larger than the storage, fails at offset 0.
      var head := if c.slot < a <= c.capacity then c.capacity - (a - c.slot) else 0;
      MultiplesDiff(c.slot, a, c.slot);
      if head > 0 { MultiplesDiff(c.slot, c.capacity, a - c.slot); }
      OffMultiplesAdd(c.slot, a, a);
      MultiplesGap(c.slot, c.capacity, 2 * a);
      assert Off(c.capacity, head) == head;
      assert Needed(c, head, total) >= c.capacity;
    }
  }

  lemma {:induction false} MultiplesDiff(a: nat, p: nat, q: nat)
    requires a > 0 && Off(a, p) == 0 && Off(a, q) == 0 && q <= p
    ensures Off(a, p - q) == 0
    decreases q
  {
    if q >= a { MultiplesDiff(a, p - a, q - a); }
  }

  /** A fresh or rewound segment takes the record at once exactly when its
  aligned size is below the capacity. */
  lemma FreshSegmentAccepts(c: Config, total: nat)
    requires c.capacity < U64 && total <= MAX_RECORD_SIZE
    ensures Fits(c, 0, Needed(c, 0, total), 0) <==> Aligned(c, total) < c.capacity
  {
    AlignedFitsU16(c, total);
    FitsIsOccupancy(c, 0, Needed(c, 0, total), 0);
  }

  lemma FillerSpanBound(c: Config, head: nat, total: nat)
    requires Off(c.slot, head) == 0 && total <= MAX_RECORD_SIZE
    ensures FillerSpan(c, head, total) < 65536 && 64 <= Remaining(c, head)
  {
    AlignedFitsU16(c, total);
    NeededIsAligned(c, head, total);
    if Wraps(c, head, total) { MultiplesGap(c.slot, Remaining(c, head), Aligned(c, total)); }
  }

  /** The filler's span survives the cast to u16, at every head and size. */
  lemma FillerSpanFitsU16(c: Config, head: nat, total: nat)
    requires Off(c.slot, head) == 0 && total <= MAX_RECORD_SIZE
    ensures var span := FillerSpan(c, head, total);
            U16Of(EobBytes(span)[2], EobBytes(span)[3]) == span
  {
    FillerSpanBound(c, head, total);
    EobSpan(FillerSpan(c, head, total));
  }
}
