/** The chunked backend: a staging buffer in front of a byte ring, and the
drain pass that takes whole records out of the byte stream. */
module Rtrb {
  import opened Layout
  import opened Wire
  import RingProtocol
  import Bits

  // ---------------------------------------------------------------- The byte ring

  function Wrap(n: nat, x: nat): nat { if x < n then x else x - n }

  /** The bytes held by storage `mem`, oldest first. */
  function Held(mem: seq<Byte>, start: nat, used: nat): (s: seq<Byte>)
    requires start < |mem| && used <= |mem|
    ensures |s| == used
  {
    seq(used, i requires 0 <= i < used => mem[Wrap(|mem|, start + i)])
  }

  function Min(x: nat, y: nat): nat { if x <= y then x else y }

  /** Storing a chunk in two slices, up to the end of the storage and from its
  beginning, appends it. */
  lemma TwoSlicesAppend(mem: seq<Byte>, start: nat, used: nat, b: seq<Byte>, w: nat, k: nat, mem': seq<Byte>)
    requires start < |mem| && used + |b| <= |mem| && w == Wrap(|mem|, start + used)
    requires k == Min(|b|, |mem| - w) && mem' == Splice(Splice(mem, w, b[..k]), 0, b[k..])
    ensures Held(mem', start, used + |b|) == Held(mem, start, used) + b
  {
    var l, r := Held(mem', start, used + |b|), Held(mem, start, used) + b;
    forall i | 0 <= i < used + |b| ensures l[i] == r[i] {
      var at := Wrap(|mem|, start + i);
      if i < used {
        assert !(w <= at < w + k) && !(0 <= at < |b| - k);
      } else if i - used < k {
        assert at == w + (i - used);
      } else {
        assert at == i - used - k;
      }
    }
  }

  /** Reading a chunk in two slices takes the oldest bytes. */
  lemma TwoSlicesTake(mem: seq<Byte>, start: nat, used: nat, n: nat, k: nat)
    requires start < |mem| && n <= used <= |mem| && k == Min(n, |mem| - start)
    ensures mem[start..start + k] + mem[..n - k] == Held(mem, start, used)[..n]
    ensures Wrap(|mem|, start + n) < |mem|
    ensures Held(mem, Wrap(|mem|, start + n), used - n) == Held(mem, start, used)[n..]
  {
    var a, s := mem[start..start + k] + mem[..n - k], Held(mem, start, used);
    forall i | 0 <= i < n ensures a[i] == s[i] {
      assert s[i] == mem[Wrap(|mem|, start + i)];
      if i < k { assert a[i] == mem[start + i]; } else { assert a[i] == mem[i - k]; }
    }
    var t := Held(mem, Wrap(|mem|, start + n), used - n);
    forall i | 0 <= i < used - n ensures t[i] == s[n + i] {
      assert Wrap(|mem|, Wrap(|mem|, start + n) + i) == Wrap(|mem|, start + (n + i));
    }
  }

  /** A ring of bytes as the rtrb crate provides it: a chunk that wraps is
  written, and read, as two slices. */
  class ByteRing {
    const buf: array<Byte>
    var start: nat
    var used: nat

    ghost predicate Valid()
      reads this
    {
      start < buf.Length && used <= buf.Length
    }

    ghost function Contents(): seq<Byte>
      requires Valid()
      reads this, buf
    {
      Held(buf[..], start, used)
    }

    constructor (slots: nat)
      requires slots > 0
      ensures Valid() && fresh(buf) && buf.Length == slots && Contents() == []
    {
      buf := new Byte[slots](_ => 0);
      start, used := 0, 0;
    }

    /** Where a chunk of `n` bytes goes, and the length of its first slice. */
    method Slices(n: nat) returns (w: nat, k: nat)
      requires Valid() && used + n <= buf.Length
      ensures w == Wrap(buf.Length, start + used) < buf.Length && k == Min(n, buf.Length - w)
    {
      w := start + used;
      if w >= buf.Length { w := w - buf.Length; }
      k := if n <= buf.Length - w then n else buf.Length - w;
    }

    /** `write_chunk`, the two copies and `commit_all`. */
    method WriteChunk(b: seq<Byte>)
      requires Valid() && used + |b| <= buf.Length
      modifies this`used, buf
      ensures Valid() && Contents() == old(Contents()) + b
    {
      var w, k := Slices(|b|);
      WriteBytes(buf, w, b[..k]);
      WriteBytes(buf, 0, b[k..]);
      TwoSlicesAppend(old(buf[..]), start, used, b, w, k, buf[..]);
      used := used + |b|;
    }

    /** The assembler writing straight into an unwrapped chunk. */
    method FillInPlace(w: nat, rec: seq<Byte>)
      requires Valid() && used + |rec| <= buf.Length
      requires w == Wrap(buf.Length, start + used) && w + |rec| <= buf.Length
      modifies this`used, buf
      ensures Valid() && Contents() == old(Contents()) + rec
    {
      WriteBytes(buf, w, rec);
      assert rec[..|rec|] == rec && rec[|rec|..] == [];
      assert Splice(buf[..], 0, []) == buf[..];
      TwoSlicesAppend(old(buf[..]), start, used, rec, w, |rec|, buf[..]);
      used := used + |rec|;
    }

    /** `read_chunk`, the two copies and `commit_all`. */
    method ReadChunk(n: nat) returns (out: seq<Byte>)
      requires Valid() && n <= used
      modifies this`start, this`used
      ensures Valid() && out == old(Contents())[..n] && Contents() == old(Contents())[n..]
    {
      var k := if n <= buf.Length - start then n else buf.Length - start;
      TwoSlicesTake(buf[..], start, used, n, k);
      out := buf[start..start + k] + buf[..n - k];
      assert buf[..][start..start + k] == buf[start..start + k] && buf[..][..n - k] == buf[..n - k];
      start := if start + n < buf.Length then start + n else start + n - buf.Length;
      used := used - n;
    }

    /** `pop_available`: everything readable when it starts, appended to `out0`. */
    method PopAvailable(out0: seq<Byte>) returns (out: seq<Byte>)
      requires Valid()
      modifies this`start, this`used
      ensures Valid() && out == out0 + old(Contents()) && Contents() == []
    {
      out := out0;
      if used == 0 { return; }
      var available, written := used, 0;
      while written < available
        invariant 0 <= written <= available && Valid() && used == available - written
        invariant out + Contents() == out0 + old(Contents())
      {
        ghost var before := Contents();
        var chunk := ReadChunk(available - written);
        assert before == chunk + Contents();
        Assoc(out, chunk, Contents());
        out := out + chunk;
        written := written + |chunk|;
      }
    }
  }

  // ---------------------------------------------------------------- The producer

  /** The producer's side as values. */
  datatype Pipe = Pipe(ring: seq<Byte>, staged: seq<Byte>, stagedRecords: nat, chunkSize: nat)

  /** One commit: straight into the ring, into the staging buffer, or into the
  staging buffer and the whole of it into the ring. */
  function Committed(p: Pipe, b: seq<Byte>): Pipe {
    if p.staged == [] && p.chunkSize <= 1 then p.(ring := p.ring + b)
    else
      var s, n := p.staged + b, p.stagedRecords + 1;
      if n >= p.chunkSize && s != [] then p.(ring := p.ring + s, staged := [], stagedRecords := 0)
      else p.(staged := s, stagedRecords := n)
  }

  /** Room as `reserve` tests it. */
  predicate Room(capacity: nat, p: Pipe, total: nat) { |p.ring| + |p.staged| + total < capacity }

  /** On every path a commit appends to the stream, and after a successful
  reserve what it leaves in the ring fits. */
  lemma CommitAppends(capacity: nat, p: Pipe, b: seq<Byte>)
    ensures Committed(p, b).ring + Committed(p, b).staged == p.ring + p.staged + b
    ensures Room(capacity, p, |b|) ==>
              |Committed(p, b).ring| + |Committed(p, b).staged| < capacity
  {
  }

  /** When bytes move: a record that leaves its batch short is staged and nothing
  reaches the ring; one that fills the batch takes the whole of it along, and so
  nothing stays staged. */
  lemma CommitMoves(p: Pipe, b: seq<Byte>)
    requires b != [] && (p.staged == [] <==> p.stagedRecords == 0)
    ensures p.stagedRecords + 1 < p.chunkSize ==>
              Committed(p, b) == Pipe(p.ring, p.staged + b, p.stagedRecords + 1, p.chunkSize)
    ensures p.stagedRecords + 1 >= p.chunkSize ==>
              Committed(p, b) == Pipe(p.ring + p.staged + b, [], 0, p.chunkSize)
  {
    if p.staged == [] { assert p.ring + p.staged == p.ring; } else { Assoc(p.ring, p.staged, b); }
    assert p.staged == [] ==> p.staged + b == b;
  }

  class RingProducer {
    const ring: ByteRing
    var staged: seq<Byte>
    var stagedRecords: nat
    var chunkSize: nat

    ghost predicate Valid()
      reads this, ring
    {
      ring.Valid()
    }

    ghost function Value(): Pipe
      requires Valid()
      reads this, ring, ring.buf
    {
      Pipe(ring.Contents(), staged, stagedRecords, chunkSize)
    }

    /** `split`: one slot of the power-of-two capacity is given up. */
    constructor (capacity: nat, chunk: nat)
      requires capacity >= 64
      ensures Valid() && fresh(ring) && fresh(ring.buf) && ring.buf.Length == capacity - 1
      ensures Value() == Pipe([], [], 0, if chunk > 1 then chunk else 1)
    {
      ring := new ByteRing(capacity - 1);
      staged, stagedRecords := [], 0;
      chunkSize := if chunk > 1 then chunk else 1;
    }

    method SetChunkSize(n: nat)
      requires Valid()
      modifies this`chunkSize
      ensures Value() == old(Value()).(chunkSize := if n > 0 then n else old(chunkSize))
    {
      if n > 0 { chunkSize := n; }
    }

    /** One turn of `reserve`, `live` being the producer's flag. The segmented
    policies wait here too. */
    method Reserve(total: nat, policy: RingProtocol.Policy, live: bool) returns (v: RingProtocol.Space)
      requires Valid()
      ensures v.Granted? <==> Room(ring.buf.Length, Value(), total)
      ensures v.Retry? <==> !Room(ring.buf.Length, Value(), total) && !policy.Drop? && live
    {
      var needed := |staged| + total;
      var room := ring.buf.Length;
      var free := ring.buf.Length - ring.used;
      var occupied := if free <= room then room - free else 0;
      if occupied + needed < room { return RingProtocol.Granted; }
      match policy {
        case Drop => return RingProtocol.Refused;
        case _ => return if live then RingProtocol.Retry else RingProtocol.Refused;
      }
    }

    method Commit(b: seq<Byte>)
      requires Valid() && Room(ring.buf.Length, Value(), |b|)
      modifies this`staged, this`stagedRecords, ring, ring.buf
      ensures Valid() && Value() == Committed(old(Value()), b)
    {
      if staged == [] && chunkSize <= 1 {
        if b != [] { ring.WriteChunk(b); }
        return;
      }
      staged := staged + b;
      stagedRecords := stagedRecords + 1;
      if stagedRecords >= chunkSize {
        Flush();
      }
    }

    method Flush()
      requires Valid() && ring.used + |staged| <= ring.buf.Length
      modifies this`staged, this`stagedRecords, ring, ring.buf
      ensures Valid()
      ensures Value() == if old(staged) == [] then old(Value())
                         else old(Value()).(ring := old(ring.Contents() + staged), staged := [], stagedRecords := 0)
    {
      if |staged| > 0 {
        ring.WriteChunk(staged);
        staged, stagedRecords := [], 0;
      }
    }

    /** `write_record`: `rec` is what the assembler writes. An unwrapped chunk is
    filled in place, a wrapped one through the scratch buffer, a batched one in
    the staging buffer; the outcome is that of `commit`. */
    method WriteRecord(rec: seq<Byte>) returns (scratch: seq<Byte>)
      requires Valid() && Room(ring.buf.Length, Value(), |rec|)
      modifies this`staged, this`stagedRecords, ring, ring.buf
      ensures Valid() && Value() == Committed(old(Value()), rec)
    {
      scratch := [];
      if staged == [] && chunkSize <= 1 {
        if |rec| > 0 {
          var w, k := ring.Slices(|rec|);
          if k == |rec| {
            ring.FillInPlace(w, rec);
          } else {
            scratch := rec;
            ring.WriteChunk(scratch);
          }
        }
        return;
      }
      staged := staged + rec;
      stagedRecords := stagedRecords + 1;
      if stagedRecords >= chunkSize {
        Flush();
      }
    }
  }

  // ---------------------------------------------------------------- The drain pass

  function Concat(rs: seq<Record>): seq<Byte> {
    if rs == [] then [] else Concat(rs[..|rs| - 1]) + rs[|rs| - 1]
  }

  predicate AllValid(rs: seq<Record>) { forall i | 0 <= i < |rs| :: ValidRecord(rs[i]) }

  lemma {:induction false} ConcatAppends(rs: seq<Record>, qs: seq<Record>)
    ensures Concat(rs + qs) == Concat(rs) + Concat(qs)
    decreases |qs|
  {
    if qs == [] {
      assert rs + qs == rs;
    } else {
      var init, last := qs[..|qs| - 1], qs[|qs| - 1];
      var all := rs + qs;
      assert all[..|all| - 1] == rs + init && all[|all| - 1] == last;
      ConcatAppends(rs, init);
      Assoc(Concat(rs), Concat(init), last);
    }
  }

  lemma ConcatOne(r: Record)
    ensures Concat([r]) == r
  {
    assert [r][..0] == [] && [] + r == r;
  }

  lemma ConcatEmpty(rs: seq<Record>)
    requires AllValid(rs)
    ensures Concat(rs) == [] <==> rs == []
  {
    if rs != [] { assert |Concat(rs)| >= |rs[|rs| - 1]| && ValidRecord(rs[|rs| - 1]); }
  }

  /** The records of a pass and the bytes it leaves over. `Hangs` is a filler of
  size zero, on which the loop never advances. */
  datatype Pass = Pass(records: seq<Record>, left: seq<Byte>) | Hangs

  function Found(r: Record, p: Pass): Pass { Preceded([r], p) }

  /** The FIFO `drain_ring` loop. */
  function Parse(s: seq<Byte>): Pass
    decreases |s|
  {
    if |s| < HEADER_SIZE then Pass([], s)
    else
      var total := U16Of(s[2], s[3]);
      if s[1] == END_OF_BUFFER then
        if total > |s| then Pass([], s) else if total == 0 then Hangs else Parse(s[total..])
      else if s[0] != VERSION || s[1] != LOG_RECORD || total < HEADER_SIZE then Parse(s[1..])
      else if total > |s| then Pass([], s)
      else Found(s[..total], Parse(s[total..]))
  }

  lemma ParseFirst(r: Record, rest: seq<Byte>)
    requires ValidRecord(r)
    ensures Parse(r + rest) == Found(r, Parse(rest))
  {
    var s := r + rest;
    assert s[..|r|] == r && s[|r|..] == rest;
  }

  /** A filler is stepped over, an incomplete frame and a rest shorter than a header
  are kept, a filler of size nought is never left, and bytes that are neither a
  filler nor a record of this version are skipped one at a time. */
  lemma ParseCases(s: seq<Byte>)
    ensures |s| < 16 ==> Parse(s) == Pass([], s)
    ensures |s| >= 16 && s[1] == 2 ==>
              var n := s[2] as int + 256 * s[3] as int;
              Parse(s) == if n > |s| then Pass([], s) else if n == 0 then Hangs else Parse(s[n..])
    ensures |s| >= 16 && s[1] != 2 && (s[0] != 2 || s[1] != 1 || s[2] as int + 256 * s[3] as int < 16) ==>
              Parse(s) == Parse(s[1..])
    ensures |s| >= 16 && s[0] == 2 && s[1] == 1 && s[2] as int + 256 * s[3] as int > |s| ==> Parse(s) == Pass([], s)
  {
  }

  /** Skipping does not find the next record: the version byte that a record starts
  with is also the code of a filler, so a record right behind any stray byte is
  taken for a filler, of a size made of its type byte and its low size byte. */
  lemma ResyncMisses(c: Byte, r: Record, rest: seq<Byte>)
    requires ValidRecord(r)
    ensures var s := [c] + (r + rest);
            var n := 1 + 256 * (|r| % 256);
            Parse(s) == if n > |s| then Pass([], s) else Parse(s[n..])
  {
    var s := [c] + (r + rest);
    assert s[1] == r[0] && s[2] == r[1] && s[3] == r[2];
    LowByte(r[2], r[3]);
    ParseCases(s);
  }

  lemma LowByte(lo: Byte, hi: Byte)
    ensures U16Of(lo, hi) % 256 == lo as int
  {
  }

  /** A stream of whole records is parsed into those records, and nothing is left
  over: clearing the staging buffer before the next pass loses nothing. */
  lemma {:induction false} ParseWhole(rs: seq<Record>)
    requires AllValid(rs)
    ensures Parse(Concat(rs)) == Pass(rs, [])
    decreases |rs|
  {
    if rs != [] {
      var first, rest := [rs[0]], rs[1..];
      assert rs == first + rest;
      ConcatAppends(first, rest);
      ConcatOne(rs[0]);
      ParseFirst(rs[0], Concat(rest));
      ParseWhole(rest);
    }
  }

  /** One turn of the drain loop: it waits for more, spins in place, or moves on
  with the record it found, if any. */
  datatype Turn = Wait | Spin | Move(next: nat, found: seq<Record>)

  /** What a turn is to the parse of the bytes from `pos` on. */
  function Outcome(t: Turn, s: seq<Byte>, pos: nat): Pass
    requires pos <= |s| && (t.Move? ==> t.next <= |s|)
  {
    match t
    case Wait => Pass([], s[pos..])
    case Spin => Hangs
    case Move(next, found) => Preceded(found, Parse(s[next..]))
  }

  lemma FillerTurn(s: seq<Byte>, pos: nat, total: nat)
    requires pos + HEADER_SIZE <= |s| && total == U16Of(s[pos + 2], s[pos + 3]) && s[pos + 1] == END_OF_BUFFER
    ensures Parse(s[pos..])
            == Outcome(if pos + total > |s| then Wait else if total == 0 then Spin else Move(pos + total, []), s, pos)
  {
    Slice(s, pos, total);
    if pos + total <= |s| { PrecededByNothing(Parse(s[pos + total..])); }
  }

  lemma CorruptTurn(s: seq<Byte>, pos: nat)
    requires pos + HEADER_SIZE <= |s| && s[pos + 1] != END_OF_BUFFER
    requires s[pos] != VERSION || s[pos + 1] != LOG_RECORD || U16Of(s[pos + 2], s[pos + 3]) < HEADER_SIZE
    ensures Parse(s[pos..]) == Outcome(Move(pos + 1, []), s, pos)
  {
    Slice(s, pos, 1);
    PrecededByNothing(Parse(s[pos + 1..]));
  }

  lemma RecordTurn(s: seq<Byte>, pos: nat, total: nat)
    requires pos + HEADER_SIZE <= |s| && total == U16Of(s[pos + 2], s[pos + 3]) >= HEADER_SIZE
    requires s[pos] == VERSION && s[pos + 1] == LOG_RECORD
    ensures Parse(s[pos..])
            == Outcome(if pos + total > |s| then Wait else Move(pos + total, [s[pos..pos + total]]), s, pos)
  {
    Slice(s, pos, total);
  }

  method DrainTurn(s: seq<Byte>, pos: nat) returns (t: Turn)
    requires pos + HEADER_SIZE <= |s|
    ensures t.Move? ==> pos < t.next <= |s|
    ensures Parse(s[pos..]) == Outcome(t, s, pos)
  {
    var total := U16Of(s[pos + 2], s[pos + 3]);
    if s[pos + 1] == END_OF_BUFFER {
      FillerTurn(s, pos, total);
      if pos + total > |s| { return Wait; }
      if total == 0 { return Spin; }
      return Move(pos + total, []);
    }
    if s[pos] != VERSION || s[pos + 1] != LOG_RECORD || total < HEADER_SIZE {
      CorruptTurn(s, pos);
      return Move(pos + 1, []);
    }
    RecordTurn(s, pos, total);
    if pos + total > |s| { return Wait; }
    return Move(pos + total, [s[pos..pos + total]]);
  }

  /** The loop, on the staging buffer the ring was popped into. */
  method DrainFifo(staging: seq<Byte>) returns (out: seq<Record>, pos: nat, hangs: bool)
    ensures pos <= |staging|
    ensures Parse(staging) == if hangs then Hangs else Pass(out, staging[pos..])
  {
    out, pos, hangs := [], 0, false;
    assert staging[0..] == staging;
    PrecededByNothing(Parse(staging));
    while |staging| - pos >= HEADER_SIZE
      invariant pos <= |staging| && Parse(staging) == Preceded(out, Parse(staging[pos..]))
      decreases |staging| - pos
    {
      var t := DrainTurn(staging, pos);
      match t {
        case Wait =>
          assert out + [] == out;
          return;
        case Spin => return out, pos, true;
        case Move(next, found) =>
          PrecededTwice(out, found, Parse(staging[next..]));
          out, pos := out + found, next;
      }
    }
    assert out + [] == out;
  }

  lemma PrecededByNothing(p: Pass)
    ensures Preceded([], p) == p
  {
    if p.Pass? { assert [] + p.records == p.records; }
  }

  lemma Slice(s: seq<Byte>, pos: nat, n: nat)
    ensures pos + n <= |s| ==> s[pos..][..n] == s[pos..pos + n] && s[pos..][n..] == s[pos + n..]
  {
  }

  function Preceded(rs: seq<Record>, p: Pass): Pass { if p.Hangs? then p else p.(records := rs + p.records) }

  lemma PrecededTwice(rs: seq<Record>, found: seq<Record>, p: Pass)
    ensures Preceded(rs, Preceded(found, p)) == Preceded(rs + found, p)
  {
    if p.Pass? { Assoc(rs, found, p.records); }
  }

  // ---------------------------------------------------------------- Runs

  /** Producer and drain interleaved. A reserve and the commit it allows are two
  steps, so pops may come between; the chunk size may change at any time. */
  datatype State = State(
    pipe: Pipe, granted: Option<Record>,
    // Histories: records committed, bytes popped, records delivered, bytes a
    // pass left in the staging buffer.
    committed: seq<Record>, popped: seq<Byte>, delivered: seq<Record>, lost: seq<Byte>)

  datatype Action = ReserveFor(rec: Record) | CommitRecord | ChangeChunk(n: nat) | DrainPass

  ghost predicate Init(s: State) {
    s == State(Pipe([], [], 0, s.pipe.chunkSize), None, [], [], [], [])
  }

  ghost predicate Step(capacity: nat, s: State, a: Action, s': State) {
    match a
    case ReserveFor(rec) =>
      && s.granted.None? && ValidRecord(rec) && Room(capacity, s.pipe, |rec|)
      && s' == s.(granted := Some(rec))
    case CommitRecord =>
      && s.granted.Some?
      && s' == s.(pipe := Committed(s.pipe, s.granted.value), granted := None,
                  committed := s.committed + [s.granted.value])
    case ChangeChunk(n) => s' == s.(pipe := s.pipe.(chunkSize := n))
    case DrainPass =>
      && Parse(s.pipe.ring).Pass?
      && s' == s.(pipe := s.pipe.(ring := []), popped := s.popped + s.pipe.ring,
                  delivered := s.delivered + Parse(s.pipe.ring).records,
                  lost := s.lost + Parse(s.pipe.ring).left)
  }

  /** The records in the ring and in the staging buffer. */
  datatype Split = Split(inRing: seq<Record>, inStaging: seq<Record>)

  ghost predicate Inv(capacity: nat, s: State, w: Split) {
    && AllValid(s.committed) && AllValid(w.inRing) && AllValid(w.inStaging)
    && s.pipe.ring == Concat(w.inRing) && s.pipe.staged == Concat(w.inStaging)
    && s.committed == s.delivered + w.inRing + w.inStaging
    && s.popped == Concat(s.delivered) && s.lost == []
    && (s.granted.Some? ==> ValidRecord(s.granted.value) && Room(capacity, s.pipe, |s.granted.value|))
    && |s.pipe.ring| + |s.pipe.staged| < capacity
  }

  function SplitAfter(p: Pipe, w: Split, r: Record): Split {
    if p.staged == [] && p.chunkSize <= 1 then w.(inRing := w.inRing + [r])
    else if p.stagedRecords + 1 >= p.chunkSize then Split(w.inRing + (w.inStaging + [r]), [])
    else w.(inStaging := w.inStaging + [r])
  }

  ghost function NextSplit(s: State, a: Action, w: Split): Split {
    match a
    case CommitRecord => if s.granted.None? then w else SplitAfter(s.pipe, w, s.granted.value)
    case DrainPass => w.(inRing := [])
    case _ => w
  }

  /** A commit moves whole records. */
  lemma CommitMovesRecords(p: Pipe, w: Split, r: Record)
    requires AllValid(w.inRing) && AllValid(w.inStaging) && ValidRecord(r)
    requires p.ring == Concat(w.inRing) && p.staged == Concat(w.inStaging)
    ensures Committed(p, r).ring == Concat(SplitAfter(p, w, r).inRing)
    ensures Committed(p, r).staged == Concat(SplitAfter(p, w, r).inStaging)
  {
    ConcatOne(r);
    ConcatAppends(w.inRing, [r]);
    ConcatAppends(w.inStaging, [r]);
    ConcatAppends(w.inRing, w.inStaging + [r]);
  }

  lemma CommitKeepsRecords(p: Pipe, w: Split, r: Record, d: seq<Record>)
    requires AllValid(w.inRing) && AllValid(w.inStaging) && ValidRecord(r) && p.staged == Concat(w.inStaging)
    ensures var v := SplitAfter(p, w, r);
            && AllValid(v.inRing) && AllValid(v.inStaging)
            && d + w.inRing + w.inStaging + [r] == d + v.inRing + v.inStaging
  {
    ConcatEmpty(w.inStaging);
    Assoc(d + w.inRing, w.inStaging, [r]);
    Assoc(d, w.inRing, [r]);
    Assoc(d, w.inRing, w.inStaging + [r]);
  }

  lemma CommitKeepsInv(capacity: nat, s: State, s': State, w: Split)
    requires Inv(capacity, s, w) && Step(capacity, s, CommitRecord, s')
    ensures Inv(capacity, s', NextSplit(s, CommitRecord, w))
  {
    CommitMovesRecords(s.pipe, w, s.granted.value);
    CommitKeepsRecords(s.pipe, w, s.granted.value, s.delivered);
    CommitAppends(capacity, s.pipe, s.granted.value);
  }

  lemma DrainPassKeepsInv(capacity: nat, s: State, s': State, w: Split)
    requires Inv(capacity, s, w) && Step(capacity, s, DrainPass, s')
    ensures Inv(capacity, s', NextSplit(s, DrainPass, w))
  {
    ParseWhole(w.inRing);
    ConcatAppends(s.delivered, w.inRing);
    assert s.delivered + w.inRing + w.inStaging == (s.delivered + w.inRing) + [] + w.inStaging;
  }

  lemma StepKeepsInv(capacity: nat, s: State, a: Action, s': State, w: Split)
    requires Inv(capacity, s, w) && Step(capacity, s, a, s')
    ensures Inv(capacity, s', NextSplit(s, a, w))
  {
    match a
    case ReserveFor(_) =>
    case CommitRecord => CommitKeepsInv(capacity, s, s', w);
    case ChangeChunk(_) =>
    case DrainPass => DrainPassKeepsInv(capacity, s, s', w);
  }

  ghost predicate Run(capacity: nat, states: seq<State>, acts: seq<Action>) {
    && capacity > 0 && |states| == |acts| + 1 && Init(states[0])
    && forall i | 0 <= i < |acts| :: StepAt(capacity, states, acts, i)
  }

  ghost predicate StepAt(capacity: nat, states: seq<State>, acts: seq<Action>, i: nat)
    requires |states| == |acts| + 1 && i < |acts|
  {
    Step(capacity, states[i], acts[i], states[i + 1])
  }

  lemma {:induction false} RunKeepsInv(capacity: nat, states: seq<State>, acts: seq<Action>, i: nat) returns (w: Split)
    requires Run(capacity, states, acts) && i <= |acts|
    ensures Inv(capacity, states[i], w)
    decreases i
  {
    if i == 0 {
      w := Split([], []);
    } else {
      var v := RunKeepsInv(capacity, states, acts, i - 1);
      assert StepAt(capacity, states, acts, i - 1);
      StepKeepsInv(capacity, states[i - 1], acts[i - 1], states[i], v);
      w := NextSplit(states[i - 1], acts[i - 1], v);
    }
  }

  /** In every run: popped bytes, ring bytes and staged bytes, in that order, are
  the committed records; the ring never overflows, so a chunk flush after a
  successful reserve always finds room. */
  lemma StreamConserved(capacity: nat, states: seq<State>, acts: seq<Action>, i: nat)
    requires Run(capacity, states, acts) && i <= |acts|
    ensures var s := states[i];
            && s.popped + s.pipe.ring + s.pipe.staged == Concat(s.committed)
            && |s.pipe.ring| + |s.pipe.staged| < capacity
            && (s.granted.Some? ==> |Committed(s.pipe, s.granted.value).ring| < capacity)
  {
    var w := RunKeepsInv(capacity, states, acts, i);
    var s := states[i];
    ConcatAppends(s.delivered + w.inRing, w.inStaging);
    ConcatAppends(s.delivered, w.inRing);
    if s.granted.Some? { CommitAppends(capacity, s.pipe, s.granted.value); }
  }

  /** In every run a drain pass never hangs and uses up every byte it popped, so
  clearing the staging buffer between passes loses nothing: what was delivered
  is exactly a prefix of what was committed, and all of it once ring and staging
  are empty. */
  lemma PassesLoseNothing(capacity: nat, states: seq<State>, acts: seq<Action>, i: nat)
    requires Run(capacity, states, acts) && i <= |acts|
    ensures var s := states[i];
            && s.lost == [] && Parse(s.pipe.ring).Pass? && Parse(s.pipe.ring).left == []
            && s.delivered <= s.committed
            && (s.pipe.ring == [] == s.pipe.staged ==> s.delivered == s.committed)
  {
    var w := RunKeepsInv(capacity, states, acts, i);
    var s := states[i];
    ParseWhole(w.inRing);
    if s.pipe.ring == [] == s.pipe.staged {
      ConcatEmpty(w.inRing);
      ConcatEmpty(w.inStaging);
    }
  }

  // ---------------------------------------------------------------- Batches

  function Last(rs: seq<Record>, k: nat): seq<Record>
    requires k <= |rs|
  {
    rs[|rs| - k..]
  }

  /** The staged bytes are the last records committed, as many as are counted. */
  ghost predicate Batched(s: State) {
    s.pipe.stagedRecords <= |s.committed| && s.pipe.staged == Concat(Last(s.committed, s.pipe.stagedRecords))
  }

  lemma LastValid(rs: seq<Record>, k: nat)
    requires AllValid(rs) && k <= |rs|
    ensures Concat(Last(rs, k)) == [] <==> k == 0
  {
    ConcatEmpty(Last(rs, k));
  }

  lemma LastSnoc(rs: seq<Record>, k: nat, r: Record)
    requires k <= |rs|
    ensures Last(rs + [r], k + 1) == Last(rs, k) + [r] && Concat(Last(rs, k) + [r]) == Concat(Last(rs, k)) + r
  {
    ConcatAppends(Last(rs, k), [r]);
    ConcatOne(r);
  }

  lemma StepBatched(capacity: nat, s: State, a: Action, s': State)
    requires Step(capacity, s, a, s') && Batched(s) && AllValid(s.committed)
    requires s.granted.Some? ==> ValidRecord(s.granted.value)
    ensures Batched(s')
    ensures a.CommitRecord? ==>
              var k, c := s.pipe.stagedRecords, s'.committed;
              if k + 1 < s.pipe.chunkSize then s'.pipe.stagedRecords == k + 1 && s'.pipe.ring == s.pipe.ring
              else s'.pipe.stagedRecords == 0 && |c| > k && s'.pipe.ring == s.pipe.ring + Concat(Last(c, k + 1))
  {
    if a.CommitRecord? {
      var p, k, r := s.pipe, s.pipe.stagedRecords, s.granted.value;
      LastValid(s.committed, k);
      CommitMoves(p, r);
      LastSnoc(s.committed, k, r);
      Assoc(p.ring, p.staged, r);
    }
  }

  lemma {:induction false} RunIsBatched(capacity: nat, states: seq<State>, acts: seq<Action>, i: nat)
    requires Run(capacity, states, acts) && i <= |acts|
    ensures Batched(states[i])
    decreases i
  {
    if i > 0 {
      RunIsBatched(capacity, states, acts, i - 1);
      var w := RunKeepsInv(capacity, states, acts, i - 1);
      assert StepAt(capacity, states, acts, i - 1);
      StepBatched(capacity, states[i - 1], acts[i - 1], states[i]);
    }
  }

  /** In every run, with the chunk size changing at any time: a commit that leaves
  fewer than a chunk of records staged moves nothing to the ring; any other moves
  them all, and nothing stays staged. What is staged is always the last records
  committed. */
  lemma BatchMoves(capacity: nat, states: seq<State>, acts: seq<Action>, i: nat)
    requires Run(capacity, states, acts) && i < |acts| && acts[i].CommitRecord?
    ensures var s, s' := states[i], states[i + 1];
            var k, c := s.pipe.stagedRecords, s'.committed;
            && k <= |s.committed| && k < |c| && s'.pipe.stagedRecords <= |c|
            && s.pipe.staged == Concat(Last(s.committed, k))
            && s'.pipe.staged == Concat(Last(c, s'.pipe.stagedRecords))
            && (k + 1 < s.pipe.chunkSize ==> s'.pipe.stagedRecords == k + 1 && s'.pipe.ring == s.pipe.ring)
            && (k + 1 >= s.pipe.chunkSize ==>
                  s'.pipe.stagedRecords == 0 && s'.pipe.ring == s.pipe.ring + Concat(Last(c, k + 1)))
  {
    RunIsBatched(capacity, states, acts, i);
    RunIsBatched(capacity, states, acts, i + 1);
    var w := RunKeepsInv(capacity, states, acts, i);
    assert StepAt(capacity, states, acts, i);
    StepBatched(capacity, states[i], acts[i], states[i + 1]);
  }

  lemma {:induction false} NextOff(n: nat, x: nat)
    requires n > 0
    ensures Bits.Off(n, x + 1) == if Bits.Off(n, x) + 1 < n then Bits.Off(n, x) + 1 else 0
  {
    if x >= n { NextOff(n, x - n); }
  }

  lemma {:induction false} StagedCount(capacity: nat, states: seq<State>, acts: seq<Action>, i: nat, n: nat)
    requires Run(capacity, states, acts) && i <= |acts|
    requires n > 0 && states[0].pipe.chunkSize == n && forall j | 0 <= j < i :: !acts[j].ChangeChunk?
    ensures states[i].pipe.chunkSize == n && states[i].pipe.stagedRecords == Bits.Off(n, |states[i].committed|)
    decreases i
  {
    if i > 0 {
      StagedCount(capacity, states, acts, i - 1, n);
      assert StepAt(capacity, states, acts, i - 1);
      if acts[i - 1].CommitRecord? {
        CommitCounts(capacity, states, acts, i - 1);
        NextOff(n, |states[i - 1].committed|);
      }
    }
  }

  lemma CommitCounts(capacity: nat, states: seq<State>, acts: seq<Action>, i: nat)
    requires Run(capacity, states, acts) && i < |acts| && acts[i].CommitRecord?
    ensures var p, k := states[i].pipe, states[i].pipe.stagedRecords;
            && states[i + 1].pipe.stagedRecords == (if k + 1 < p.chunkSize then k + 1 else 0)
            && states[i + 1].pipe.chunkSize == p.chunkSize && |states[i + 1].committed| == |states[i].committed| + 1
  {
    BatchMoves(capacity, states, acts, i);
    assert StepAt(capacity, states, acts, i);
  }

  lemma CancelRight(a: seq<Byte>, b: seq<Byte>, c: seq<Byte>)
    requires a + c == b + c
    ensures a == b
  {
    assert |a| == |b|;
    assert a == (a + c)[..|a|] && b == (b + c)[..|b|];
  }

  /** With a chunk size of `n` throughout, whole batches of `n` records are in the ring
  or popped, and exactly the records of the unfinished batch are staged. */
  lemma WholeBatches(capacity: nat, states: seq<State>, acts: seq<Action>, i: nat, n: nat)
    requires Run(capacity, states, acts) && i <= |acts|
    requires n > 0 && states[0].pipe.chunkSize == n && forall j | 0 <= j < i :: !acts[j].ChangeChunk?
    ensures var s := states[i];
            var k := |s.committed| % n;
            && k <= |s.committed| && s.pipe.staged == Concat(Last(s.committed, k))
            && s.popped + s.pipe.ring == Concat(s.committed[..|s.committed| - k])
  {
    StagedCount(capacity, states, acts, i, n);
    Bits.OffIsRemainder(n, |states[i].committed|);
    RunIsBatched(capacity, states, acts, i);
    StreamConserved(capacity, states, acts, i);
    var s := states[i];
    var k := s.pipe.stagedRecords;
    var done := s.committed[..|s.committed| - k];
    assert s.committed == done + Last(s.committed, k);
    ConcatAppends(done, Last(s.committed, k));
    CancelRight(s.popped + s.pipe.ring, Concat(done), s.pipe.staged);
  }
}
