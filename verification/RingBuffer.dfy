/** The ring buffer object: the operations of `custom::RingBuffer` and the
drain loop, run by one thread at a time on the storage array. The interleaved
protocol is in `RingProtocol`; here each operation is shown to compute what the
protocol's steps compute, on the bit-masked indices the code uses. */
module RingBuffers {
  import opened Bits
  import opened Layout
  import opened RingFrames
  import opened RingProtocol

  datatype Reservation =
    | Slot(dst: nat, newHead: nat)
    | NoSlot(retry: bool)

  /** Copying the record into its slot leaves the filler before it intact, so
  the reservation is complete. */
  lemma CopyCompletes(c: Config, before: seq<Byte>, mem: seq<Byte>, head: nat, rec: Record)
    requires |before| == |mem| == c.capacity && Grantable(c, head, rec)
    requires Wraps(c, head, |rec|) ==>
               SliceIs(before, Off(c.capacity, head), EobBytes(FillerSpan(c, head, |rec|)))
    requires var dst := Off(c.capacity, RecordStart(c, head, |rec|));
             SliceIs(mem, dst, rec) && SameOutside(before, mem, dst, |rec|)
    ensures Framed(c, mem, head, GrantedFrames(c, head, rec), head + Needed(c, head, |rec|))
    ensures Records(GrantedFrames(c, head, rec)) == [rec]
  {
    assert Written(c, mem, head, rec) by {
      ReservationLayout(c, head, rec);
      var off := Off(c.capacity, head);
      if Wraps(c, head, |rec|) { assert mem[off..off + 4] == before[off..off + 4]; }
    }
    WrittenFrames(c, mem, head, rec);
  }

  /** A granted record has its place, and ends on a slot. */
  lemma CommitFits(c: Config, head: nat, rec: Record, tail: nat)
    requires Grantable(c, head, rec) && head + Needed(c, head, |rec|) + c.slot <= tail + c.capacity
    ensures Off(c.capacity, RecordStart(c, head, |rec|)) + |rec| <= c.capacity
    ensures RecordStart(c, head, |rec|) + |rec| <= tail + c.capacity
    ensures Off(c.slot, head + Needed(c, head, |rec|)) == 0
  {
    ReservationLayout(c, head, rec);
  }

  /** A granted filler has its place, and its span fits a u16. */
  lemma FillFits(c: Config, head: nat, total: nat, tail: nat)
    requires Off(c.slot, head) == 0 && total <= MAX_RECORD_SIZE && Wraps(c, head, total)
    requires head + Needed(c, head, total) < U64 && head + Needed(c, head, total) <= tail + c.capacity
    ensures 4 <= Remaining(c, head) == FillerSpan(c, head, total) < 65536
    ensures head + 4 <= tail + c.capacity
    ensures head + Remaining(c, head) == RecordStart(c, head, total) < U64
    ensures Remaining(c, head) % 65536 == Remaining(c, head)
  {
    FillerSpanBound(c, head, total);
  }

  lemma PrefixOf(mem: seq<Byte>, at: nat, b: seq<Byte>, prefix: seq<Byte>)
    requires SliceIs(mem, at, b) && |b| >= 4 && prefix == mem[at..at + 4]
    ensures prefix <= b
  {
    assert prefix == mem[at..at + |b|][..4];
  }

  lemma RecordsStep(done: seq<Record>, todo: Frames, all: seq<Record>)
    requires todo.Cons? && done + Records(todo) == all
    ensures done + RecordOf(todo.first) + Records(todo.rest) == all
  {
    Regroup(done, RecordOf(todo.first), Records(todo.rest), []);
  }

  lemma NothingAfterEnd(c: Config, mem: seq<Byte>, end: nat, todo: Frames, done: seq<Record>)
    requires Framed(c, mem, end, todo, end)
    ensures done + Records(todo) == done
  {
    if todo.Cons? { FramedUncons(c, mem, end, todo, end); }
  }

  class RingBuffer {
    const c: Config
    const log2Capacity: nat
    const log2Slot: nat
    const data: array<Byte>
    var head: nat
    var tailCache: nat
    var tail: nat
    var headCache: nat
    var live: bool
    var handedOff: bool
    var recycled: bool
    /** The frames between `tail` and `head`. */
    ghost var unread: Frames

    ghost predicate Shape()
    {
      && c.capacity == Pow2(log2Capacity) == data.Length && log2Capacity <= 63
      && c.slot == Pow2(log2Slot) && (log2Slot == 6 || log2Slot == 7) && log2Slot <= log2Capacity
    }

    ghost predicate IndicesOk()
      reads this
    {
      && tailCache <= tail == headCache <= head
      && head + c.slot <= tail + c.capacity
      && Off(c.slot, head) == 0 && Off(c.slot, tail) == 0
    }

    ghost predicate Valid()
      reads this, data
    {
      && Shape() && IndicesOk()
      && Framed(c, data[..], tail, unread, head)
    }

    /** What a consumer would read now. */
    ghost function Contents(): seq<Record>
      reads this
    {
      Records(unread)
    }

    constructor (k: nat, slotBits: nat, policy: Policy, fast: bool)
      requires (slotBits == 6 || slotBits == 7) && slotBits <= k <= 63
      ensures Valid() && fresh(data) && Contents() == [] && live && !handedOff && !recycled
      ensures head == tail == 0 && c == Setup(Pow2(k), Pow2(slotBits), policy, fast)
      ensures log2Capacity == k && log2Slot == slotBits
    {
      assert Pow2(6) == 64 && Pow2(7) == 128;
      Pow2Multiple(slotBits, k);
      Pow2Monotone(slotBits, k);
      c := Setup(Pow2(k), Pow2(slotBits), policy, fast);
      log2Capacity, log2Slot := k, slotBits;
      data := new Byte[Pow2(k)](_ => 0);
      head, tailCache, tail, headCache := 0, 0, 0, 0;
      live, handedOff, recycled := true, false, false;
      unread := End;
    }

    /** Index into the storage: `pos & (capacity - 1)`. */
    method Index(pos: nat) returns (off: nat)
      requires Shape()
      ensures off == Off(c.capacity, pos) < data.Length
    {
      off := And(pos, data.Length - 1);
      AndLowMask(pos, log2Capacity);
    }

    /** Occupancy after the write, in wrapping arithmetic, against a tail value. */
    method FitsBehind(needed: nat, behind: nat) returns (fits: bool)
      requires Shape() && behind <= head && head + needed < U64
      ensures fits <==> head + needed - behind < c.capacity
    {
      FitsIsOccupancy(c, head, needed, behind);
      fits := ((head + needed) % U64 + U64 - behind) % U64 <= data.Length - 1;
    }

    /** The test against the cached tail, then one turn of the refresh loop. The
    answer depends on the real tail alone: the cache never shows. */
    method TryEnsureCapacity(needed: nat) returns (v: Space)
      requires Valid() && head + needed < U64 && Off(c.slot, needed) == 0
      modifies this`tailCache
      ensures Valid() && tailCache <= tail
      ensures tailCache == if c.fastTailCache && head + needed - old(tailCache) < c.capacity then old(tailCache) else tail
      ensures v.Granted? <==> head + needed - tail < c.capacity
      ensures v.Retry? <==> !(head + needed - tail < c.capacity) && c.policy.Block? && live
    {
      var cached := FitsBehind(needed, tailCache);
      if cached {
        if !c.fastTailCache { tailCache := tail; }
        return Granted;
      }
      tailCache := tail;
      var fits := FitsBehind(needed, tail);
      if fits { return Granted; }
      match c.policy {
        case Drop => return Refused;
        case NanoLog => return Refused;
        case Quill => return Refused;
        case Block => return if live then Retry else Refused;
      }
    }

    /** `write_eob`: a filler header of `span` bytes at the write position. */
    method WriteEob(off: nat, span: nat)
      requires Valid() && off == Off(c.capacity, head) && off + 4 <= c.capacity
      requires head + 4 <= tail + c.capacity
      modifies data
      ensures Valid() && SliceIs(data[..], off, EobBytes(span))
      ensures SameOutside(old(data[..]), data[..], off, 4)
    {
      data[off] := VERSION;
      data[off + 1] := END_OF_BUFFER;
      data[off + 2] := span % 256;
      data[off + 3] := span / 256 % 256;
      FramedUndisturbed(c, old(data[..]), tail, unread, head, head, 4, data[..]);
    }

    /** `align_up(n, SLOT_SIZE)`. */
    method SlotAlign(n: nat) returns (a: nat)
      requires Shape() && n <= MAX_RECORD_SIZE
      ensures a == Aligned(c, n)
    {
      AlignUpRounds(n, log2Slot, c.slot);
      a := AlignUp(n, c.slot);
    }

    /** `wrapping_add`. */
    method After(pos: nat, n: nat) returns (next: nat)
      requires pos + n < U64
      ensures next == pos + n
    {
      next := (pos + n) % U64;
    }

    /** Writes the filler of a granted reservation, if it wraps, and gives the
    position the record goes to. */
    method Fill(total: nat, wrap: bool, offset: nat, remaining: nat) returns (next: nat)
      requires Valid() && total <= MAX_RECORD_SIZE
      requires wrap == Wraps(c, head, total) && offset == Off(c.capacity, head) && remaining == Remaining(c, head)
      requires head + Needed(c, head, total) < U64 && head + Needed(c, head, total) <= tail + c.capacity
      modifies data
      ensures Valid() && next == RecordStart(c, head, total)
      ensures wrap ==> SliceIs(data[..], offset, EobBytes(FillerSpan(c, head, total)))
      ensures SameOutside(old(data[..]), data[..], offset, if wrap then 4 else 0)
    {
      next := head;
      if wrap {
        FillFits(c, head, total, tail);
        WriteEob(offset, remaining % 65536);
        next := After(next, remaining);
      }
    }

    /** Space for a record of `total` bytes: granted exactly when filler and
    record fit behind the real tail. Only filler bytes are stored. */
    method Reserve(total: nat) returns (r: Reservation)
      requires Valid() && total <= MAX_RECORD_SIZE && head + Needed(c, head, total) < U64
      modifies this`tailCache, data
      ensures Valid()
      ensures r.Slot? <==> head + Needed(c, head, total) - tail < c.capacity
      ensures r.NoSlot? ==> (r.retry <==> c.policy.Block? && live)
      ensures r.Slot? ==>
                && r.dst == Off(c.capacity, RecordStart(c, head, total))
                && r.newHead == head + Needed(c, head, total)
      ensures r.Slot? && Wraps(c, head, total) ==>
                SliceIs(data[..], Off(c.capacity, head), EobBytes(FillerSpan(c, head, total)))
      ensures SameOutside(old(data[..]), data[..], Off(c.capacity, head),
                          if r.Slot? && Wraps(c, head, total) then 4 else 0)
    {
      var aligned := SlotAlign(total);
      var offset := Index(head);
      var remaining := data.Length - offset;
      var wrap := aligned > remaining;
      NeededIsAligned(c, head, total);
      var v := TryEnsureCapacity(if wrap then aligned + remaining else aligned);
      if !v.Granted? { return NoSlot(v.Retry?); }
      r := Place(total, aligned, wrap, offset, remaining);
    }

    /** The slot of a granted reservation, behind its filler. */
    method Place(total: nat, aligned: nat, wrap: bool, offset: nat, remaining: nat) returns (r: Reservation)
      requires Valid() && total <= MAX_RECORD_SIZE && aligned == Aligned(c, total)
      requires wrap == Wraps(c, head, total) && offset == Off(c.capacity, head) && remaining == Remaining(c, head)
      requires head + Needed(c, head, total) < U64 && head + Needed(c, head, total) <= tail + c.capacity
      modifies data
      ensures Valid() && r.Slot? && r.dst == Off(c.capacity, RecordStart(c, head, total))
      ensures r.newHead == head + Needed(c, head, total)
      ensures wrap ==> SliceIs(data[..], offset, EobBytes(FillerSpan(c, head, total)))
      ensures SameOutside(old(data[..]), data[..], offset, if wrap then 4 else 0)
    {
      var next := Fill(total, wrap, offset, remaining);
      var dst := Index(next);
      var newHead := After(next, aligned);
      return Slot(dst, newHead);
    }

    /** Publishes the frames written since: they join what the drain will read. */
    method Publish(newHead: nat, ghost more: Frames)
      requires Valid() && Framed(c, data[..], head, more, newHead)
      requires Off(c.slot, newHead) == 0 && newHead + c.slot <= tail + c.capacity
      modifies this`head, this`unread
      ensures Valid() && head == newHead && Contents() == old(Contents()) + Records(more)
    {
      TilesForward(Lies(c, data[..]), head, more, newHead);
      TilesAppend(Lies(c, data[..]), tail, unread, head, more, newHead);
      RecordsAppend(unread, more);
      head := newHead;
      unread := Append(unread, more);
    }

    /** Copies the record into its reserved slot. */
    method CopyRecord(rec: Record, dst: nat, ghost next: nat)
      requires Valid() && head <= next && dst == Off(c.capacity, next)
      requires dst + |rec| <= c.capacity && next + |rec| <= tail + c.capacity
      modifies data
      ensures Valid() && SliceIs(data[..], dst, rec)
      ensures SameOutside(old(data[..]), data[..], dst, |rec|)
    {
      for k := 0 to |rec|
        invariant forall i | 0 <= i < k :: data[dst + i] == rec[i]
        invariant SameOutside(old(data[..]), data[..], dst, |rec|)
      {
        data[dst + k] := rec[k];
      }
      FramedUndisturbed(c, old(data[..]), tail, unread, head, next, |rec|, data[..]);
    }

    /** Writes a reserved record into its slot and publishes it. */
    method Commit(rec: Record, dst: nat, newHead: nat)
      requires Valid() && Grantable(c, head, rec) && dst == Off(c.capacity, RecordStart(c, head, |rec|))
      requires newHead == head + Needed(c, head, |rec|) && newHead + c.slot <= tail + c.capacity
      requires Wraps(c, head, |rec|) ==>
                 SliceIs(data[..], Off(c.capacity, head), EobBytes(FillerSpan(c, head, |rec|)))
      modifies this`head, this`unread, data
      ensures Valid() && head == newHead && Contents() == old(Contents()) + [rec]
    {
      CommitFits(c, head, rec, tail);
      CopyRecord(rec, dst, RecordStart(c, head, |rec|));
      CopyCompletes(c, old(data[..]), data[..], head, rec);
      Publish(newHead, GrantedFrames(c, head, rec));
    }

    /** Reserve, write and publish one record: it joins the contents exactly
    when the space was granted, and otherwise nothing a reader sees changes. */
    method Log(rec: Record) returns (v: Space)
      requires Valid() && ValidRecord(rec) && head + Needed(c, head, |rec|) < U64
      modifies this`tailCache, this`head, this`unread, data
      ensures Valid()
      ensures v.Granted? <==> old(head + Needed(c, head, |rec|) - tail < c.capacity)
      ensures v.Retry? <==> !v.Granted? && c.policy.Block? && live
      ensures Contents() == old(Contents()) + (if v.Granted? then [rec] else [])
    {
      var r := Reserve(|rec|);
      if r.NoSlot? { return if r.retry then Retry else Refused; }
      NeededIsAligned(c, head, |rec|);
      OffMultiplesAdd(c.slot, head, Needed(c, head, |rec|));
      OccupancyLeavesSlot(c, r.newHead, tail);
      Commit(rec, r.dst, r.newHead);
      return Granted;
    }

    /** Reads the four-byte prefix at `t` and judges it: the frame `f` that lies
    there is recognised, so the empty and the corrupt answers never come. */
    method ReadPrefix(t: nat, ghost f: Frame) returns (offset: nat, v: Verdict)
      requires Shape() && Holds(c, data[..], t, f)
      ensures offset == Off(c.capacity, t)
      ensures v == if f.Rec? then Verdict.Log(|f.rec|) else Skip(f.size)
      ensures v.Log? ==> offset + v.size <= data.Length && data[offset..offset + v.size] == f.rec
    {
      offset := Index(t);
      ghost var mem, n := data[..], |FrameBytes(f)|;
      var prefix := data[offset..offset + 4];
      PrefixOf(mem, offset, FrameBytes(f), prefix);
      FrameClassified(c, t, f, prefix);
      v := Classify(c, t, prefix);
      assert data[offset..offset + n] == mem[offset..offset + n];
    }

    /** One turn of the drain loop, over the frame `f` at the cursor. `stop`
    is the loop's early exit on an empty slot or a corrupt frame. */
    method DrainFrame(t: nat, hc: nat, ghost f: Frame) returns (next: nat, stop: bool, out: seq<Record>)
      requires Shape() && Holds(c, data[..], t, f)
      ensures !stop && out == RecordOf(f) && next == t + f.size
    {
      var offset, v := ReadPrefix(t, f);
      next, stop, out := t, false, [];
      match v {
        case Empty => stop := true;
        case Corrupt => next, stop := hc, true;
        case Skip(size) =>
          next := Past(t, size, f);
        case Log(size) =>
          out := [data[offset..offset + size]];
          next := Past(t, size, f);
      }
    }

    /** The same over the first of the frames `todo` before the goal. */
    method DrainNext(t: nat, hc: nat, ghost mem: seq<Byte>, ghost todo: Frames)
      returns (next: nat, stop: bool, out: seq<Record>)
      requires Shape() && mem == data[..] && t < hc && Framed(c, mem, t, todo, hc)
      ensures todo.Cons? && !stop && out == RecordOf(todo.first)
      ensures t < next <= hc && Framed(c, mem, next, todo.rest, hc)
    {
      FramedUncons(c, mem, t, todo, hc);
      next, stop, out := DrainFrame(t, hc, todo.first);
    }

    /** The position behind a frame. */
    method Past(t: nat, size: nat, ghost f: Frame) returns (next: nat)
      requires Shape() && FrameOk(c, t, f) && size == (if f.Rec? then |f.rec| else f.size)
      ensures next == t + f.size
    {
      var a := SlotAlign(size);
      next := t + a;
    }

    /** The drain loop from `from` to `hc`, over the frames `fs` between them. */
    method DrainLoop(from: nat, hc: nat, ghost fs: Frames) returns (t: nat, out: seq<Record>)
      requires Shape() && from <= hc && Framed(c, data[..], from, fs, hc)
      ensures t == hc && out == Records(fs)
    {
      t, out := from, [];
      var stop := false;
      ghost var todo, mem := fs, data[..];
      while t < hc && !stop
        invariant !stop && t <= hc && Framed(c, mem, t, todo, hc)
        invariant out + Records(todo) == Records(fs)
        decreases hc - t
      {
        var next, delivered;
        next, stop, delivered := DrainNext(t, hc, mem, todo);
        RecordsStep(out, todo, Records(fs));
        t, out, todo := next, out + delivered, todo.rest;
      }
      NothingAfterEnd(c, mem, t, todo, out);
    }

    /** `drain_ring_inner` with a raw sink: delivers every record between `tail`
    and `head` and publishes the new tail. */
    method DrainRing() returns (out: seq<Record>)
      requires Valid()
      modifies this`tail, this`headCache, this`unread
      ensures Valid() && tail == headCache == head
      ensures out == old(Contents()) && Contents() == []
    {
      var t, hc := tail, headCache;
      if t == hc { hc := head; }
      TilesForward(Lies(c, data[..]), tail, unread, head);
      t, out := DrainLoop(t, hc, unread);
      tail, headCache := t, hc;
      unread := End;
    }

    /** `reset_for_reuse`: rewinds the control state of a parked segment. What it
    still held is gone, so callers must have drained it first. */
    method ResetForReuse()
      requires Shape()
      modifies this
      ensures Valid() && head == tail == 0 && Contents() == []
      ensures live && !handedOff && !recycled
    {
      head, tail, tailCache, headCache := 0, 0, 0, 0;
      handedOff, recycled, live := false, false, true;
      unread := End;
    }
  }
}
