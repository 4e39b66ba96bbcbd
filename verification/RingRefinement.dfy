/** The byte-level ring protocol refines the one-step passes of the system model.

A protocol state is seen as a ring of the system by taking a record for handed
over as soon as the drain has loaded a `head` behind it. Under this view loading
the head of a pass is the system's drain step, publishing is its publish step,
and every other access to shared memory changes nothing. */
module RingRefinement {
  import opened Layout
  import opened RingFrames
  import P = RingProtocol
  import L = LoggerSystem
  import opened RingSync

  /** The ring as the system sees it; `base` supplies the fields of the system that
  the protocol does not have. */
  function View(base: L.Ring, s: P.State, u: P.Unread): L.Ring {
    base.(unread := Records(u.later), published := s.published, live := s.live)
  }

  /** What the system takes for delivered: what the sink has, and the rest of the
  pass under way. */
  function Handed(s: P.State, u: P.Unread): seq<Record> { s.delivered + Records(u.toRead) }

  /** What one step of the protocol is to the system. */
  ghost predicate StepSeen(a: P.Action, rec: Record, x: L.Ring, h: seq<Record>, x': L.Ring, h': seq<Record>) {
    match a
    case Publish => x' == x.(unread := x.unread + [rec], published := x.published + [rec]) && h' == h
    case StartPass => x' == x.(unread := []) && h' == h + x.unread
    case MarkDead => x' == x.(live := false) && h' == h
    case _ => x' == x && h' == h
  }

  lemma NothingLeft(c: P.Config, s: P.State, u: P.Unread)
    requires P.Inv(c, s, u) && s.drain.Resting? && s.tail == s.head
    ensures u.later.End? && u.toRead.End?
  {
    if u.later.Cons? { P.FramedUncons(c, s.mem, s.tail, u.later, s.head); }
  }

  lemma StartPassSeen(c: P.Config, s: P.State, s': P.State, u: P.Unread, base: L.Ring)
    requires P.Inv(c, s, u) && P.StartPassStep(s, s')
    ensures var u' := P.NextUnread(c, s, P.StartPass, u);
            && View(base, s', u') == View(base, s, u).(unread := [])
            && Handed(s', u') == Handed(s, u) + Records(u.later)
  {
    if s.tail == s.head {
      NothingLeft(c, s, u);
      assert Handed(s, u) + [] == Handed(s, u);
    } else {
      assert s.delivered + [] == s.delivered;
    }
  }

  lemma PublishSeen(c: P.Config, s: P.State, s': P.State, u: P.Unread, base: L.Ring)
    requires P.Inv(c, s, u) && P.PublishStep(c, s, s')
    ensures var rec, x := s.producer.rec, View(base, s, u);
            var u' := P.NextUnread(c, s, P.Publish, u);
            && View(base, s', u') == x.(unread := x.unread + [rec], published := x.published + [rec])
            && Handed(s', u') == Handed(s, u)
  {
    P.WritingIsGrantable(c, s);
    var more := P.GrantedFrames(c, s.head, s.producer.rec);
    P.WrittenFrames(c, s.mem, s.head, s.producer.rec);
    RecordsAppend(u.later, more);
  }

  lemma DispatchSeen(c: P.Config, s: P.State, s': P.State, u: P.Unread)
    requires P.Inv(c, s, u) && P.DispatchStep(c, s, s')
    ensures Handed(s', P.NextUnread(c, s, P.Dispatch, u)) == Handed(s, u)
    ensures s'.published == s.published && s'.live == s.live
  {
    P.FrameDispatched(c, s, u);
    P.Regroup(s.delivered, RecordOf(u.toRead.first), Records(u.toRead.rest), []);
  }

  /** The record being written, if one is. */
  function Current(s: P.State): Record { if s.producer.Writing? then s.producer.rec else [] }

  /** Every step of the protocol is a publish, a drain of the whole ring, a mark, or
  nothing at all, to the system. */
  lemma StepRefines(c: P.Config, s: P.State, a: P.Action, s': P.State, u: P.Unread, base: L.Ring)
    requires P.Inv(c, s, u) && P.Step(c, s, a, s')
    ensures var u' := P.NextUnread(c, s, a, u);
            StepSeen(a, Current(s), View(base, s, u), Handed(s, u), View(base, s', u'), Handed(s', u'))
  {
    if a.StartPass? { StartPassSeen(c, s, s', u, base); }
    else if a.Publish? { PublishSeen(c, s, s', u, base); }
    else if a.Dispatch? { DispatchSeen(c, s, s', u); }
    else { OtherSeen(c, s, a, s', u); }
  }

  /** Byte stores, loads, reads and the end of a pass. */
  lemma OtherSeen(c: P.Config, s: P.State, a: P.Action, s': P.State, u: P.Unread)
    requires P.Inv(c, s, u) && P.Step(c, s, a, s') && !a.StartPass? && !a.Publish? && !a.Dispatch?
    ensures s'.published == s.published && s'.delivered == s.delivered
    ensures s'.live == (s.live && !a.MarkDead?) && P.NextUnread(c, s, a, u) == u
  {
  }

  /** In every run of the protocol, at every step. */
  lemma RunRefines(c: P.Config, states: seq<P.State>, acts: seq<P.Action>, i: nat, base: L.Ring)
    requires P.Run(c, states, acts) && i < |acts|
    ensures var u, u' := P.Witness(c, states, acts, i), P.Witness(c, states, acts, i + 1);
            StepSeen(acts[i], Current(states[i]),
                     View(base, states[i], u), Handed(states[i], u),
                     View(base, states[i + 1], u'), Handed(states[i + 1], u'))
  {
    P.RunKeepsInv(c, states, acts, i);
    assert P.StepAt(c, states, acts, i);
    StepRefines(c, states[i], acts[i], states[i + 1], P.Witness(c, states, acts, i), base);
  }

  /** Between passes the two sinks agree, and during a pass the real one is a
  prefix: what the system calls delivered is on its way. */
  lemma SinkCatchesUp(c: P.Config, s: P.State, u: P.Unread)
    requires P.Inv(c, s, u)
    ensures s.delivered <= Handed(s, u)
    ensures s.drain.Resting? ==> Handed(s, u) == s.delivered
  {
    if s.drain.Resting? { assert s.delivered + [] == s.delivered; }
  }

  // ---------------------------------------------------------------- Inside the system

  /** Ring `r` of the system is the protocol state, seen this way, after the records
  of its `earlier` incarnations: a pool segment is rewound and used again, and the
  system's histories go on. */
  ghost predicate Mirrors(sys: L.State, r: RingId, earlier: seq<Record>, s: P.State, u: P.Unread) {
    && r in sys.rings
    && sys.rings[r].unread == Records(u.later) && sys.rings[r].live == s.live
    && sys.rings[r].published == earlier + s.published
    && L.Delivered(sys.sink, r) == earlier + Handed(s, u)
  }

  /** The system counterpart of a protocol step on ring `r`: its drain step when a
  pass loads the head, its publish step when the thread publishes, any step that
  clears the live flag and leaves the records when the ring is marked dead, and no
  step at all for byte stores, loads, the dispatching of frames and the end of a
  pass. */
  ghost predicate Counterpart(a: P.Action, rec: Record, sys: L.State, r: RingId, sys': L.State)
    requires r in sys.rings
  {
    match a
    case StartPass => sys' == L.Drained(sys, r)
    case Publish => exists t :: L.PublishStep(sys, t, rec, sys') && sys.threads[t].ring == r
    case MarkDead =>
      && r in sys'.rings && sys'.sink == sys.sink && !sys'.rings[r].live
      && sys'.rings[r].unread == sys.rings[r].unread && sys'.rings[r].published == sys.rings[r].published
    case _ => sys' == sys
  }

  /** The system follows every step of the protocol, in every incarnation. */
  lemma SystemFollows(
      c: P.Config, s: P.State, a: P.Action, s': P.State, u: P.Unread,
      sys: L.State, r: RingId, earlier: seq<Record>, sys': L.State)
    requires P.Inv(c, s, u) && P.Step(c, s, a, s') && Mirrors(sys, r, earlier, s, u)
    requires Counterpart(a, Current(s), sys, r, sys')
    ensures Mirrors(sys', r, earlier, s', P.NextUnread(c, s, a, u))
  {
    StepRefines(c, s, a, s', u, sys.rings[r]);
    if a.StartPass? {
      L.DeliveredTag(sys.sink, r, sys.rings[r].unread, r);
      Assoc(earlier, Handed(s, u), Records(u.later));
    } else if a.Publish? {
      Assoc(earlier, s.published, [Current(s)]);
    }
  }

  /** The marks the system makes are such steps: a thread's exit and the guard's
  mark clear the flag of the ring and leave its records. */
  lemma MarksAreMarks(sys: L.State, t: L.Tid, r: RingId, sys': L.State, rec: Record)
    requires r in sys.rings
    requires (L.ExitThreadStep(sys, t, sys') && sys.threads[t].ring == r)
             || (L.GuardMarkStep(sys, sys') && r in sys.registry)
    ensures Counterpart(P.MarkDead, rec, sys, r, sys')
  {
  }

  /** A new incarnation: when everything published on a segment has been delivered,
  taking it from the pool mirrors a fresh protocol state, with all its past
  records for earlier ones. */
  lemma RewindBegins(sys: L.State, t: L.Tid, r: RingId, c: P.Config, s: P.State)
    requires r in sys.rings && L.Delivered(sys.sink, r) == sys.rings[r].published && P.Init(c, s)
    ensures Mirrors(L.Taken(sys, t, r), r, sys.rings[r].published, s, P.Unread(End, End))
  {
    var all := sys.rings[r].published;
    assert all + [] == all && all + ([] + []) == all;
  }

  /** So does a ring that has just been made. */
  lemma FreshBegins(sys: L.State, t: L.Tid, r: RingId, c: P.Config, s: P.State)
    requires r !in sys.rings && L.Delivered(sys.sink, r) == [] && P.Init(c, s)
    ensures Mirrors(L.Taken(sys, t, r), r, [], s, P.Unread(End, End))
  {
  }
}
