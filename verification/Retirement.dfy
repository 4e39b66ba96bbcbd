/** What a turn of the drain must do with rings that are done: a handed-off segment
and the ring of an exited thread leave its hands within one turn, a segment of the
pool returning to the spares, and no ring at work does. Serials tell the
incarnations of a segment apart. */
module Retirement {
  import opened Layout
  import opened RingSync
  import opened LoggerSystem
  import opened LoggerSafety
  import opened DrainCycle

  /** The drain has nothing to do with the ring any more, and if it is the pool's it
  is back there. */
  ghost predicate Released(s: State, r: RingId, pool: bool) {
    r in s.rings && r !in s.registry && !Listed(s.local, r) && (pool ==> r in s.spares)
  }

  // ---------------------------------------------------------------- Threads pass by

  lemma TakerPassesBy(s: State, t: Tid, q: RingId, first: bool, r: RingId)
    requires UpInv(s) && MayTake(s, q, first) && r in s.rings && r !in s.spares
    ensures var s' := Taken(s, t, q);
            r in s'.rings && s'.rings[r] == s.rings[r] && s'.local == s.local && s'.pc == s.pc && s'.registry == s.registry
  {
  }

  /** Threads do not touch a ring that nobody holds and that is no spare. */
  lemma ThreadPassesBy(s: State, a: Action, s': State, r: RingId)
    requires UpInv(s) && ThreadStep(s, a, s') && r in s.rings && s.rings[r].holder.Nobody? && r !in s.spares
    ensures r in s'.rings && s'.rings[r] == s.rings[r] && s'.local == s.local && s'.pc == s.pc
    ensures r in s.registry ==> r in s'.registry
  {
    if a.StartThread? { TakerPassesBy(s, a.t, a.r, true, r); }
    else if a.TakeNext? { TakerPassesBy(s, a.t, a.r, false, r); }
    else {
      HolderIsNot(s, a.t, r);
      WorkerPassesBy(s, a, s', r);
    }
  }

  lemma WorkerPassesBy(s: State, a: Action, s': State, r: RingId)
    requires Works(s, a, s') && r in s.rings && (a.t in s.threads ==> r !in Uses(s.threads[a.t]))
    ensures r in s'.rings && s'.rings[r] == s.rings[r] && s'.local == s.local && s'.pc == s.pc
    ensures r in s.registry <==> r in s'.registry
  {
  }

  lemma HolderIsNot(s: State, t: Tid, r: RingId)
    requires UpInv(s) && r in s.rings && s.rings[r].holder.Nobody?
    ensures t in s.threads ==> r !in Uses(s.threads[t])
  {
    if t in s.threads { assert ThreadOk(s, t); }
  }

  // ---------------------------------------------------------------- Handed-off segments

  /** Left by its thread, which has its next segment, and still registered. */
  ghost predicate Handed(s: State, r: RingId) {
    && r in s.rings && r in s.registry
    && s.rings[r].live && s.rings[r].handedOff && s.rings[r].holder.Nobody? && r !in s.spares
  }

  /** The rest of the turn takes the segment out. */
  ghost predicate Due(s: State, r: RingId) {
    match s.pc
    case SyncDue => Handed(s, r)
    case Scanned(_) => Handed(s, r) && Listed(s.local, r)
    case Finalizing(_) => Handed(s, r) && Listed(s.local, r)
    case Recycling(_, _) => Handed(s, r) && Listed(s.local, r)
    case Polling(i) => Handed(s, r) && Ahead(s.local, i, r)
    case Testing(i, e) => Handed(s, r) && (Ahead(s.local, i + 1, r) || (e.ring == r && s.rings[r].unread == []))
    case Retiring(i, e) => Handed(s, r) && (Ahead(s.local, i + 1, r) || e.ring == r)
    case Returning(i, q) => q == r || (Handed(s, r) && Ahead(s.local, i, r))
    case Top => false
    case Done => false
  }

  lemma HandedNotHeld(s: State, r: RingId)
    requires UpInv(s) && r in s.rings && r in s.registry && s.rings[r].live && s.rings[r].handedOff
    ensures Handed(s, r)
  {
    assert RingOk(s, r);
  }

  lemma ReturningIsNobodys(s: State)
    requires UpInv(s) && s.pc.Returning?
    ensures var r := s.pc.ring;
            && r in s.rings && s.rings[r].holder.Nobody? && r !in s.spares
            && r !in s.registry && !Listed(s.local, r)
            && (s.rings[r].recyclable ==> !s.rings[r].recycled)
  {
    var r := s.pc.ring;
    assert r in Closing(s.pc);
    assert RingOk(s, r);
  }

  lemma ThreadDue(s: State, a: Action, s': State, r: RingId)
    requires UpInv(s) && ThreadStep(s, a, s') && Due(s, r) && r in s.rings
    ensures Due(s', r) && r in s'.rings && s'.rings[r].recyclable == s.rings[r].recyclable
  {
    if s.pc.Returning? && s.pc.ring == r { ReturningIsNobodys(s); }
    ThreadPassesBy(s, a, s', r);
    SparesShrink(s, a, s', r);
  }

  lemma SparesShrink(s: State, a: Action, s': State, r: RingId)
    requires ThreadStep(s, a, s') && r !in s.spares
    ensures r !in s'.spares
  {
  }

  lemma SyncDueStep(s: State, a: Action, s': State, r: RingId)
    requires UpInv(s) && SyncStep(s, a, s') && !a.LoopTop? && Due(s, r)
    ensures Due(s', r) && r in s'.rings && s'.rings[r].recyclable == s.rings[r].recyclable
  {
    match a
    case Scan(_, _) =>
    case Prune => PruneDue(s, s', r);
    case FinalDrain => FinalDrainDue(s, s', r);
    case RecycleFinal =>
      RecycledOther(s, r);
      RecycleDue(s, s', r);
    case FinishSync =>
  }

  lemma PruneDue(s: State, s': State, r: RingId)
    requires PruneStep(s, s') && Due(s, r)
    ensures Due(s', r) && s'.rings == s.rings
  {
    FilterMembers(s.registry, (q: RingId) => IsLive(s, q));
  }

  lemma RecycleDue(s: State, s': State, r: RingId)
    requires RecycleFinalStep(s, s') && Due(s, r) && s.pc.ring != r
    ensures Due(s', r) && r in s'.rings && s'.rings[r].recyclable == s.rings[r].recyclable
  {
  }

  lemma FinalDrainDue(s: State, s': State, r: RingId)
    requires FinalDrainStep(s, s') && Due(s, r)
    ensures Due(s', r) && r in s'.rings && s'.rings[r].recyclable == s.rings[r].recyclable
  {
  }

  lemma RecycledOther(s: State, r: RingId)
    requires UpInv(s) && s.pc.Recycling? && r in s.rings && Listed(s.local, r) && s.pc.ring in s.rings
    ensures s.pc.ring != r
  {
    assert s.pc.ring in Closing(s.pc);
    assert RingOk(s, r);
  }

  lemma PollEntryDue(s: State, s': State, r: RingId)
    requires UpInv(s) && PollEntryStep(s, s') && Due(s, r)
    ensures Due(s', r) && r in s'.rings && s'.rings[r].recyclable == s.rings[r].recyclable
  {
    if s.local[s.pc.i].ring != r {
      var k :| s.pc.i <= k < |s.local| && s.local[k].ring == r;
      assert s.pc.i + 1 <= k;
    }
  }

  lemma TestEntryDue(s: State, s': State, r: RingId)
    requires UpInv(s) && PollStep(s, TestEntry, s') && Due(s, r)
    ensures Due(s', r) && r in s'.rings && s'.rings[r].recyclable == s.rings[r].recyclable
  {
  }

  lemma RetireDue(s: State, s': State, r: RingId)
    requires UpInv(s) && RetireStep(s, s') && Due(s, r)
    ensures Due(s', r) && r in s'.rings && s'.rings[r].recyclable == s.rings[r].recyclable
  {
    var e := s.pc.entry;
    assert e.ring == r ==> s.rings[r].serial == e.serial;
    RetirePasses(s, s', r);
  }

  lemma RetirePasses(s: State, s': State, r: RingId)
    requires RetireStep(s, s') && Due(s, r) && (s.pc.entry.ring == r ==> s.rings[r].serial == s.pc.entry.serial)
    ensures Due(s', r) && s'.rings == s.rings
  {
    FilterMembers(s.registry, (q: RingId) => q != s.pc.entry.ring);
    if s.pc.entry.ring != r && s'.pc.Returning? { AheadMoves(s.local, s.pc.i, r); }
  }

  lemma ReturnDue(s: State, s': State, r: RingId)
    requires UpInv(s) && ReturnSegmentStep(s, s') && Due(s, r) && r in s.rings
    ensures r in s'.rings && s'.rings[r].recyclable == s.rings[r].recyclable
    ensures if s.pc.ring == r then Released(s', r, s.rings[r].recyclable) else Due(s', r)
  {
    ReturningIsNobodys(s);
  }

  lemma PollDue(s: State, a: Action, s': State, r: RingId)
    requires UpInv(s) && PollStep(s, a, s') && Due(s, r) && r in s.rings
    ensures r in s'.rings && s'.rings[r].recyclable == s.rings[r].recyclable
    ensures Due(s', r) || Released(s', r, s.rings[r].recyclable)
  {
    match a
    case PollEntry => PollEntryDue(s, s', r);
    case TestEntry => TestEntryDue(s, s', r);
    case Retire => RetireDue(s, s', r);
    case ReturnSegment => ReturnDue(s, s', r);
    case FinishPoll =>
  }

  lemma StepDue(s: State, a: Action, s': State, r: RingId)
    requires UpInv(s) && Step(s, a, s') && s'.guard.Up? && !a.LoopTop? && Due(s, r) && r in s.rings
    ensures r in s'.rings && s'.rings[r].recyclable == s.rings[r].recyclable
    ensures Due(s', r) || Released(s', r, s.rings[r].recyclable)
  {
    if ThreadStep(s, a, s') { ThreadDue(s, a, s', r); }
    else if SyncStep(s, a, s') { SyncDueStep(s, a, s', r); }
    else if PollStep(s, a, s') { PollDue(s, a, s', r); }
  }

  lemma TurnEnds(states: seq<State>, acts: seq<Action>, j: nat, i: nat)
    requires WholeTurn(states, acts, j, i)
    ensures states[i].pc.Top? || states[i].pc.Done?
  {
    assert StepAt(states, acts, i - 1);
    FinishedMeansCaught(states[i - 1], acts[i - 1], states[i]);
  }

  lemma StepOfTurn(states: seq<State>, acts: seq<Action>, j: nat, k: nat, i: nat)
    requires WholeTurn(states, acts, j, i) && j < k < i
    ensures UpInv(states[k]) && Step(states[k], acts[k], states[k + 1])
    ensures states[k + 1].guard.Up? && !acts[k].LoopTop?
  {
    UpAt(states, acts, k, i);
    GuardStaysDown(states, acts, k + 1, i);
    assert StepAt(states, acts, k);
  }

  lemma TurnStarts(states: seq<State>, acts: seq<Action>, j: nat, i: nat)
    requires WholeTurn(states, acts, j, i)
    ensures UpInv(states[j]) && states[j + 1] == states[j].(pc := SyncDue)
  {
    UpAt(states, acts, j, i);
    assert StepAt(states, acts, j);
  }

  lemma {:induction false} DueIsDone(states: seq<State>, acts: seq<Action>, j: nat, k: nat, i: nat, r: RingId)
    returns (m: nat)
    requires WholeTurn(states, acts, j, i) && j < k <= i && Due(states[k], r) && r in states[k].rings
    ensures k < m <= i && Released(states[m], r, states[k].rings[r].recyclable)
    decreases i - k
  {
    if k == i {
      TurnEnds(states, acts, j, i);
      assert false;
    } else {
      StepOfTurn(states, acts, j, k, i);
      StepDue(states[k], acts[k], states[k + 1], r);
      m := k + 1;
      if !Released(states[m], r, states[k].rings[r].recyclable) { m := DueIsDone(states, acts, j, k + 1, i, r); }
    }
  }

  /** Every segment that was handed off and registered when a whole turn began has, at
  some moment of the turn, left the registry and the drain's list, and if it is the
  pool's it is a spare again, whatever all the threads do meanwhile. */
  lemma TurnRetires(states: seq<State>, acts: seq<Action>, j: nat, i: nat, r: RingId) returns (m: nat)
    requires WholeTurn(states, acts, j, i) && r in states[j].rings && r in states[j].registry
    requires states[j].rings[r].live && states[j].rings[r].handedOff
    ensures j < m <= i && r in states[m].rings && r !in states[m].registry && !Listed(states[m].local, r)
    ensures states[j].rings[r].recyclable ==> r in states[m].spares
  {
    TurnStarts(states, acts, j, i);
    HandedNotHeld(states[j], r);
    m := DueIsDone(states, acts, j, j + 1, i, r);
  }

  // ---------------------------------------------------------------- Rings of exited threads

  /** The rest of the sync takes the dead ring out. */
  ghost predicate Ending(s: State, r: RingId) {
    && r in s.rings
    && match s.pc
       case SyncDue => !s.rings[r].live && s.rings[r].holder.Nobody? && (r in s.registry || Listed(s.local, r))
       case Scanned(fin) => r in fin
       case Finalizing(fin) => r in fin
       case Recycling(q, fin) => q == r || r in fin
       case _ => false
  }

  /** Nobody holds a dead or closing ring, and none is a spare. */
  lemma EndingIsNobodys(s: State, r: RingId)
    requires UpInv(s) && Ending(s, r)
    ensures s.rings[r].holder.Nobody? && r !in s.spares
  {
    assert RingOk(s, r);
    assert !s.pc.SyncDue? ==> r in Closing(s.pc);
  }

  lemma ScanEnding(s: State, local: seq<Entry>, fin: seq<RingId>, s': State, r: RingId)
    requires ScanStep(s, local, fin, s') && Ending(s, r)
    ensures Ending(s', r)
  {
  }

  lemma FinalDrainEnding(s: State, s': State, r: RingId)
    requires FinalDrainStep(s, s') && Ending(s, r)
    ensures Ending(s', r) && s'.rings[r].recyclable == s.rings[r].recyclable
  {
    assert s.pc.fin == [s.pc.fin[0]] + s.pc.fin[1..];
  }

  lemma RecycleEnding(s: State, s': State, r: RingId)
    requires UpInv(s) && RecycleFinalStep(s, s') && Ending(s, r)
    ensures r in s'.rings && s'.rings[r].recyclable == s.rings[r].recyclable
    ensures if s.pc.ring == r then Released(s', r, s.rings[r].recyclable) else Ending(s', r)
  {
    assert RingOk(s, r);
    assert r in Closing(s.pc);
  }

  lemma SyncEnding(s: State, a: Action, s': State, r: RingId)
    requires UpInv(s) && SyncStep(s, a, s') && !a.LoopTop? && Ending(s, r)
    ensures r in s'.rings && s'.rings[r].recyclable == s.rings[r].recyclable
    ensures Ending(s', r) || Released(s', r, s.rings[r].recyclable)
  {
    match a
    case Scan(local, fin) => ScanEnding(s, local, fin, s', r);
    case Prune =>
    case FinalDrain => FinalDrainEnding(s, s', r);
    case RecycleFinal => RecycleEnding(s, s', r);
    case FinishSync =>
  }

  lemma StepEnding(s: State, a: Action, s': State, r: RingId)
    requires UpInv(s) && Step(s, a, s') && s'.guard.Up? && !a.LoopTop? && Ending(s, r)
    ensures r in s'.rings && s'.rings[r].recyclable == s.rings[r].recyclable
    ensures Ending(s', r) || Released(s', r, s.rings[r].recyclable)
  {
    if ThreadStep(s, a, s') {
      EndingIsNobodys(s, r);
      ThreadPassesBy(s, a, s', r);
    } else if SyncStep(s, a, s') {
      SyncEnding(s, a, s', r);
    }
  }

  lemma {:induction false} EndingIsDone(states: seq<State>, acts: seq<Action>, j: nat, k: nat, i: nat, r: RingId)
    returns (m: nat)
    requires WholeTurn(states, acts, j, i) && j < k <= i && Ending(states[k], r)
    ensures k < m <= i && Released(states[m], r, states[k].rings[r].recyclable)
    decreases i - k
  {
    if k == i {
      TurnEnds(states, acts, j, i);
      assert false;
    } else {
      StepOfTurn(states, acts, j, k, i);
      StepEnding(states[k], acts[k], states[k + 1], r);
      m := k + 1;
      if !Released(states[m], r, states[k].rings[r].recyclable) { m := EndingIsDone(states, acts, j, k + 1, i, r); }
    }
  }

  /** So has every ring of a thread that had exited by then. */
  lemma TurnCloses(states: seq<State>, acts: seq<Action>, j: nat, i: nat, r: RingId) returns (m: nat)
    requires WholeTurn(states, acts, j, i) && r in states[j].rings && !states[j].rings[r].live
    requires r in states[j].registry || Listed(states[j].local, r)
    ensures j < m <= i && r in states[m].rings && r !in states[m].registry && !Listed(states[m].local, r)
    ensures states[j].rings[r].recyclable ==> r in states[m].spares
  {
    TurnStarts(states, acts, j, i);
    assert RingOk(states[j], r);
    m := EndingIsDone(states, acts, j, j + 1, i, r);
  }

  /** What a thread's steps do to its ring, in every run: a record logged is the last
  one unread and the last published; a ring handed off, or left by an exiting
  thread, is one that the next whole turn takes out. */
  lemma ThreadStepsMarkRings(states: seq<State>, acts: seq<Action>, i: nat)
    requires Run(states, acts) && i < |acts| && states[i].guard.Up?
    requires acts[i].Publish? || acts[i].HandOff? || acts[i].ExitThread?
    ensures var s, s', a := states[i], states[i + 1], acts[i];
            && a.t in s.threads && s.threads[a.t].Running?
            && var r := s.threads[a.t].ring;
               && r in s.rings && r in s'.rings && r in s'.registry && a.t in s'.threads
               && (a.Publish? ==> && s'.rings[r].unread == s.rings[r].unread + [a.rec]
                                  && s'.rings[r].published == s.rings[r].published + [a.rec])
               && (a.HandOff? ==> s'.rings[r].live && s'.rings[r].handedOff && s'.threads[a.t] == Leaving(r))
               && (a.ExitThread? ==> !s'.rings[r].live && s'.threads[a.t] == Exited(r))
               && (!a.Publish? ==> s'.rings[r].holder.Nobody? && s'.rings[r].unread == s.rings[r].unread)
  {
    UpAt(states, acts, i, i);
    assert StepAt(states, acts, i);
    var s, t := states[i], acts[i].t;
    assert ThreadStep(s, acts[i], states[i + 1]);
    assert ThreadOk(s, t) && s.threads[t].ring in Uses(s.threads[t]);
    assert RingOk(s, s.threads[t].ring);
  }

  /** The pool is a stack: a thread takes the spare returned last, rewound and for
  itself alone, and no other state of the ring than its history is left; where the
  pool does not serve, the ring is new. */
  lemma TakenFromTheTop(states: seq<State>, acts: seq<Action>, i: nat)
    requires Run(states, acts) && i < |acts| && (acts[i].StartThread? || acts[i].TakeNext?)
    ensures var s, s', t, r := states[i], states[i + 1], acts[i].t, acts[i].r;
            && t in s'.threads && Uses(s'.threads[t]) == {r} && !s'.threads[t].Running? && r in s'.rings
            && s'.rings[r] == Ring([], true, false, r in s.rings && s.rings[r].recyclable, false,
                                   if r in s.rings then s.rings[r].serial else 0,
                                   if r in s.rings then s.rings[r].published else [], Held(t))
            && (if s.mode.NanoLog? && s.spares != [] then s.spares == s'.spares + [r]
                else r !in s.rings && s'.spares == s.spares)
  {
    assert StepAt(states, acts, i);
    TakerGets(states[i], acts[i], states[i + 1]);
  }

  lemma TakerGets(s: State, a: Action, s': State)
    requires ThreadStep(s, a, s') && (a.StartThread? || a.TakeNext?)
    ensures a.t in s'.threads && Uses(s'.threads[a.t]) == {a.r} && !s'.threads[a.t].Running? && a.r in s'.rings
    ensures s'.rings[a.r] == Ring([], true, false, a.r in s.rings && s.rings[a.r].recyclable, false,
                                  if a.r in s.rings then s.rings[a.r].serial else 0,
                                  if a.r in s.rings then s.rings[a.r].published else [], Held(a.t))
    ensures if s.mode.NanoLog? && s.spares != [] then s.spares == s'.spares + [a.r]
            else a.r !in s.rings && s'.spares == s.spares
  {
    TakenIs(s, a.t, a.r, a.StartThread?);
  }

  lemma TakenIs(s: State, t: Tid, r: RingId, first: bool)
    requires MayTake(s, r, first)
    ensures var s' := Taken(s, t, r);
            && r in s'.rings
            && s'.rings[r] == Ring([], true, false, r in s.rings && s.rings[r].recyclable, false,
                                   if r in s.rings then s.rings[r].serial else 0,
                                   if r in s.rings then s.rings[r].published else [], Held(t))
            && (if s.mode.NanoLog? && s.spares != [] then s.spares == s'.spares + [r]
                else r !in s.rings && s'.spares == s.spares)
  {
    if s.spares != [] { assert s.spares == s.spares[..|s.spares| - 1] + [s.spares[|s.spares| - 1]]; }
  }

  /** A segment is returned on top, once. */
  lemma ReturnedToTheTop(states: seq<State>, acts: seq<Action>, i: nat)
    requires Run(states, acts) && i < |acts| && (acts[i].ReturnSegment? || acts[i].RecycleFinal?)
    ensures var s, s' := states[i], states[i + 1];
            && (s.pc.Returning? || s.pc.Recycling?) && s.pc.ring in s.rings
            && var x := s.rings[s.pc.ring];
               s'.spares == if x.recyclable && !x.recycled then s.spares + [s.pc.ring] else s.spares
  {
    assert StepAt(states, acts, i);
    var s := states[i];
    assert s.pc.Returning? ==> GivesBack(s, s.pc.ring, Polling(s.pc.i), states[i + 1]);
  }

  // ---------------------------------------------------------------- Rings at work

  ghost predicate AtWork(s: State, r: RingId) {
    r in s.rings && r in s.registry && s.rings[r].live && !s.rings[r].handedOff
  }

  lemma SyncKeepsRegistered(s: State, a: Action, s': State, r: RingId)
    requires SyncStep(s, a, s') && AtWork(s, r)
    ensures r in s'.registry
  {
    FilterMembers(s.registry, (q: RingId) => IsLive(s, q));
  }

  lemma PollKeepsRegistered(s: State, a: Action, s': State, r: RingId)
    requires UpInv(s) && PollStep(s, a, s') && AtWork(s, r)
    ensures r in s'.registry
  {
    if a.Retire? { FilterMembers(s.registry, (q: RingId) => q != s.pc.entry.ring); }
  }

  /** A ring leaves the registry only when its thread has exited or handed it off. */
  lemma AtWorkStaysRegistered(states: seq<State>, acts: seq<Action>, i: nat, r: RingId)
    requires Run(states, acts) && i < |acts| && states[i + 1].guard.Up? && AtWork(states[i], r)
    ensures r in states[i + 1].registry
  {
    UpAt(states, acts, i, i + 1);
    assert StepAt(states, acts, i);
    StepKeepsRegistered(states[i], acts[i], states[i + 1], r);
  }

  lemma StepKeepsRegistered(s: State, a: Action, s': State, r: RingId)
    requires UpInv(s) && Step(s, a, s') && AtWork(s, r)
    ensures r in s'.registry
  {
    if ThreadStep(s, a, s') { ThreadsOnlyAdd(s, a, s', r); }
    else if SyncStep(s, a, s') { SyncKeepsRegistered(s, a, s', r); }
    else if PollStep(s, a, s') { PollKeepsRegistered(s, a, s', r); }
  }

  lemma ThreadsOnlyAdd(s: State, a: Action, s': State, r: RingId)
    requires ThreadStep(s, a, s') && r in s.registry
    ensures r in s'.registry
  {
  }

  /** In the list once the sync has scanned. */
  ghost predicate OnList(s: State, r: RingId) { AtWork(s, r) && (s.pc.SyncDue? || Listed(s.local, r)) }

  lemma StepOnList(s: State, a: Action, s': State, r: RingId)
    requires UpInv(s) && Step(s, a, s') && s'.guard.Up? && !a.LoopTop? && OnList(s, r) && AtWork(s', r)
    ensures OnList(s', r)
  {
    if ThreadStep(s, a, s') { WorkingThreads(s, a, s'); }
    else if SyncStep(s, a, s') { SyncOnList(s, a, s', r); }
    else if PollStep(s, a, s') { PollOnList(s, a, s', r); }
  }

  lemma WorkingThreads(s: State, a: Action, s': State)
    requires ThreadStep(s, a, s')
    ensures s'.local == s.local && s'.pc == s.pc
  {
  }

  lemma SyncOnList(s: State, a: Action, s': State, r: RingId)
    requires SyncStep(s, a, s') && !a.LoopTop? && OnList(s, r)
    ensures s'.pc.SyncDue? || Listed(s'.local, r)
  {
  }

  lemma PollOnList(s: State, a: Action, s': State, r: RingId)
    requires UpInv(s) && PollStep(s, a, s') && OnList(s, r)
    ensures s'.pc.SyncDue? || Listed(s'.local, r)
  {
    if a.Retire? {
      assert s.rings[s.pc.entry.ring].handedOff && s.local[s.pc.i] == s.pc.entry;
      RetireOnList(s, s', r);
    } else {
      OthersKeepList(s, a, s');
    }
  }

  lemma RetireOnList(s: State, s': State, r: RingId)
    requires RetireStep(s, s') && Listed(s.local, r) && s.local[s.pc.i].ring != r
    ensures Listed(s'.local, r)
  {
    SwapRemoveListed(s.local, s.pc.i);
  }

  lemma OthersKeepList(s: State, a: Action, s': State)
    requires PollStep(s, a, s') && !a.Retire?
    ensures s'.local == s.local
  {
  }

  /** A ring at work throughout a whole turn is in the registry and in the drain's list
  when the turn ends. */
  lemma {:induction false} TurnKeeps(states: seq<State>, acts: seq<Action>, j: nat, k: nat, i: nat, r: RingId)
    requires WholeTurn(states, acts, j, i) && j < k <= i
    requires forall m | j <= m <= k :: AtWork(states[m], r)
    ensures OnList(states[k], r)
    decreases k
  {
    if k == j + 1 {
      TurnStarts(states, acts, j, i);
    } else {
      TurnKeeps(states, acts, j, k - 1, i, r);
      StepOfTurn(states, acts, j, k - 1, i);
      StepOnList(states[k - 1], acts[k - 1], states[k], r);
    }
  }

  // ---------------------------------------------------------------- Incarnations

  /** Each registration is told from all others by its serial. */
  ghost predicate Serials(s: State) {
    && (forall r | r in s.registry :: r in s.rings && s.rings[r].serial < s.nextSerial)
    && (forall q, r | q in s.registry && r in s.registry && q != r ::
          q in s.rings && r in s.rings && s.rings[q].serial != s.rings[r].serial)
  }

  /** The registered rings are still there, with the serials they had. */
  ghost predicate KeepsSerials(s: State, s': State) {
    && s'.nextSerial == s.nextSerial
    && (forall r | r in s'.registry :: r in s.registry)
    && (forall r | r in s.rings :: r in s'.rings && s'.rings[r].serial == s.rings[r].serial)
  }

  lemma SerialsKept(s: State, s': State)
    requires Serials(s) && KeepsSerials(s, s')
    ensures Serials(s')
  {
  }

  lemma TakenKeepsSerials(s: State, t: Tid, r: RingId, th: Thread)
    ensures KeepsSerials(s, Taken(s, t, r).(threads := s.threads[t := th]))
  {
  }

  lemma ThreadSerials(s: State, a: Action, s': State)
    requires Serials(s) && ThreadStep(s, a, s')
    ensures Serials(s')
    ensures a.Register? ==>
              var r := s.threads[a.t].next;
              s'.nextSerial == s.nextSerial + 1 && r in s'.rings && s'.rings[r].serial == s.nextSerial && r in s'.registry
  {
    if a.StartThread? { TakenKeepsSerials(s, a.t, a.r, Starting(a.r)); SerialsKept(s, s'); }
    else if a.TakeNext? { TakenKeepsSerials(s, a.t, a.r, Switching(s.threads[a.t].ring, a.r)); SerialsKept(s, s'); }
    else if !a.Register? { SerialsKept(s, s'); }
  }

  lemma DrainedKeepsSerials(s: State, r: RingId, pc: Pc)
    requires r in s.rings
    ensures KeepsSerials(s, Drained(s, r).(pc := pc)) && KeepsSerials(s, GivenBack(s, r).(pc := pc))
  {
  }

  lemma SyncKeepsSerials(s: State, a: Action, s': State)
    requires SyncStep(s, a, s')
    ensures KeepsSerials(s, s')
  {
    match a
    case LoopTop(_) =>
    case Scan(_, _) =>
    case Prune => FilterMembers(s.registry, (r: RingId) => IsLive(s, r));
    case FinalDrain => DrainedKeepsSerials(s, s.pc.fin[0], s'.pc);
    case RecycleFinal => DrainedKeepsSerials(s, s.pc.ring, s'.pc);
    case FinishSync =>
  }

  lemma PollKeepsSerials(s: State, a: Action, s': State)
    requires PollStep(s, a, s')
    ensures KeepsSerials(s, s')
  {
    match a
    case PollEntry => DrainedKeepsSerials(s, s.local[s.pc.i].ring, s'.pc);
    case TestEntry =>
    case Retire => FilterMembers(s.registry, (r: RingId) => r != s.pc.entry.ring);
    case ReturnSegment => DrainedKeepsSerials(s, s.pc.ring, s'.pc);
    case FinishPoll =>
  }

  /** In every run no two registered rings have the same serial, and all serials
  given out are lower than the next one. */
  lemma {:induction false} SerialsTellApart(states: seq<State>, acts: seq<Action>, i: nat)
    requires Run(states, acts) && i <= |acts|
    ensures Serials(states[i])
    decreases i
  {
    if i > 0 {
      SerialsTellApart(states, acts, i - 1);
      assert StepAt(states, acts, i - 1);
      StepSerials(states[i - 1], acts[i - 1], states[i]);
    }
  }

  /** Every registration takes the next serial. */
  lemma RegistrationTakesNext(states: seq<State>, acts: seq<Action>, i: nat)
    requires Run(states, acts) && i < |acts| && acts[i].Register?
    ensures var s, s', t := states[i], states[i + 1], acts[i].t;
            && t in s.threads && (s.threads[t].Starting? || s.threads[t].Switching?)
            && var r := s.threads[t].next;
               s'.nextSerial == s.nextSerial + 1 && r in s'.rings && s'.rings[r].serial == s.nextSerial
  {
    SerialsTellApart(states, acts, i);
    assert StepAt(states, acts, i);
    StepSerials(states[i], acts[i], states[i + 1]);
  }

  lemma StepSerials(s: State, a: Action, s': State)
    requires Serials(s) && Step(s, a, s')
    ensures Serials(s')
    ensures a.Register? ==>
              && a.t in s.threads && (s.threads[a.t].Starting? || s.threads[a.t].Switching?)
              && var r := s.threads[a.t].next;
                 s'.nextSerial == s.nextSerial + 1 && r in s'.rings && s'.rings[r].serial == s.nextSerial
  {
    if ThreadStep(s, a, s') { ThreadSerials(s, a, s'); }
    else {
      if SyncStep(s, a, s') { SyncKeepsSerials(s, a, s'); }
      else if PollStep(s, a, s') { PollKeepsSerials(s, a, s'); }
      SerialsKept(s, s');
    }
  }

  // ---------------------------------------------------------------- A segment comes round

  /** A pool of one segment and one thread. */
  function Pool(x: Ring, registry: seq<RingId>, spares: seq<RingId>, th: Thread, local: seq<Entry>, pc: Pc,
                sink: seq<(RingId, Record)>, logged: map<Tid, seq<Record>>): State
  {
    State(NanoLog, map[0 := x], registry, if th.Starting? then 0 else 1, spares, map[0 := th], local, pc, false, Up,
          sink, map[], logged)
  }

  function Full(): State {
    State(NanoLog, map[0 := FRESH.(recyclable := true)], [], 0, [0], map[], [], Top, false, Up, [], map[], map[])
  }

  const MINE := Entry(0, 0)

  function InUse(unread: seq<Record>, published: seq<Record>): Ring {
    Ring(unread, true, false, true, false, 0, published, Held(0))
  }

  function Left(unread: seq<Record>, published: seq<Record>): Ring {
    Ring(unread, true, true, true, false, 0, published, Nobody)
  }

  /** The states of the run. */
  function Taking(): State { Pool(InUse([], []), [], [], Starting(0), [], Top, [], map[]) }
  function Registered(): State { Pool(InUse([], []), [0], [], Running(0), [], Top, [], map[]) }
  function Logged(rec: Record): State { Pool(InUse([rec], [rec]), [0], [], Running(0), [], Top, [], map[0 := [rec]]) }

  function Waiting(rec: Record, local: seq<Entry>, pc: Pc): State {
    Pool(Left([rec], [rec]), [0], [], Leaving(0), local, pc, [], map[0 := [rec]])
  }

  function Emptied(rec: Record, pc: Pc): State {
    Pool(Left([], [rec]), [0], [], Leaving(0), [MINE], pc, [(0, rec)], map[0 := [rec]])
  }

  function Removed(rec: Record): State {
    Pool(Left([], [rec]), [], [], Leaving(0), [], Returning(0, 0), [(0, rec)], map[0 := [rec]])
  }

  function Spare(rec: Record): State {
    Pool(Left([], [rec]).(recycled := true), [], [0], Leaving(0), [], Polling(0), [(0, rec)], map[0 := [rec]])
  }

  function Again(rec: Record): State {
    Pool(InUse([], [rec]), [], [], Switching(0, 0), [], Polling(0), [(0, rec)], map[0 := [rec]])
  }

  lemma TakesFirst()
    ensures Step(Full(), StartThread(0, 0), Taking())
  {
    var s := Full();
    assert s.spares[..0] == [] && s.threads[0 := Starting(0)] == map[0 := Starting(0)];
    assert s.rings[0 := InUse([], [])] == map[0 := InUse([], [])];
    assert StartThreadStep(s, 0, 0, Taking());
  }

  lemma RegistersFirst()
    ensures Step(Taking(), Register(0), Registered())
  {
    var s := Taking();
    assert s.threads[0 := Running(0)] == map[0 := Running(0)] && s.rings[0 := InUse([], [])] == map[0 := InUse([], [])];
    assert RegisterStep(s, 0, Registered());
  }

  lemma LogsFirst(rec: Record)
    ensures Step(Registered(), Publish(0, rec), Logged(rec))
  {
    var s := Registered();
    assert [] + [rec] == [rec] && s.logged[0 := [rec]] == map[0 := [rec]];
    assert s.rings[0 := InUse([rec], [rec])] == map[0 := InUse([rec], [rec])];
    assert PublishStep(s, 0, rec, Logged(rec));
  }

  lemma HandsOff(rec: Record)
    ensures Step(Logged(rec), HandOff(0), Waiting(rec, [], Top))
  {
    var s := Logged(rec);
    assert s.threads[0 := Leaving(0)] == map[0 := Leaving(0)];
    assert s.rings[0 := Left([rec], [rec])] == map[0 := Left([rec], [rec])];
    assert HandOffStep(s, 0, Waiting(rec, [], Top));
  }

  lemma SyncOpens(rec: Record)
    ensures Step(Waiting(rec, [], Top), LoopTop(true), Waiting(rec, [], SyncDue))
  {
  }

  lemma SyncCloses(rec: Record)
    ensures Step(Waiting(rec, [MINE], Finalizing([])), FinishSync, Waiting(rec, [MINE], Polling(0)))
  {
  }

  lemma Scans(rec: Record)
    ensures Step(Waiting(rec, [], SyncDue), Scan([MINE], []), Waiting(rec, [MINE], Scanned([])))
  {
    assert [MINE][0].ring == 0 && Listed([MINE], 0);
    assert ScanStep(Waiting(rec, [], SyncDue), [MINE], [], Waiting(rec, [MINE], Scanned([])));
  }

  lemma Prunes(rec: Record)
    ensures Step(Waiting(rec, [MINE], Scanned([])), Prune, Waiting(rec, [MINE], Finalizing([])))
  {
    var t := Waiting(rec, [MINE], Scanned([]));
    assert t.registry[..0] == [] && Filter(t.registry, (r: RingId) => IsLive(t, r)) == [0];
    assert PruneStep(t, Waiting(rec, [MINE], Finalizing([])));
  }

  lemma Polls(rec: Record)
    ensures Step(Waiting(rec, [MINE], Polling(0)), PollEntry, Emptied(rec, Testing(0, MINE)))
  {
    var s := Waiting(rec, [MINE], Polling(0));
    assert [rec][..0] == [] && Tag(0, [rec]) == [(0, rec)] && [] + [(0, rec)] == [(0, rec)];
    assert s.rings[0 := Left([], [rec])] == map[0 := Left([], [rec])];
    assert PollEntryStep(s, Emptied(rec, Testing(0, MINE)));
  }

  lemma Tests(rec: Record)
    ensures Step(Emptied(rec, Testing(0, MINE)), TestEntry, Emptied(rec, Retiring(0, MINE)))
  {
  }

  lemma Retires(rec: Record)
    ensures Step(Emptied(rec, Retiring(0, MINE)), Retire, Removed(rec))
  {
    var s := Emptied(rec, Retiring(0, MINE));
    var none := (r: RingId) => r != s.pc.entry.ring;
    assert s.registry[..0] == [] && Filter(s.registry, none) == [];
    assert s.local[0 := s.local[0]][..0] == [];
    assert RetireStep(s, Removed(rec));
  }

  lemma GivesItBack(rec: Record)
    ensures Step(Removed(rec), ReturnSegment, Spare(rec))
  {
    var s, x := Removed(rec), Left([], [rec]).(recycled := true);
    assert s.rings[0 := x] == map[0 := x] && [] + [0] == [0];
    assert ReturnSegmentStep(s, Spare(rec));
  }

  lemma TakesAgain(rec: Record)
    ensures Step(Spare(rec), TakeNext(0, 0), Again(rec))
  {
    var s := Spare(rec);
    assert s.spares[..0] == [] && s.threads[0 := Switching(0, 0)] == map[0 := Switching(0, 0)];
    assert s.rings[0 := InUse([], [rec])] == map[0 := InUse([], [rec])];
    assert TakeNextStep(s, 0, 0, Again(rec));
  }

  lemma Extend(states: seq<State>, acts: seq<Action>, a: Action, s': State) returns (ss: seq<State>, as': seq<Action>)
    requires Run(states, acts) && Step(states[|acts|], a, s')
    ensures Run(ss, as') && |as'| == |acts| + 1 && ss[|as'|] == s' && as'[|acts|] == a
    ensures ss[|acts|] == states[|acts|] && forall k | 0 <= k < |acts| :: as'[k] == acts[k]
  {
    ss, as' := states + [s'], acts + [a];
    forall i | 0 <= i < |acts| + 1 ensures StepAt(ss, as', i) {
      if i < |acts| { assert StepAt(states, acts, i); }
    }
  }

  lemma FirstSteps(rec: Record) returns (states: seq<State>, acts: seq<Action>)
    ensures Run(states, acts) && |acts| == 4 && states[4] == Waiting(rec, [], Top) && acts[3] == HandOff(0)
  {
    TakesFirst();
    RegistersFirst();
    LogsFirst(rec);
    HandsOff(rec);
    states, acts := Extend([Full()], [], StartThread(0, 0), Taking());
    states, acts := Extend(states, acts, Register(0), Registered());
    states, acts := Extend(states, acts, Publish(0, rec), Logged(rec));
    states, acts := Extend(states, acts, HandOff(0), Waiting(rec, [], Top));
  }

  lemma SyncSteps(rec: Record) returns (states: seq<State>, acts: seq<Action>)
    ensures Run(states, acts) && |acts| == 8 && states[8] == Waiting(rec, [MINE], Polling(0)) && acts[3] == HandOff(0)
  {
    states, acts := FirstSteps(rec);
    SyncOpens(rec);
    Scans(rec);
    Prunes(rec);
    SyncCloses(rec);
    states, acts := Extend(states, acts, LoopTop(true), Waiting(rec, [], SyncDue));
    states, acts := Extend(states, acts, Scan([MINE], []), Waiting(rec, [MINE], Scanned([])));
    states, acts := Extend(states, acts, Prune, Waiting(rec, [MINE], Finalizing([])));
    states, acts := Extend(states, acts, FinishSync, Waiting(rec, [MINE], Polling(0)));
  }

  lemma PollSteps(rec: Record) returns (states: seq<State>, acts: seq<Action>)
    ensures Run(states, acts) && |acts| == 12 && states[12] == Spare(rec) && acts[3] == HandOff(0)
  {
    states, acts := SyncSteps(rec);
    Polls(rec);
    Tests(rec);
    Retires(rec);
    GivesItBack(rec);
    states, acts := Extend(states, acts, PollEntry, Emptied(rec, Testing(0, MINE)));
    states, acts := Extend(states, acts, TestEntry, Emptied(rec, Retiring(0, MINE)));
    states, acts := Extend(states, acts, Retire, Removed(rec));
    states, acts := Extend(states, acts, ReturnSegment, Spare(rec));
  }

  /** With a pool of one segment: the thread logs to it, hands it off and waits; one
  turn of the drain delivers its record and puts the segment back; the thread takes
  it again. */
  lemma SegmentComesRound(rec: Record) returns (states: seq<State>, acts: seq<Action>)
    ensures Run(states, acts) && |acts| == 13 && acts[3] == HandOff(0) && acts[12] == TakeNext(0, 0)
    ensures states[12].spares == [0] && states[12].sink == [(0, rec)] && states[13] == Again(rec)
  {
    states, acts := PollSteps(rec);
    TakesAgain(rec);
    states, acts := Extend(states, acts, TakeNext(0, 0), Again(rec));
  }
}
