/** The drain never gets stuck, its turns end, and after the guard's signal so does
the drain: the join of the shutdown returns once the drain gets to run. */
module DrainEnds {
  import opened Layout
  import opened RingSync
  import opened LoggerSystem
  import opened LoggerSafety

  // ---------------------------------------------------------------- An invariant of every run

  /** Every ring the drain has at hand exists, its place in the list is within the
  list, and a final turn does not go back to the top of the loop. */
  ghost predicate Ready(s: State) {
    && (forall r | r in s.registry :: r in s.rings)
    && (forall i | 0 <= i < |s.local| :: s.local[i].ring in s.rings)
    && (forall r | r in Closing(s.pc) :: r in s.rings)
    && (s.pc.Testing? || s.pc.Retiring? ==> s.pc.i < |s.local| && s.pc.entry.ring in s.rings)
    && (s.final ==> s.guard.Signalled? && !s.pc.Top?)
    && (s.pc.Done? ==> s.final)
  }

  lemma ThreadReady(s: State, a: Action, s': State)
    requires Ready(s) && ThreadStep(s, a, s')
    ensures Ready(s')
  {
    ThreadMoves(s, a, s');
    if !a.Register? { assert s'.registry == s.registry; }
  }

  lemma ThreadMoves(s: State, a: Action, s': State)
    requires ThreadStep(s, a, s')
    ensures s'.pc == s.pc && s'.local == s.local && s'.final == s.final && s'.guard == s.guard
    ensures forall r | r in s.rings :: r in s'.rings
  {
    match a
    case StartThread(t, r) => TakenMoves(s, t, r);
    case TakeNext(t, r) => TakenMoves(s, t, r);
    case _ =>
  }

  lemma TakenMoves(s: State, t: Tid, r: RingId)
    ensures var s' := Taken(s, t, r);
            s'.pc == s.pc && s'.local == s.local && s'.final == s.final && s'.guard == s.guard
    ensures forall q | q in s.rings :: q in Taken(s, t, r).rings
  {
  }

  lemma ScanReady(s: State, local: seq<Entry>, fin: seq<RingId>, s': State)
    requires Ready(s) && ScanStep(s, local, fin, s')
    ensures Ready(s')
  {
    forall i | 0 <= i < |local| ensures local[i].ring in s.rings { assert Listed(local, local[i].ring); }
  }

  lemma PruneReady(s: State, s': State)
    requires Ready(s) && PruneStep(s, s')
    ensures Ready(s')
  {
    FilterMembers(s.registry, (r: RingId) => IsLive(s, r));
  }

  lemma FinalDrainReady(s: State, s': State)
    requires Ready(s) && FinalDrainStep(s, s')
    ensures Ready(s')
  {
    assert Closing(s'.pc) == s.pc.fin;
  }

  lemma RecycleReady(s: State, s': State)
    requires Ready(s) && RecycleFinalStep(s, s')
    ensures Ready(s')
  {
    assert forall r | r in s.pc.fin :: r in Closing(s.pc);
  }

  lemma SyncReady(s: State, a: Action, s': State)
    requires Ready(s) && SyncStep(s, a, s')
    ensures Ready(s')
  {
    match a
    case LoopTop(_) =>
    case Scan(local, fin) => ScanReady(s, local, fin, s');
    case Prune => PruneReady(s, s');
    case FinalDrain => FinalDrainReady(s, s');
    case RecycleFinal => RecycleReady(s, s');
    case FinishSync =>
  }

  lemma SwappedMembers(es: seq<Entry>, i: nat)
    requires i < |es|
    ensures var rest := es[i := es[|es| - 1]][..|es| - 1];
            forall e | e in rest :: e in es
  {
  }

  lemma RetireReady(s: State, s': State)
    requires Ready(s) && RetireStep(s, s')
    ensures Ready(s')
  {
    FilterMembers(s.registry, (r: RingId) => r != s.pc.entry.ring);
    SwappedMembers(s.local, s.pc.i);
    assert s'.rings == s.rings;
  }

  lemma PollEntryReady(s: State, s': State)
    requires Ready(s) && PollEntryStep(s, s')
    ensures Ready(s')
  {
  }

  lemma ReturnReady(s: State, s': State)
    requires Ready(s) && ReturnSegmentStep(s, s')
    ensures Ready(s')
  {
  }

  lemma PollReady(s: State, a: Action, s': State)
    requires Ready(s) && PollStep(s, a, s')
    ensures Ready(s')
  {
    match a
    case PollEntry => PollEntryReady(s, s');
    case TestEntry =>
    case Retire => RetireReady(s, s');
    case ReturnSegment => ReturnReady(s, s');
    case FinishPoll =>
  }

  lemma StepReady(s: State, a: Action, s': State)
    requires Ready(s) && Step(s, a, s')
    ensures Ready(s')
  {
    if ThreadStep(s, a, s') { ThreadReady(s, a, s'); }
    else if SyncStep(s, a, s') { SyncReady(s, a, s'); }
    else if PollStep(s, a, s') { PollReady(s, a, s'); }
  }

  lemma {:induction false} RunIsReady(states: seq<State>, acts: seq<Action>, i: nat)
    requires Run(states, acts) && i <= |acts|
    ensures Ready(states[i])
    decreases i
  {
    if i > 0 {
      RunIsReady(states, acts, i - 1);
      assert StepAt(states, acts, i - 1);
      StepReady(states[i - 1], acts[i - 1], states[i]);
    }
  }

  // ---------------------------------------------------------------- Turns end

  /** What is left of a turn: the stage, then the work within it. */
  datatype Work = Work(stage: nat, steps: nat)

  predicate Less(v: Work, w: Work) { v.stage < w.stage || (v.stage == w.stage && v.steps < w.steps) }

  function Left(local: seq<Entry>, i: nat): nat { if i <= |local| then 4 * (|local| - i) else 0 }

  function WorkLeft(s: State): Work {
    match s.pc
    case SyncDue => Work(4, 0)
    case Scanned(_) => Work(3, 0)
    case Finalizing(fin) => Work(2, 2 * |fin|)
    case Recycling(_, fin) => Work(2, 2 * |fin| + 1)
    case Polling(i) => Work(1, Left(s.local, i) + 1)
    case Testing(i, _) => Work(1, Left(s.local, i))
    case Retiring(i, _) => Work(1, if Left(s.local, i) > 0 then Left(s.local, i) - 1 else 0)
    case Returning(i, _) => Work(1, Left(s.local, i) + 2)
    case Top => Work(0, 0)
    case Done => Work(0, 0)
  }

  lemma SyncProgress(s: State, a: Action, s': State)
    requires SyncStep(s, a, s') && !a.LoopTop?
    ensures Less(WorkLeft(s'), WorkLeft(s))
  {
  }

  lemma RetireProgress(s: State, s': State)
    requires RetireStep(s, s')
    ensures Less(WorkLeft(s'), WorkLeft(s))
  {
    assert s'.pc.Returning? ==> |s'.local| == |s.local| - 1;
  }

  lemma EntryProgress(s: State, s': State)
    requires PollEntryStep(s, s') || (TestEntryStep(s, s') && s.pc.i < |s.local|)
    ensures Less(WorkLeft(s'), WorkLeft(s))
  {
    assert s'.local == s.local;
  }

  lemma PollProgress(s: State, a: Action, s': State)
    requires PollStep(s, a, s') && (s.pc.Testing? ==> s.pc.i < |s.local|)
    ensures Less(WorkLeft(s'), WorkLeft(s))
  {
    match a
    case PollEntry => EntryProgress(s, s');
    case TestEntry => EntryProgress(s, s');
    case Retire => RetireProgress(s, s');
    case ReturnSegment => assert s'.local == s.local;
    case FinishPoll =>
  }

  /** In every state of every run, before and after the guard: within a turn every
  drain step brings its end nearer, in a well-founded order, and no step of a thread
  puts it off. */
  lemma TurnMakesProgress(states: seq<State>, acts: seq<Action>, i: nat, a: Action, s': State)
    requires Run(states, acts) && i <= |acts| && !a.LoopTop?
    ensures DrainStep(states[i], a, s') ==> Less(WorkLeft(s'), WorkLeft(states[i]))
    ensures ThreadStep(states[i], a, s') ==> WorkLeft(s') == WorkLeft(states[i])
  {
    RunIsReady(states, acts, i);
    StepProgress(states[i], a, s');
  }

  lemma StepProgress(s: State, a: Action, s': State)
    requires Ready(s) && !a.LoopTop?
    ensures DrainStep(s, a, s') ==> Less(WorkLeft(s'), WorkLeft(s))
    ensures ThreadStep(s, a, s') ==> WorkLeft(s') == WorkLeft(s)
  {
    if SyncStep(s, a, s') { SyncProgress(s, a, s'); }
    if PollStep(s, a, s') { PollProgress(s, a, s'); }
    if ThreadStep(s, a, s') { ThreadMoves(s, a, s'); }
  }

  // ---------------------------------------------------------------- The drain ends

  /** What is left until the drain ends, once it has been signalled: the turn under
  way and one final turn. */
  function WorkToEnd(s: State): Work {
    var w := WorkLeft(s);
    if s.final then w else Work(w.stage + 5, w.steps)
  }

  lemma TopProgress(s: State, sync: bool, s': State)
    requires LoopTopStep(s, sync, s') && s.guard.Signalled? && !s.final
    ensures Less(WorkToEnd(s'), WorkToEnd(s))
  {
  }

  lemma TurnKeepsFinal(s: State, a: Action, s': State)
    requires DrainStep(s, a, s') && !a.LoopTop?
    ensures s'.final == s.final
  {
    if SyncStep(s, a, s') { SyncLeavesFinal(s, a, s'); } else { PollLeavesFinal(s, a, s'); }
  }

  lemma SyncLeavesFinal(s: State, a: Action, s': State)
    requires SyncStep(s, a, s') && !a.LoopTop?
    ensures s'.final == s.final
  {
  }

  lemma PollLeavesFinal(s: State, a: Action, s': State)
    requires PollStep(s, a, s')
    ensures s'.final == s.final
  {
  }

  /** After the signal every step of the drain brings its end nearer, in a
  well-founded order, and nothing else puts it off. */
  lemma ShutdownMakesProgress(states: seq<State>, acts: seq<Action>, i: nat, a: Action, s': State)
    requires Run(states, acts) && i <= |acts| && states[i].guard.Signalled? && Step(states[i], a, s')
    ensures if DrainStep(states[i], a, s') then Less(WorkToEnd(s'), WorkToEnd(states[i]))
            else WorkToEnd(s') == WorkToEnd(states[i])
  {
    RunIsReady(states, acts, i);
    EndNearer(states[i], a, s');
  }

  lemma EndNearer(s: State, a: Action, s': State)
    requires Ready(s) && s.guard.Signalled? && Step(s, a, s')
    ensures if DrainStep(s, a, s') then Less(WorkToEnd(s'), WorkToEnd(s)) else WorkToEnd(s') == WorkToEnd(s)
  {
    if a.LoopTop? {
      TopProgress(s, a.sync, s');
    } else if DrainStep(s, a, s') {
      StepProgress(s, a, s');
      TurnKeepsFinal(s, a, s');
    } else {
      ThreadMoves(s, a, s');
    }
  }

  // ---------------------------------------------------------------- The drain never gets stuck

  function RingsOf(es: seq<Entry>): (rs: seq<RingId>)
    ensures |rs| == |es|
  {
    seq(|es|, i requires 0 <= i < |es| => es[i].ring)
  }

  lemma RingsOfListed(es: seq<Entry>)
    ensures forall r :: r in RingsOf(es) <==> Listed(es, r)
    ensures NoDuplicates(es) ==> Distinct(RingsOf(es))
  {
    forall r ensures r in RingsOf(es) <==> Listed(es, r) {
      if Listed(es, r) {
        var i :| 0 <= i < |es| && es[i].ring == r;
        assert RingsOf(es)[i] == r;
      }
    }
  }

  function EntriesOf(rs: seq<RingId>, serial: RingId -> nat): (es: seq<Entry>)
    ensures |es| == |rs|
  {
    seq(|rs|, i requires 0 <= i < |rs| => Entry(rs[i], serial(rs[i])))
  }

  lemma EntriesOfListed(rs: seq<RingId>, serial: RingId -> nat)
    ensures forall r :: Listed(EntriesOf(rs, serial), r) <==> r in rs
    ensures Distinct(rs) ==> NoDuplicates(EntriesOf(rs, serial))
  {
    var es := EntriesOf(rs, serial);
    forall r ensures Listed(es, r) <==> r in rs {
      if r in rs {
        var i :| 0 <= i < |rs| && rs[i] == r;
        assert es[i].ring == r;
      }
    }
  }

  lemma DistinctAppend(a: seq<RingId>, b: seq<RingId>)
    requires Distinct(a) && Distinct(b) && forall r | r in a :: r !in b
    ensures Distinct(a + b)
  {
    var s := a + b;
    forall i, j | 0 <= i < j < |s| ensures s[i] != s[j] {
      if i < |a| <= j { assert s[i] == a[i] && s[j] == b[j - |a|] && a[i] in a; }
    }
  }

  /** Some scan result always exists. */
  lemma ScanExists(registry: seq<RingId>, local: seq<Entry>, keep: RingId -> bool, serial: RingId -> nat)
    returns (local': seq<Entry>, fin: seq<RingId>)
    ensures ScanResult(registry, local, Keeps(keep, keep, keep, keep, keep), serial, local', fin)
  {
    var dead := (r: RingId) => !keep(r);
    var gone := (r: RingId) => !keep(r) && r !in registry;
    RingsOfListed(local);
    FilterMembers(registry, keep);
    FilterMembers(registry, dead);
    FilterMembers(RingsOf(local), gone);
    EntriesOfListed(Filter(registry, keep), serial);
    if Distinct(registry) && NoDuplicates(local) {
      DistinctAppend(Filter(registry, dead), Filter(RingsOf(local), gone));
    }
    local' := EntriesOf(Filter(registry, keep), serial);
    fin := Filter(registry, dead) + Filter(RingsOf(local), gone);
  }

  function AfterTop(s: State): State {
    if s.guard.Signalled? then s.(pc := SyncDue, final := true) else s.(pc := SyncDue)
  }

  lemma SyncNeverStuck(s: State)
    requires Ready(s) && (s.pc.Top? || s.pc.SyncDue? || s.pc.Scanned? || s.pc.Finalizing? || s.pc.Recycling?)
    ensures exists a, s' :: SyncStep(s, a, s')
  {
    match s.pc
    case Top =>
      assert SyncStep(s, LoopTop(true), AfterTop(s));
    case SyncDue =>
      var keep, serial := (r: RingId) => IsLive(s, r), (r: RingId) => SerialOf(s, r);
      var local, fin := ScanExists(s.registry, s.local, keep, serial);
      assert SyncStep(s, Scan(local, fin), s.(local := local, pc := Scanned(fin)));
    case Scanned(fin) =>
      var keep := (r: RingId) => IsLive(s, r);
      assert SyncStep(s, Prune, s.(registry := Filter(s.registry, keep), pc := Finalizing(fin)));
    case Finalizing(fin) =>
      if fin == [] {
        assert SyncStep(s, FinishSync, s.(pc := Polling(0)));
      } else {
        assert fin[0] in Closing(s.pc);
        assert SyncStep(s, FinalDrain, Drained(s, fin[0]).(pc := Recycling(fin[0], fin[1..])));
      }
    case Recycling(r, fin) =>
      assert r in Closing(s.pc);
      assert SyncStep(s, RecycleFinal, GivenBack(s, r).(pc := Finalizing(fin)));
  }

  function AfterEntry(s: State, i: nat, e: Entry): State
    requires e.ring in s.rings
  {
    if s.rings[e.ring].serial != e.serial then s.(pc := Polling(i + 1))
    else Drained(s, e.ring).(pc := Testing(i, e))
  }

  function AfterRetire(s: State, i: nat, e: Entry): State
    requires i < |s.local| && e.ring in s.rings
  {
    if s.rings[e.ring].serial != e.serial || e.ring !in s.registry then s.(pc := Polling(i + 1))
    else s.(registry := Filter(s.registry, (r: RingId) => r != e.ring),
            local := s.local[i := s.local[|s.local| - 1]][..|s.local| - 1],
            pc := Returning(i, e.ring))
  }

  lemma PollNeverStuck(s: State)
    requires Ready(s) && (s.pc.Polling? || s.pc.Testing? || s.pc.Retiring? || s.pc.Returning?)
    ensures exists a, s' :: PollStep(s, a, s')
  {
    match s.pc
    case Polling(i) =>
      if i >= |s.local| {
        assert PollStep(s, FinishPoll, s.(pc := if s.final then Done else Top));
      } else {
        assert PollStep(s, PollEntry, AfterEntry(s, i, s.local[i]));
      }
    case Testing(i, e) =>
      var x := s.rings[e.ring];
      var retire := x.handedOff && x.serial == e.serial && x.unread == [];
      assert PollStep(s, TestEntry, s.(pc := if retire then Retiring(i, e) else Polling(i + 1)));
    case Retiring(i, e) =>
      assert PollStep(s, Retire, AfterRetire(s, i, e));
    case Returning(i, r) =>
      assert r in Closing(s.pc);
      assert PollStep(s, ReturnSegment, GivenBack(s, r).(pc := Polling(i)));
  }

  /** In every state of every run the drain can go on, until it has ended. */
  lemma DrainNeverStuck(states: seq<State>, acts: seq<Action>, i: nat)
    requires Run(states, acts) && i <= |acts| && !states[i].pc.Done?
    ensures exists a, s' :: DrainStep(states[i], a, s')
  {
    RunIsReady(states, acts, i);
    var s := states[i];
    if s.pc.Polling? || s.pc.Testing? || s.pc.Retiring? || s.pc.Returning? {
      PollNeverStuck(s);
      var a, s' :| PollStep(s, a, s');
      assert DrainStep(s, a, s');
    } else {
      SyncNeverStuck(s);
      var a, s' :| SyncStep(s, a, s');
      assert DrainStep(s, a, s');
    }
  }
}
