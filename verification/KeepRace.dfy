/** What the repeated liveness checks of one sync can cost.

`LoggerSystem` takes each sync's scan as one step. Here threads go on working
while the scan is under way, so that its five questions may get different
answers. A ring forgotten that way is lost for good, and there is a run that
loses one. */
module KeepRace {
  import opened Layout
  import opened RingSync
  import opened LoggerSystem
  import opened LoggerSafety

  /** Threads at work while the drain holds the registry lock: anything but
  registering. */
  ghost predicate Meanwhile(states: seq<State>, acts: seq<Action>) {
    && |states| == |acts| + 1
    && forall i | 0 <= i < |acts| :: MeanwhileAt(states, acts, i)
  }

  ghost predicate MeanwhileAt(states: seq<State>, acts: seq<Action>, i: nat)
    requires |states| == |acts| + 1 && i < |acts|
  {
    ThreadStep(states[i], acts[i], states[i + 1]) && !acts[i].Register?
  }

  /** A whole sync up to the final drains, with the registry locked throughout and
  threads at work in between: they publish, hand off, take segments and exit. The
  answers about a ring the drain knows of only go from kept to not kept, start
  from its flag before and end with its flag after. */
  ghost predicate TornSync(
      mids: seq<State>, acts: seq<Action>, k: Keeps, local: seq<Entry>, fin: seq<RingId>, s': State)
    requires |mids| > 0
  {
    var s, u := mids[0], mids[|mids| - 1];
    && s.pc.SyncDue? && Meanwhile(mids, acts)
    && (forall r | Covered(s, r) ::
          OnlyCleared(k, r) && (k.atFilter(r) ==> IsLive(s, r)) && (IsLive(u, r) ==> k.atRetain(r)))
    && ScanResult(s.registry, s.local, k, (r: RingId) => SerialOf(s, r), local, fin)
    && s' == u.(local := local, registry := Filter(s.registry, k.atRetain), pc := Finalizing(fin))
  }

  datatype RaceAction =
    | Ordinary(a: Action)
    | Torn(mids: seq<State>, acts: seq<Action>, k: Keeps, local: seq<Entry>, fin: seq<RingId>)

  ghost predicate RaceStep(s: State, a: RaceAction, s': State) {
    match a
    case Ordinary(b) => Step(s, b, s')
    case Torn(mids, acts, k, local, fin) => |mids| > 0 && mids[0] == s && TornSync(mids, acts, k, local, fin, s')
  }

  ghost predicate RaceStepAt(states: seq<State>, acts: seq<RaceAction>, i: nat)
    requires |states| == |acts| + 1 && i < |acts|
  {
    RaceStep(states[i], acts[i], states[i + 1])
  }

  ghost predicate RaceRun(states: seq<State>, acts: seq<RaceAction>) {
    && |states| == |acts| + 1 && Init(states[0])
    && forall i | 0 <= i < |acts| :: RaceStepAt(states, acts, i)
  }

  /** No list, no pool and no thread knows the ring. */
  ghost predicate Lost(s: State, r: RingId) {
    && r in s.rings && !Covered(s, r) && r !in s.spares
    && forall t | t in s.threads :: r !in Uses(s.threads[t])
  }

  /** The ring's records stay where they are. */
  ghost predicate StillLost(s: State, s': State, r: RingId) {
    && Lost(s, r) && Lost(s', r)
    && s'.rings[r].unread == s.rings[r].unread && s'.rings[r].published == s.rings[r].published
    && Delivered(s'.sink, r) == Delivered(s.sink, r)
  }

  lemma ThreadLeavesLost(s: State, a: Action, s': State, r: RingId)
    requires Lost(s, r) && ThreadStep(s, a, s')
    ensures StillLost(s, s', r)
  {
    if a.StartThread? { TakesLeavesLost(s, a.t, a.r, true, Starting(a.r), s', r); }
    else if a.TakeNext? { TakesLeavesLost(s, a.t, a.r, false, Switching(s.threads[a.t].ring, a.r), s', r); }
    else { WorkLeavesLost(s, a, s', r); }
  }

  lemma TakesLeavesLost(s: State, t: Tid, q: RingId, first: bool, th: Thread, s': State, r: RingId)
    requires Lost(s, r) && MayTake(s, q, first) && Uses(th) == {q}
    requires s' == Taken(s, t, q).(threads := s.threads[t := th])
    ensures StillLost(s, s', r)
  {
    assert q != r;
    assert s'.rings[r] == s.rings[r];
    forall u | u in s'.threads ensures r !in Uses(s'.threads[u]) {}
  }

  lemma WorkLeavesLost(s: State, a: Action, s': State, r: RingId)
    requires Lost(s, r) && Works(s, a, s')
    ensures StillLost(s, s', r)
  {
    var th := s.threads[a.t];
    assert r !in Uses(th);
  }

  lemma DrainedElsewhere(s: State, q: RingId, r: RingId)
    requires q in s.rings && q != r
    ensures Delivered(Drained(s, q).sink, r) == Delivered(s.sink, r)
  {
    DeliveredTag(s.sink, q, s.rings[q].unread, r);
  }

  lemma FinalDrainLeavesLost(s: State, s': State, r: RingId)
    requires Lost(s, r) && FinalDrainStep(s, s')
    ensures StillLost(s, s', r)
  {
    assert s.pc.fin[0] in Closing(s.pc) && Closing(s'.pc) == s.pc.fin;
    DrainedElsewhere(s, s.pc.fin[0], r);
  }

  lemma PollEntryLeavesLost(s: State, s': State, r: RingId)
    requires Lost(s, r) && PollEntryStep(s, s')
    ensures StillLost(s, s', r)
  {
    assert s.local[s.pc.i].ring != r;
    DrainedElsewhere(s, s.local[s.pc.i].ring, r);
  }

  lemma GiveBackLeavesLost(s: State, q: RingId, pc: Pc, s': State, r: RingId)
    requires Lost(s, r) && GivesBack(s, q, pc, s')
    ensures StillLost(s, s', r)
  {
    ClosingShrinks(s, q, pc, s');
  }

  lemma ScanLeavesLost(s: State, local: seq<Entry>, fin: seq<RingId>, s': State, r: RingId)
    requires Lost(s, r) && ScanStep(s, local, fin, s')
    ensures StillLost(s, s', r)
  {
  }

  lemma PruneLeavesLost(s: State, s': State, r: RingId)
    requires Lost(s, r) && PruneStep(s, s')
    ensures StillLost(s, s', r)
  {
    FilterMembers(s.registry, (q: RingId) => IsLive(s, q));
  }

  lemma SyncLeavesLost(s: State, a: Action, s': State, r: RingId)
    requires Lost(s, r) && SyncStep(s, a, s')
    ensures StillLost(s, s', r)
  {
    match a
    case LoopTop(_) =>
    case Scan(local, fin) => ScanLeavesLost(s, local, fin, s', r);
    case Prune => PruneLeavesLost(s, s', r);
    case FinalDrain => FinalDrainLeavesLost(s, s', r);
    case RecycleFinal => GiveBackLeavesLost(s, s.pc.ring, s'.pc, s', r);
    case FinishSync =>
  }

  lemma PollLeavesLost(s: State, a: Action, s': State, r: RingId)
    requires Lost(s, r) && PollStep(s, a, s')
    ensures StillLost(s, s', r)
  {
    match a
    case PollEntry => PollEntryLeavesLost(s, s', r);
    case TestEntry =>
    case Retire => RetireLeavesLost(s, s', r);
    case ReturnSegment => GiveBackLeavesLost(s, s.pc.ring, s'.pc, s', r);
    case FinishPoll =>
  }

  lemma RetireLeavesLost(s: State, s': State, r: RingId)
    requires Lost(s, r) && RetireStep(s, s')
    ensures StillLost(s, s', r)
  {
    if s'.pc.Returning? {
      FilterMembers(s.registry, (q: RingId) => q != s.pc.entry.ring);
      SwapRemoveListed(s.local, s.pc.i);
      assert s.pc.entry.ring in s.registry;
    }
  }

  lemma ThreadLeavesDrain(s: State, a: Action, s': State)
    requires ThreadStep(s, a, s') && !a.Register?
    ensures s'.pc == s.pc && s'.local == s.local && s'.registry == s.registry && s'.guard == s.guard
  {
  }

  /** Threads at work leave the drain's side as it is. */
  lemma {:induction false} MeanwhileLeaves(mids: seq<State>, acts: seq<Action>, i: nat)
    requires Meanwhile(mids, acts) && i <= |acts|
    ensures mids[i].pc == mids[0].pc && mids[i].local == mids[0].local
    ensures mids[i].registry == mids[0].registry && mids[i].guard == mids[0].guard
    decreases i
  {
    if i > 0 {
      MeanwhileLeaves(mids, acts, i - 1);
      assert MeanwhileAt(mids, acts, i - 1);
      ThreadLeavesDrain(mids[i - 1], acts[i - 1], mids[i]);
    }
  }

  lemma {:induction false} MeanwhileLeavesLost(mids: seq<State>, acts: seq<Action>, i: nat, r: RingId)
    requires Meanwhile(mids, acts) && i <= |acts| && Lost(mids[0], r)
    ensures StillLost(mids[0], mids[i], r)
    decreases i
  {
    if i > 0 {
      MeanwhileLeavesLost(mids, acts, i - 1, r);
      assert MeanwhileAt(mids, acts, i - 1);
      ThreadLeavesLost(mids[i - 1], acts[i - 1], mids[i], r);
    }
  }

  lemma {:induction false} MeanwhileUp(mids: seq<State>, acts: seq<Action>, i: nat)
    requires Meanwhile(mids, acts) && i <= |acts| && UpInv(mids[0])
    ensures UpInv(mids[i])
    decreases i
  {
    if i > 0 {
      MeanwhileUp(mids, acts, i - 1);
      assert MeanwhileAt(mids, acts, i - 1);
      ThreadStepUp(mids[i - 1], acts[i - 1], mids[i]);
    }
  }

  lemma TornLeavesLost(
      mids: seq<State>, acts: seq<Action>, k: Keeps, local: seq<Entry>, fin: seq<RingId>, s': State, r: RingId)
    requires |mids| > 0 && TornSync(mids, acts, k, local, fin, s') && Lost(mids[0], r)
    ensures StillLost(mids[0], s', r)
  {
    MeanwhileLeavesLost(mids, acts, |acts|, r);
    FilterMembers(mids[0].registry, k.atRetain);
  }

  lemma StepLeavesLost(s: State, a: RaceAction, s': State, r: RingId)
    requires Lost(s, r) && RaceStep(s, a, s')
    ensures StillLost(s, s', r)
  {
    match a
    case Torn(mids, acts, k, local, fin) => TornLeavesLost(mids, acts, k, local, fin, s', r);
    case Ordinary(b) =>
      if ThreadStep(s, b, s') { ThreadLeavesLost(s, b, s', r); }
      else if SyncStep(s, b, s') { SyncLeavesLost(s, b, s', r); }
      else if PollStep(s, b, s') { PollLeavesLost(s, b, s', r); }
  }

  /** Once lost, the unread records of a ring are in no later sink, in any run,
  up to and past shutdown. */
  lemma {:induction false} LostForGood(states: seq<State>, acts: seq<RaceAction>, j: nat, i: nat, r: RingId)
    requires RaceRun(states, acts) && j <= i <= |acts| && Lost(states[j], r)
    ensures StillLost(states[j], states[i], r)
    decreases i
  {
    if j < i {
      LostForGood(states, acts, j, i - 1, r);
      assert RaceStepAt(states, acts, i - 1);
      StepLeavesLost(states[i - 1], acts[i - 1], states[i], r);
    }
  }

  /** A ring nobody may write to: dead, and then used by no thread and no spare. */
  lemma DeadIsUnused(s: State, r: RingId)
    requires UpInv(s) && r in s.registry && !IsLive(s, r)
    ensures r in s.rings && r !in s.spares
    ensures forall t | t in s.threads :: r !in Uses(s.threads[t])
  {
    assert RingOk(s, r);
    forall t | t in s.threads ensures r !in Uses(s.threads[t]) { assert ThreadOk(s, t); }
  }

  /** The exact moment: a sync loses a registered ring, whatever the threads do
  meanwhile, if and only if its flag was set for the finalize filter and clear when
  the drain's list was brought up to date. */
  lemma TornSyncLosesIff(
      mids: seq<State>, acts: seq<Action>, k: Keeps, local: seq<Entry>, fin: seq<RingId>, s': State, r: RingId)
    requires |mids| > 0 && UpInv(mids[0]) && TornSync(mids, acts, k, local, fin, s') && r in mids[0].registry
    ensures Lost(s', r)
            <==> k.atFilter(r) && !(if Listed(mids[0].local, r) then k.atReconcile(r) else k.atAdd(r))
  {
    var s, u := mids[0], mids[|acts|];
    MeanwhileUp(mids, acts, |acts|);
    MeanwhileLeaves(mids, acts, |acts|);
    ForgottenExactlyWhen(s.registry, s.local, k, (q: RingId) => SerialOf(s, q), s'.registry, local, fin, r);
    if !IsLive(u, r) { DeadIsUnused(u, r); }
  }

  // ---------------------------------------------------------------- A run that loses a record

  /** Thread 0 registers ring 7, logs one record and exits while the sync that
  would have listed the ring is under way: the finalize filter still saw it
  alive, the list update no longer does. */
  function Ring7(rec: seq<Record>, live: bool, holder: Holder): Ring {
    FRESH.(unread := rec, published := rec, live := live, holder := holder)
  }

  function Empty(): State {
    State(Plain, map[], [], 0, [], map[], [], Top, false, Up, [], map[], map[])
  }

  function Started(): State {
    Empty().(rings := map[7 := Ring7([], true, Held(0))], threads := map[0 := Starting(7)])
  }

  function Registered(): State {
    Started().(registry := [7], nextSerial := 1, threads := map[0 := Running(7)])
  }

  function Logged(rec: Record): State {
    Registered().(rings := map[7 := Ring7([rec], true, Held(0))], logged := map[0 := [rec]])
  }

  function Syncing(rec: Record): State { Logged(rec).(pc := SyncDue) }

  function Forgot(rec: Record): State { Gone(rec).(registry := [], pc := Finalizing([])) }

  const SEEN_ALIVE: Keeps := Keeps(r => r == 7, r => r == 7, r => r == 7, _ => false, _ => false)

  lemma Starts()
    ensures Init(Empty()) && Step(Empty(), StartThread(0, 7), Started())
  {
    assert Taken(Empty(), 0, 7).rings == map[7 := Ring7([], true, Held(0))];
    assert StartThreadStep(Empty(), 0, 7, Started());
  }

  lemma Registers()
    ensures Step(Started(), Register(0), Registered())
  {
    assert WithRegistered(Started(), 7).registry == [7];
    assert RegisterStep(Started(), 0, Registered());
  }

  lemma Logs(rec: Record)
    ensures Step(Registered(), Publish(0, rec), Logged(rec))
  {
    assert [] + [rec] == [rec];
    assert PublishStep(Registered(), 0, rec, Logged(rec));
  }

  lemma BeginsSync(rec: Record)
    ensures Step(Logged(rec), LoopTop(true), Syncing(rec))
  {
    assert LoopTopStep(Logged(rec), true, Syncing(rec));
  }

  lemma ScanMissesRing(serial: RingId -> nat)
    ensures ScanResult([7], [], SEEN_ALIVE, serial, [], []) && Filter([7], SEEN_ALIVE.atRetain) == []
  {
    FilterMembers([7], SEEN_ALIVE.atRetain);
  }

  function Gone(rec: Record): State {
    Syncing(rec).(rings := map[7 := Ring7([rec], false, Nobody)], threads := map[0 := Exited(7)])
  }

  lemma Exits(rec: Record)
    ensures Meanwhile([Syncing(rec), Gone(rec)], [ExitThread(0)])
  {
    assert ExitThreadStep(Syncing(rec), 0, Gone(rec));
    assert MeanwhileAt([Syncing(rec), Gone(rec)], [ExitThread(0)], 0);
  }

  lemma Tears(rec: Record)
    ensures TornSync([Syncing(rec), Gone(rec)], [ExitThread(0)], SEEN_ALIVE, [], [], Forgot(rec))
  {
    var s := Syncing(rec);
    Exits(rec);
    ScanMissesRing((r: RingId) => SerialOf(s, r));
  }

  lemma OneMore(states: seq<State>, acts: seq<RaceAction>, a: RaceAction, s': State)
    requires RaceRun(states, acts) && RaceStep(states[|acts|], a, s')
    ensures RaceRun(states + [s'], acts + [a])
  {
    forall i | 0 <= i < |acts| + 1 ensures RaceStepAt(states + [s'], acts + [a], i) {
      if i < |acts| { assert RaceStepAt(states, acts, i); }
    }
  }

  lemma ForgotIsLost(rec: Record)
    ensures Lost(Forgot(rec), 7)
  {
  }

  /** A run in which a record is published and, however the run goes on, never
  reaches the sink. */
  lemma LosingRun(rec: Record) returns (states: seq<State>, acts: seq<RaceAction>)
    ensures RaceRun(states, acts) && |acts| == 5 && states[5] == Forgot(rec) && Lost(states[5], 7)
  {
    Starts();
    states, acts := [Empty()], [];
    OneMore(states, acts, Ordinary(StartThread(0, 7)), Started());
    states, acts := states + [Started()], acts + [Ordinary(StartThread(0, 7))];
    Registers();
    OneMore(states, acts, Ordinary(Register(0)), Registered());
    states, acts := states + [Registered()], acts + [Ordinary(Register(0))];
    Logs(rec);
    OneMore(states, acts, Ordinary(Publish(0, rec)), Logged(rec));
    states, acts := states + [Logged(rec)], acts + [Ordinary(Publish(0, rec))];
    BeginsSync(rec);
    OneMore(states, acts, Ordinary(LoopTop(true)), Syncing(rec));
    states, acts := states + [Syncing(rec)], acts + [Ordinary(LoopTop(true))];
    Tears(rec);
    ForgotIsLost(rec);
    var torn := Torn([Syncing(rec), Gone(rec)], [ExitThread(0)], SEEN_ALIVE, [], []);
    OneMore(states, acts, torn, Forgot(rec));
    states, acts := states + [Forgot(rec)], acts + [torn];
  }

  lemma NeverDelivered(rec: Record, states: seq<State>, acts: seq<RaceAction>, i: nat)
    requires RaceRun(states, acts) && 5 <= i <= |acts| && states[5] == Forgot(rec)
    ensures 7 in states[i].rings && states[i].rings[7].published == [rec]
    ensures Delivered(states[i].sink, 7) == []
  {
    LostForGood(states, acts, 5, i, 7);
  }
}
