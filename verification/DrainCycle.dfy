/** What one turn of the drain's loop achieves while the guard is up: a sync and
a poll deliver everything published before they began. */
module DrainCycle {
  import opened Layout
  import opened RingSync
  import opened LoggerSystem
  import opened LoggerSafety

  // ---------------------------------------------------------------- Catching up

  /** The first `n` records published on `r` have been delivered. */
  ghost predicate Caught(s: State, r: RingId, n: nat)
    requires r in s.rings
  {
    |s.rings[r].published| - |s.rings[r].unread| >= n
  }

  /** The drain's list holds `r` at position `i` or later. */
  ghost predicate Ahead(local: seq<Entry>, i: nat, r: RingId) {
    exists k | i <= k < |local| :: local[k].ring == r
  }

  /** The rest of the turn still comes by `r`. */
  ghost predicate Pending(s: State, r: RingId) {
    match s.pc
    case SyncDue => Covered(s, r)
    case Scanned(fin) => Listed(s.local, r) || r in fin
    case Finalizing(fin) => Listed(s.local, r) || r in fin
    case Recycling(_, fin) => Listed(s.local, r) || r in fin
    case Polling(i) => Ahead(s.local, i, r)
    case Testing(i, _) => Ahead(s.local, i + 1, r)
    case Retiring(i, _) => Ahead(s.local, i + 1, r)
    case Returning(i, _) => Ahead(s.local, i, r)
    case Top => false
    case Done => false
  }

  ghost predicate OnCourse(s: State, r: RingId, n: nat) {
    r in s.rings && n <= |s.rings[r].published| && (Caught(s, r, n) || Pending(s, r))
  }

  lemma TakesOnCourse(s: State, t: Tid, q: RingId, first: bool, th: Thread, s': State, r: RingId, n: nat)
    requires MayTake(s, q, first) && s' == Taken(s, t, q).(threads := s.threads[t := th])
    requires OnCourse(s, r, n) && (q in s.rings ==> s.rings[q].unread == [])
    ensures OnCourse(s', r, n)
  {
  }

  lemma SparesAreEmpty(s: State, q: RingId, first: bool)
    requires UpInv(s) && MayTake(s, q, first) && q in s.rings
    ensures s.rings[q].unread == []
  {
    assert RingOk(s, q) && q in s.spares;
  }

  lemma WorkOnCourse(s: State, a: Action, s': State, r: RingId, n: nat)
    requires Works(s, a, s') && OnCourse(s, r, n)
    ensures OnCourse(s', r, n)
  {
  }

  lemma ThreadOnCourse(s: State, a: Action, s': State, r: RingId, n: nat)
    requires UpInv(s) && ThreadStep(s, a, s') && OnCourse(s, r, n)
    ensures OnCourse(s', r, n)
  {
    if a.StartThread? {
      if a.r in s.rings { SparesAreEmpty(s, a.r, true); }
      TakesOnCourse(s, a.t, a.r, true, Starting(a.r), s', r, n);
    } else if a.TakeNext? {
      if a.r in s.rings { SparesAreEmpty(s, a.r, false); }
      TakesOnCourse(s, a.t, a.r, false, Switching(s.threads[a.t].ring, a.r), s', r, n);
    } else {
      WorkOnCourse(s, a, s', r, n);
    }
  }

  /** A scan lists every live ring it knows of and closes every dead one. */
  lemma ScanOnCourse(s: State, local: seq<Entry>, fin: seq<RingId>, s': State, r: RingId, n: nat)
    requires UpInv(s) && ScanStep(s, local, fin, s') && OnCourse(s, r, n)
    ensures OnCourse(s', r, n)
  {
    assert RingOk(s, r);
  }

  lemma FinalDrainOnCourse(s: State, s': State, r: RingId, n: nat)
    requires FinalDrainStep(s, s') && OnCourse(s, r, n)
    ensures OnCourse(s', r, n)
  {
    assert s.pc.fin == [s.pc.fin[0]] + s.pc.fin[1..];
  }

  lemma GiveBackOnCourse(s: State, q: RingId, pc: Pc, s': State, r: RingId, n: nat)
    requires GivesBack(s, q, pc, s') && OnCourse(s, r, n)
    ensures OnCourse(s', r, n)
  {
  }

  lemma SyncOnCourse(s: State, a: Action, s': State, r: RingId, n: nat)
    requires UpInv(s) && SyncStep(s, a, s') && !a.LoopTop? && OnCourse(s, r, n)
    ensures OnCourse(s', r, n)
  {
    match a
    case Scan(local, fin) => ScanOnCourse(s, local, fin, s', r, n);
    case Prune =>
    case FinalDrain => FinalDrainOnCourse(s, s', r, n);
    case RecycleFinal => GiveBackOnCourse(s, s.pc.ring, s'.pc, s', r, n);
    case FinishSync =>
  }

  lemma PollEntryOnCourse(s: State, s': State, r: RingId, n: nat)
    requires Lists(s) && PollEntryStep(s, s') && OnCourse(s, r, n)
    ensures OnCourse(s', r, n)
  {
    if s.local[s.pc.i].ring != r && !Caught(s, r, n) {
      var k :| s.pc.i <= k < |s.local| && s.local[k].ring == r;
      assert s.pc.i + 1 <= k;
    }
  }

  /** The entry moved into the vacated position is looked at next. */
  lemma RetireOnCourse(s: State, s': State, r: RingId, n: nat)
    requires RetireStep(s, s') && OnCourse(s, r, n)
    ensures OnCourse(s', r, n)
  {
    if s'.pc.Returning? && !Caught(s, r, n) { AheadMoves(s.local, s.pc.i, r); }
  }

  lemma AheadMoves(local: seq<Entry>, i: nat, r: RingId)
    requires i < |local| && Ahead(local, i + 1, r)
    ensures Ahead(local[i := local[|local| - 1]][..|local| - 1], i, r)
  {
    var last := |local| - 1;
    var local' := local[i := local[last]][..last];
    var k :| i + 1 <= k < |local| && local[k].ring == r;
    assert local'[if k == last then i else k].ring == r;
  }

  lemma PollOnCourse(s: State, a: Action, s': State, r: RingId, n: nat)
    requires UpInv(s) && PollStep(s, a, s') && OnCourse(s, r, n)
    ensures OnCourse(s', r, n)
  {
    match a
    case PollEntry => PollEntryOnCourse(s, s', r, n);
    case TestEntry =>
    case Retire => RetireOnCourse(s, s', r, n);
    case ReturnSegment => GiveBackOnCourse(s, s.pc.ring, s'.pc, s', r, n);
    case FinishPoll =>
  }

  lemma StepOnCourse(s: State, a: Action, s': State, r: RingId, n: nat)
    requires UpInv(s) && Step(s, a, s') && s'.guard.Up? && !a.LoopTop? && OnCourse(s, r, n)
    ensures OnCourse(s', r, n)
  {
    if ThreadStep(s, a, s') { ThreadOnCourse(s, a, s', r, n); }
    else if SyncStep(s, a, s') { SyncOnCourse(s, a, s', r, n); }
    else if PollStep(s, a, s') { PollOnCourse(s, a, s', r, n); }
  }

  /** Action `j` opens a turn with a sync, action `i - 1` ends it, and the guard is
  still up then. */
  ghost predicate WholeTurn(states: seq<State>, acts: seq<Action>, j: nat, i: nat) {
    && Run(states, acts) && j < i - 1 < |acts|
    && acts[j] == LoopTop(true) && acts[i - 1].FinishPoll? && states[i].guard.Up?
    && forall k | j < k < i :: !acts[k].LoopTop?
  }

  lemma {:induction false} GuardStaysDown(states: seq<State>, acts: seq<Action>, k: nat, i: nat)
    requires Run(states, acts) && k <= i <= |acts| && states[i].guard.Up?
    ensures states[k].guard.Up?
    decreases i
  {
    if k < i {
      assert StepAt(states, acts, i - 1);
      StepGuard(states[i - 1], acts[i - 1], states[i]);
      GuardStaysDown(states, acts, k, i - 1);
    }
  }

  lemma StepGuard(s: State, a: Action, s': State)
    requires Step(s, a, s') && s'.guard.Up?
    ensures s.guard.Up?
  {
    if SyncStep(s, a, s') { SyncLeaves(s, a, s'); }
    else if PollStep(s, a, s') { PollLeaves(s, a, s'); }
  }

  lemma TurnBegins(s: State, s': State, r: RingId)
    requires UpInv(s) && LoopTopStep(s, true, s') && r in s.rings
    ensures OnCourse(s', r, |s.rings[r].published|)
  {
    assert RingOk(s, r);
  }

  lemma UpAt(states: seq<State>, acts: seq<Action>, k: nat, i: nat)
    requires Run(states, acts) && k <= i <= |acts| && states[i].guard.Up?
    ensures states[k].guard.Up? && UpInv(states[k])
  {
    GuardStaysDown(states, acts, k, i);
    RunKeepsInv(states, acts, k);
  }

  lemma TurnOpens(states: seq<State>, acts: seq<Action>, j: nat, i: nat, r: RingId)
    requires WholeTurn(states, acts, j, i) && r in states[j].rings
    ensures OnCourse(states[j + 1], r, |states[j].rings[r].published|)
  {
    UpAt(states, acts, j, i);
    assert StepAt(states, acts, j);
    TurnBegins(states[j], states[j + 1], r);
  }

  lemma TurnGoesOn(states: seq<State>, acts: seq<Action>, j: nat, k: nat, i: nat, r: RingId, n: nat)
    requires WholeTurn(states, acts, j, i) && j < k < i && OnCourse(states[k], r, n)
    ensures OnCourse(states[k + 1], r, n)
  {
    UpAt(states, acts, k, i);
    UpAt(states, acts, k + 1, i);
    assert StepAt(states, acts, k);
    StepOnCourse(states[k], acts[k], states[k + 1], r, n);
  }

  lemma {:induction false} TurnOnCourse(states: seq<State>, acts: seq<Action>, j: nat, k: nat, i: nat, r: RingId)
    requires WholeTurn(states, acts, j, i) && j < k <= i && r in states[j].rings
    ensures OnCourse(states[k], r, |states[j].rings[r].published|)
    decreases k
  {
    if k == j + 1 {
      TurnOpens(states, acts, j, i, r);
    } else {
      TurnOnCourse(states, acts, j, k - 1, i, r);
      TurnGoesOn(states, acts, j, k - 1, i, r, |states[j].rings[r].published|);
    }
  }

  /** One whole turn with a sync delivers, on every ring, every record published
  before the turn began, whatever all the threads do meanwhile. */
  lemma TurnDelivers(states: seq<State>, acts: seq<Action>, j: nat, i: nat, r: RingId)
    requires WholeTurn(states, acts, j, i) && r in states[j].rings
    ensures states[j].rings[r].published <= Delivered(states[i].sink, r)
  {
    TurnOnCourse(states, acts, j, i, i, r);
    assert StepAt(states, acts, i - 1);
    FinishedMeansCaught(states[i - 1], acts[i - 1], states[i]);
    HistoryGrows(states, acts, j, i, r);
    NothingLost(states, acts, i, r);
  }

  lemma FinishedMeansCaught(s: State, a: Action, s': State)
    requires Step(s, a, s') && a.FinishPoll?
    ensures s'.pc.Top? || s'.pc.Done?
  {
  }
}
