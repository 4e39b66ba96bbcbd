/** Nothing is lost and nothing is delivered twice, in every run of the logger. */
module LoggerSafety {
  import opened Layout
  import opened RingSync
  import opened LoggerSystem

  // ---------------------------------------------------------------- Invariant while the guard is up

  /** Some part of the drain still knows the ring. */
  ghost predicate Covered(s: State, r: RingId) {
    r in s.registry || Listed(s.local, r) || r in Closing(s.pc)
  }

  /** Conservation: what was published is what was delivered, then what is unread. */
  ghost predicate Conserved(s: State) {
    && (forall r | r in s.rings :: s.rings[r].published == Delivered(s.sink, r) + s.rings[r].unread)
    && (forall r :: r !in s.rings ==> Delivered(s.sink, r) == [])
  }

  /** Nothing is published, read or delivered. */
  ghost predicate KeepsRecords(s: State, s': State) {
    && s'.sink == s.sink && (forall r :: r in s'.rings <==> r in s.rings)
    && forall r | r in s.rings ::
         && s'.rings[r].published == s.rings[r].published && s'.rings[r].unread == s.rings[r].unread
         && s'.rings[r].recyclable == s.rings[r].recyclable
  }

  lemma ConservedKept(s: State, s': State)
    requires Conserved(s) && KeepsRecords(s, s')
    ensures Conserved(s')
  {
  }

  lemma GivenBackKeeps(s: State, r: RingId, pc: Pc)
    requires r in s.rings
    ensures KeepsRecords(s, GivenBack(s, r).(pc := pc))
  {
  }

  ghost predicate Lists(s: State) {
    && Distinct(s.registry) && NoDuplicates(s.local) && Distinct(s.spares) && Distinct(Closing(s.pc))
    && (forall r | r in s.registry :: r in s.rings)
    && (forall r | r in s.spares :: r in s.rings)
    && (forall r | r in Closing(s.pc) :: r in s.rings)
    && (forall i | 0 <= i < |s.local| ::
          s.local[i].ring in s.rings && s.local[i].serial == s.rings[s.local[i].ring].serial)
    && (!s.mode.NanoLog? ==> s.spares == [])
    && (s.pc.Scanned? ==> forall r | r in s.registry :: Listed(s.local, r) || r in s.pc.fin)
    && (s.pc.Testing? || s.pc.Retiring? ==> s.pc.i < |s.local| && s.local[s.pc.i] == s.pc.entry)
    && (s.pc.Retiring? ==> s.rings[s.pc.entry.ring].handedOff && s.rings[s.pc.entry.ring].unread == [])
    && (s.pc.Recycling? ==> s.rings[s.pc.ring].unread == [])
  }

  /** Where a pool segment may be. */
  ghost predicate Placed(s: State, r: RingId)
    requires r in s.rings
  {
    var x := s.rings[r];
    || r in s.spares
    || x.holder.Held?
    || (x.live && x.handedOff && r in s.registry)
    || (!x.live && (r in s.registry || Listed(s.local, r)))
    || r in Closing(s.pc)
  }

  ghost predicate RingOk(s: State, r: RingId)
    requires r in s.rings
  {
    var x := s.rings[r];
    && (x.unread != [] ==> Covered(s, r))
    && (Listed(s.local, r) ==> r in s.registry || !x.live)
    && (r in Closing(s.pc) ==>
          && !Listed(s.local, r) && (r in s.registry ==> s.pc.Scanned?)
          && (if s.pc.Returning? then x.live && x.handedOff && x.unread == [] else !x.live))
    && (r in s.spares ==> x.recyclable && x.unread == [] && !Covered(s, r) && x.holder.Nobody?)
    && (x.recyclable ==> s.mode.NanoLog? && Placed(s, r) && (r !in s.spares ==> !x.recycled))
    && (x.handedOff ==> x.live)
    && (x.holder.Held? ==>
          && x.live && !x.handedOff
          && x.holder.thread in s.threads && r in Uses(s.threads[x.holder.thread]))
  }

  ghost predicate ThreadOk(s: State, t: Tid)
    requires t in s.threads
  {
    forall r | r in Uses(s.threads[t]) ::
      && r in s.rings && s.rings[r].holder == Held(t)
      && (if s.threads[t].Running? then r in s.registry
          else s.rings[r].unread == [] && !Covered(s, r))
  }

  ghost predicate UpInv(s: State) {
    && s.guard.Up? && !s.final && !s.pc.Done?
    && Lists(s) && Conserved(s)
    && (forall r | r in s.rings :: RingOk(s, r))
    && (forall t | t in s.threads :: ThreadOk(s, t))
  }

  lemma InitUp(s: State)
    requires Init(s)
    ensures UpInv(s)
  {
    forall r | r in s.rings ensures RingOk(s, r) {}
  }

  // ---------------------------------------------------------------- Producer steps

  /** A running thread changes its own ring, and stays on it or leaves it. */
  ghost predicate Edits(s: State, t: Tid, x': Ring, th': Thread, s': State) {
    && t in s.threads && s.threads[t].Running? && s.threads[t].ring in s.rings
    && var r, x := s.threads[t].ring, s.rings[s.threads[t].ring];
       && s' == s.(rings := s.rings[r := x'], threads := s.threads[t := th'], logged := s'.logged)
       && x'.serial == x.serial && x'.recyclable == x.recyclable && x'.recycled == x.recycled
       && (x'.handedOff ==> x'.live)
       && if Uses(th') == {} then x'.holder.Nobody? && x'.unread == x.unread && x'.published == x.published
                                  && x'.handedOff == x'.live
          else th' == s.threads[t] && x' == x.(unread := x'.unread, published := x'.published)
  }

  lemma EditsRing(s: State, t: Tid, x': Ring, th': Thread, s': State, q: RingId)
    requires UpInv(s) && Edits(s, t, x', th', s') && q in s'.rings
    ensures RingOk(s', q)
  {
    assert ThreadOk(s, t) && s.threads[t].ring in Uses(s.threads[t]);
    assert RingOk(s, q);
  }

  lemma EditsThread(s: State, t: Tid, x': Ring, th': Thread, s': State, u: Tid)
    requires UpInv(s) && Edits(s, t, x', th', s') && u in s'.threads
    ensures ThreadOk(s', u)
  {
    assert ThreadOk(s, u) && ThreadOk(s, t) && s.threads[t].ring in Uses(s.threads[t]);
  }

  lemma EditsLists(s: State, t: Tid, x': Ring, th': Thread, s': State)
    requires UpInv(s) && Edits(s, t, x', th', s')
    ensures Lists(s')
  {
    assert ThreadOk(s, t) && s.threads[t].ring in Uses(s.threads[t]);
    assert RingOk(s, s.threads[t].ring);
  }

  lemma EditsUp(s: State, t: Tid, x': Ring, th': Thread, s': State)
    requires UpInv(s) && Edits(s, t, x', th', s') && Conserved(s')
    ensures UpInv(s')
  {
    EditsLists(s, t, x', th', s');
    forall q | q in s'.rings ensures RingOk(s', q) { EditsRing(s, t, x', th', s', q); }
    forall u | u in s'.threads ensures ThreadOk(s', u) { EditsThread(s, t, x', th', s', u); }
  }

  lemma PublishUp(s: State, t: Tid, rec: Record, s': State)
    requires UpInv(s) && PublishStep(s, t, rec, s')
    ensures UpInv(s')
  {
    var r := s.threads[t].ring;
    PublishConserves(s, t, rec, s');
    EditsUp(s, t, s'.rings[r], s.threads[t], s');
  }

  lemma PublishConserves(s: State, t: Tid, rec: Record, s': State)
    requires Conserved(s) && PublishStep(s, t, rec, s')
    ensures Conserved(s')
  {
  }

  lemma HandOffUp(s: State, t: Tid, s': State)
    requires UpInv(s) && HandOffStep(s, t, s')
    ensures UpInv(s')
  {
    var r := s.threads[t].ring;
    assert ThreadOk(s, t) && r in Uses(s.threads[t]);
    assert RingOk(s, r);
    EditsUp(s, t, s'.rings[r], Leaving(r), s');
  }

  lemma ExitUp(s: State, t: Tid, s': State)
    requires UpInv(s) && ExitThreadStep(s, t, s')
    ensures UpInv(s')
  {
    var r := s.threads[t].ring;
    assert ThreadOk(s, t) && r in Uses(s.threads[t]);
    assert RingOk(s, r);
    EditsUp(s, t, s'.rings[r], Exited(r), s');
  }

  /** A thread without a ring takes one: a new one, or a spare, which is empty and
  known to nobody. */
  ghost predicate Takes(s: State, t: Tid, r: RingId, first: bool, th: Thread, s': State) {
    && Uses(th) == {r} && !th.Running? && (t in s.threads ==> Uses(s.threads[t]) == {})
    && MayTake(s, r, first) && s' == Taken(s, t, r).(threads := s.threads[t := th])
  }

  lemma OtherSpares(spares: seq<RingId>, q: RingId)
    requires spares != [] && q != spares[|spares| - 1]
    ensures q in spares[..|spares| - 1] <==> q in spares
  {
    assert spares == spares[..|spares| - 1] + [spares[|spares| - 1]];
  }

  lemma TakesOther(s: State, t: Tid, r: RingId, first: bool, th: Thread, s': State, q: RingId)
    requires UpInv(s) && Takes(s, t, r, first, th, s') && q in s'.rings && q != r
    ensures RingOk(s', q)
  {
    if r in s.rings { OtherSpares(s.spares, q); }
    assert RingOk(s, q);
  }

  lemma TakesOwn(s: State, t: Tid, r: RingId, first: bool, th: Thread, s': State)
    requires UpInv(s) && Takes(s, t, r, first, th, s')
    ensures r in s'.rings && RingOk(s', r)
  {
    if r in s.rings { assert RingOk(s, r) && r in s.spares; }
  }

  lemma TakesThread(s: State, t: Tid, r: RingId, first: bool, th: Thread, s': State, u: Tid)
    requires UpInv(s) && Takes(s, t, r, first, th, s') && u in s'.threads
    ensures ThreadOk(s', u)
  {
    if r in s.rings { assert RingOk(s, r) && r in s.spares; }
    if u != t { assert ThreadOk(s, u); }
  }

  lemma TakesLists(s: State, t: Tid, r: RingId, first: bool, th: Thread, s': State)
    requires UpInv(s) && Takes(s, t, r, first, th, s')
    ensures Lists(s')
  {
    if r in s.rings { assert RingOk(s, r) && r in s.spares; }
  }

  lemma TakesConserves(s: State, t: Tid, r: RingId, s': State)
    requires Conserved(s) && s' == Taken(s, t, r).(threads := s'.threads)
    requires r in s.rings ==> s.rings[r].unread == []
    ensures Conserved(s')
  {
  }

  lemma TakesUp(s: State, t: Tid, r: RingId, first: bool, th: Thread, s': State)
    requires UpInv(s) && Takes(s, t, r, first, th, s')
    ensures UpInv(s')
  {
    TakesLists(s, t, r, first, th, s');
    if r in s.rings { assert RingOk(s, r) && r in s.spares; }
    TakesConserves(s, t, r, s');
    TakesOwn(s, t, r, first, th, s');
    forall q | q in s'.rings ensures RingOk(s', q) {
      if q != r { TakesOther(s, t, r, first, th, s', q); }
    }
    forall u | u in s'.threads ensures ThreadOk(s', u) { TakesThread(s, t, r, first, th, s', u); }
  }

  lemma RegisterRing(s: State, t: Tid, s': State, q: RingId)
    requires UpInv(s) && RegisterStep(s, t, s') && q in s'.rings
    ensures RingOk(s', q)
  {
    assert ThreadOk(s, t) && s.threads[t].next in Uses(s.threads[t]);
    assert RingOk(s, q);
  }

  lemma RegisterLists(s: State, t: Tid, s': State)
    requires UpInv(s) && RegisterStep(s, t, s')
    ensures Lists(s')
  {
    assert ThreadOk(s, t) && s.threads[t].next in Uses(s.threads[t]);
  }

  lemma RegisterThread(s: State, t: Tid, s': State, u: Tid)
    requires UpInv(s) && RegisterStep(s, t, s') && u in s'.threads
    ensures ThreadOk(s', u)
  {
    assert ThreadOk(s, u) && ThreadOk(s, t) && s.threads[t].next in Uses(s.threads[t]);
  }

  lemma RegisterUp(s: State, t: Tid, s': State)
    requires UpInv(s) && RegisterStep(s, t, s')
    ensures UpInv(s')
  {
    RegisterLists(s, t, s');
    forall q | q in s'.rings ensures RingOk(s', q) { RegisterRing(s, t, s', q); }
    forall u | u in s'.threads ensures ThreadOk(s', u) { RegisterThread(s, t, s', u); }
  }

  // ---------------------------------------------------------------- Drain steps

  /** A step that only moves the program counter between points that hold no ring. */
  lemma QuietUp(s: State, pc: Pc)
    requires UpInv(s) && !s.pc.Scanned? && Closing(s.pc) == [] && Closing(pc) == []
    requires pc.Top? || pc.SyncDue? || pc.Polling?
    ensures UpInv(s.(pc := pc))
  {
    var s' := s.(pc := pc);
    forall q | q in s'.rings ensures RingOk(s', q) { assert RingOk(s, q); }
    forall u | u in s'.threads ensures ThreadOk(s', u) { assert ThreadOk(s, u); }
  }

  lemma ScanUp(s: State, local: seq<Entry>, fin: seq<RingId>, s': State)
    requires UpInv(s) && ScanStep(s, local, fin, s')
    ensures UpInv(s')
  {
    forall q | q in s'.rings ensures RingOk(s', q) { assert RingOk(s, q); }
    forall u | u in s'.threads ensures ThreadOk(s', u) {
      assert ThreadOk(s, u);
      forall r | r in Uses(s.threads[u]) ensures r in s.rings { assert RingOk(s, r); }
    }
  }

  lemma PruneUp(s: State, s': State)
    requires UpInv(s) && PruneStep(s, s')
    ensures UpInv(s')
  {
    FilterMembers(s.registry, (r: RingId) => IsLive(s, r));
    forall q | q in s'.rings ensures RingOk(s', q) { assert RingOk(s, q); }
    forall u | u in s'.threads ensures ThreadOk(s', u) {
      assert ThreadOk(s, u);
      forall r | r in Uses(s.threads[u]) ensures r in s.rings { assert RingOk(s, r); }
    }
  }

  /** Draining one ring conserves records and touches nothing else. */
  lemma DrainedConserves(s: State, r: RingId)
    requires Conserved(s) && r in s.rings
    ensures Conserved(Drained(s, r))
  {
    forall q ensures Delivered(Drained(s, r).sink, q)
                     == Delivered(s.sink, q) + (if q == r then s.rings[r].unread else [])
    {
      DeliveredTag(s.sink, r, s.rings[r].unread, q);
    }
  }

  lemma FinalDrainUp(s: State, s': State)
    requires UpInv(s) && FinalDrainStep(s, s')
    ensures UpInv(s')
  {
    var r, rest := s.pc.fin[0], s.pc.fin[1..];
    DrainedConserves(s, r);
    assert Closing(s'.pc) == s.pc.fin;
    forall q | q in s'.rings ensures RingOk(s', q) { assert RingOk(s, q); }
    forall u | u in s'.threads ensures ThreadOk(s', u) { assert ThreadOk(s, u); }
  }

  /** A closed and empty ring goes back to the pool. */
  ghost predicate GivesBack(s: State, r: RingId, pc: Pc, s': State) {
    && r in s.rings && s' == GivenBack(s, r).(pc := pc)
    && ((s.pc.Recycling? && pc == Finalizing(s.pc.fin) && r == s.pc.ring)
        || (s.pc.Returning? && pc == Polling(s.pc.i) && r == s.pc.ring))
  }

  lemma ClosingShrinks(s: State, r: RingId, pc: Pc, s': State)
    requires GivesBack(s, r, pc, s')
    ensures Closing(s.pc) != [] && Closing(s.pc)[0] == r && Closing(s.pc)[1..] == Closing(pc)
    ensures forall q :: q in Closing(s.pc) <==> q == r || q in Closing(pc)
  {
    assert Closing(s.pc) == [r] + Closing(pc);
  }

  lemma GiveBackRing(s: State, r: RingId, pc: Pc, s': State, q: RingId)
    requires UpInv(s) && GivesBack(s, r, pc, s') && s.rings[r].unread == [] && q in s'.rings
    ensures RingOk(s', q)
  {
    ClosingShrinks(s, r, pc, s');
    assert RingOk(s, q) && RingOk(s, r);
  }

  lemma GiveBackLists(s: State, r: RingId, pc: Pc, s': State)
    requires UpInv(s) && GivesBack(s, r, pc, s') && s.rings[r].unread == []
    ensures Lists(s')
  {
    ClosingShrinks(s, r, pc, s');
    assert RingOk(s, r);
  }

  lemma GiveBackConserves(s: State, r: RingId, pc: Pc, s': State)
    requires Conserved(s) && GivesBack(s, r, pc, s')
    ensures Conserved(s')
  {
    GivenBackKeeps(s, r, pc);
    ConservedKept(s, s');
  }

  lemma GiveBackThread(s: State, r: RingId, pc: Pc, s': State, u: Tid)
    requires UpInv(s) && GivesBack(s, r, pc, s') && s.rings[r].unread == [] && u in s'.threads
    ensures ThreadOk(s', u)
  {
    ClosingShrinks(s, r, pc, s');
    assert ThreadOk(s, u) && RingOk(s, r);
  }

  lemma GiveBackUp(s: State, r: RingId, pc: Pc, s': State)
    requires UpInv(s) && GivesBack(s, r, pc, s') && s.rings[r].unread == []
    ensures UpInv(s')
  {
    GiveBackLists(s, r, pc, s');
    GiveBackConserves(s, r, pc, s');
    forall q | q in s'.rings ensures RingOk(s', q) { GiveBackRing(s, r, pc, s', q); }
    forall u | u in s'.threads ensures ThreadOk(s', u) { GiveBackThread(s, r, pc, s', u); }
  }

  lemma PollEntryRing(s: State, s': State, q: RingId)
    requires UpInv(s) && PollEntryStep(s, s') && q in s'.rings
    ensures RingOk(s', q)
  {
    assert RingOk(s, q);
  }

  lemma PollEntryThread(s: State, s': State, u: Tid)
    requires UpInv(s) && PollEntryStep(s, s') && u in s'.threads
    ensures ThreadOk(s', u)
  {
    assert ThreadOk(s, u);
  }

  lemma PollEntryLists(s: State, s': State)
    requires UpInv(s) && PollEntryStep(s, s')
    ensures Lists(s')
  {
  }

  lemma PollEntryConserves(s: State, s': State)
    requires Conserved(s) && PollEntryStep(s, s')
    ensures Conserved(s')
  {
    DrainedConserves(s, s.local[s.pc.i].ring);
  }

  lemma PollEntryUp(s: State, s': State)
    requires UpInv(s) && PollEntryStep(s, s')
    ensures UpInv(s')
  {
    PollEntryLists(s, s');
    PollEntryConserves(s, s');
    forall q | q in s'.rings ensures RingOk(s', q) { PollEntryRing(s, s', q); }
    forall u | u in s'.threads ensures ThreadOk(s', u) { PollEntryThread(s, s', u); }
  }

  lemma TestEntryUp(s: State, s': State)
    requires UpInv(s) && TestEntryStep(s, s')
    ensures UpInv(s')
  {
    forall q | q in s'.rings ensures RingOk(s', q) { assert RingOk(s, q); }
    forall u | u in s'.threads ensures ThreadOk(s', u) { assert ThreadOk(s, u); }
  }

  /** Segment `r` leaves the registry and the drain's list, and nothing else
  changes. */
  ghost predicate Unlists(s: State, r: RingId, i: nat, s': State) {
    && s' == s.(registry := s'.registry, local := s'.local, pc := Returning(i, r))
    && Distinct(s'.registry) && NoDuplicates(s'.local)
    && (forall q :: q in s'.registry <==> q in s.registry && q != r)
    && (forall q :: Listed(s'.local, q) <==> Listed(s.local, q) && q != r)
    && (forall k | 0 <= k < |s'.local| :: s'.local[k] in s.local)
  }

  lemma RetireUnlists(s: State, s': State)
    requires Lists(s) && RetireStep(s, s') && s'.pc.Returning?
    ensures Unlists(s, s.pc.entry.ring, s.pc.i, s')
  {
    FilterMembers(s.registry, (r: RingId) => r != s.pc.entry.ring);
    SwapRemoveListed(s.local, s.pc.i);
  }

  lemma UnlistRing(s: State, r: RingId, i: nat, s': State, q: RingId)
    requires Unlists(s, r, i, s') && s.pc.Retiring? && r in s.rings && q in s.rings
    requires r in s.registry && s.rings[r].handedOff && s.rings[r].unread == []
    requires RingOk(s, q) && RingOk(s, r)
    ensures RingOk(s', q)
  {
  }

  lemma UnlistThread(s: State, r: RingId, i: nat, s': State, u: Tid)
    requires Unlists(s, r, i, s') && s.pc.Retiring? && r in s.rings && u in s.threads
    requires s.rings[r].handedOff && RingOk(s, r) && ThreadOk(s, u)
    ensures ThreadOk(s', u)
  {
  }

  lemma UnlistLists(s: State, r: RingId, i: nat, s': State)
    requires Lists(s) && Unlists(s, r, i, s') && s.pc.Retiring? && r in s.rings
    ensures Lists(s')
  {
  }

  lemma UnlistUp(s: State, s': State)
    requires UpInv(s) && RetireStep(s, s') && s'.pc.Returning?
    ensures UpInv(s')
  {
    var r, i := s.pc.entry.ring, s.pc.i;
    RetireUnlists(s, s');
    UnlistLists(s, r, i, s');
    assert RingOk(s, r);
    forall q | q in s'.rings ensures RingOk(s', q) { UnlistRing(s, r, i, s', q); }
    forall u | u in s'.threads ensures ThreadOk(s', u) { UnlistThread(s, r, i, s', u); }
  }

  lemma RetireUp(s: State, s': State)
    requires UpInv(s) && RetireStep(s, s')
    ensures UpInv(s')
  {
    if s'.pc.Returning? { UnlistUp(s, s'); } else { QuietUp(s, s'.pc); }
  }

  /** The steps of a thread other than taking a ring: its ring may grow, die or be registered. */
  ghost predicate Works(s: State, a: Action, s': State) {
    ThreadStep(s, a, s') && !a.StartThread? && !a.TakeNext?
  }

  lemma WorkUp(s: State, a: Action, s': State)
    requires UpInv(s) && Works(s, a, s')
    ensures UpInv(s')
  {
    match a
    case Publish(t, rec) => PublishUp(s, t, rec, s');
    case HandOff(t) => HandOffUp(s, t, s');
    case Register(t) => RegisterUp(s, t, s');
    case ExitThread(t) => ExitUp(s, t, s');
  }

  lemma ThreadStepUp(s: State, a: Action, s': State)
    requires UpInv(s) && ThreadStep(s, a, s')
    ensures UpInv(s')
  {
    if a.StartThread? { TakesUp(s, a.t, a.r, true, Starting(a.r), s'); }
    else if a.TakeNext? { TakesUp(s, a.t, a.r, false, Switching(s.threads[a.t].ring, a.r), s'); }
    else { WorkUp(s, a, s'); }
  }

  lemma SyncStepUp(s: State, a: Action, s': State)
    requires UpInv(s) && SyncStep(s, a, s')
    ensures UpInv(s')
  {
    match a
    case LoopTop(_) => QuietUp(s, s'.pc);
    case Scan(local, fin) => ScanUp(s, local, fin, s');
    case Prune => PruneUp(s, s');
    case FinalDrain => FinalDrainUp(s, s');
    case RecycleFinal => GiveBackUp(s, s.pc.ring, s'.pc, s');
    case FinishSync => QuietUp(s, s'.pc);
  }

  lemma PollStepUp(s: State, a: Action, s': State)
    requires UpInv(s) && PollStep(s, a, s')
    ensures UpInv(s')
  {
    match a
    case PollEntry => PollEntryUp(s, s');
    case TestEntry => TestEntryUp(s, s');
    case Retire => RetireUp(s, s');
    case ReturnSegment =>
      assert RingOk(s, s.pc.ring);
      GiveBackUp(s, s.pc.ring, s'.pc, s');
    case FinishPoll => QuietUp(s, s'.pc);
  }

  // ---------------------------------------------------------------- Invariant after the guard marked

  /** Records published on `r` before the mark are still undelivered. */
  ghost predicate Behind(s: State, r: RingId)
    requires r in s.snapshot && r in s.rings
  {
    |s.rings[r].published| - |s.rings[r].unread| < s.snapshot[r]
  }

  /** Until the ring has caught up with its snapshot it is dead and on its way to
  the final drain. */
  ghost predicate SnapshotOk(s: State, r: RingId)
    requires r in s.snapshot && r in s.rings
  {
    && s.snapshot[r] <= |s.rings[r].published|
    && (Behind(s, r) ==>
          && !s.rings[r].live && Covered(s, r)
          && (s.pc.Scanned? || (s.final && !s.pc.SyncDue?) ==> r in Closing(s.pc))
          && !(s.pc.Retiring? && r == s.pc.entry.ring)
          && !(s.pc.Recycling? && r == s.pc.ring)
          && !(s.pc.Returning? && r == s.pc.ring))
  }

  ghost predicate DownBase(s: State) {
    && !s.guard.Up? && Conserved(s)
    && (!s.mode.NanoLog? ==> s.spares == [] && forall r | r in s.rings :: !s.rings[r].recyclable)
    && (s.pc.Done? ==> s.final)
    && (s.pc.Testing? || s.pc.Retiring? ==> s.pc.i < |s.local| && s.local[s.pc.i] == s.pc.entry)
    && (forall r | r in s.snapshot :: r in s.rings)
  }

  ghost predicate DownInv(s: State) {
    DownBase(s) && forall r | r in s.snapshot :: SnapshotOk(s, r)
  }

  lemma GuardMarkDown(s: State, s': State)
    requires UpInv(s) && GuardMarkStep(s, s')
    ensures DownInv(s')
  {
    MarkKeepsBase(s, s');
    forall r | r in s'.snapshot ensures SnapshotOk(s', r) { MarkTakesSnapshot(s, s', r); }
  }

  lemma MarkKeepsBase(s: State, s': State)
    requires UpInv(s) && GuardMarkStep(s, s')
    ensures DownBase(s')
  {
    forall r | r in s.rings ensures RingOk(s, r) {}
  }

  lemma MarkTakesSnapshot(s: State, s': State, r: RingId)
    requires UpInv(s) && GuardMarkStep(s, s') && r in s.rings
    ensures SnapshotOk(s', r)
  {
    assert RingOk(s, r);
  }

  // ---------------------------------------------------------------- Producer steps after the mark

  lemma TakesBase(s: State, t: Tid, r: RingId, first: bool, th: Thread, s': State)
    requires DownBase(s) && !s.mode.NanoLog? && MayTake(s, r, first)
    requires s' == Taken(s, t, r).(threads := s.threads[t := th])
    ensures DownBase(s')
  {
  }

  lemma TakesDown(s: State, t: Tid, r: RingId, first: bool, th: Thread, s': State)
    requires DownInv(s) && !s.mode.NanoLog? && MayTake(s, r, first)
    requires s' == Taken(s, t, r).(threads := s.threads[t := th])
    ensures DownInv(s')
  {
    TakesBase(s, t, r, first, th, s');
    forall q | q in s'.snapshot ensures SnapshotOk(s', q) { assert SnapshotOk(s, q); }
  }

  lemma PublishBase(s: State, t: Tid, rec: Record, s': State)
    requires DownBase(s) && PublishStep(s, t, rec, s')
    ensures DownBase(s')
  {
    PublishConserves(s, t, rec, s');
  }

  lemma KeptBase(s: State, s': State)
    requires DownBase(s) && KeepsRecords(s, s') && s'.guard == s.guard && s'.mode == s.mode
    requires s'.snapshot == s.snapshot && s'.spares == s.spares && s'.pc == s.pc
    requires s'.local == s.local && s'.final == s.final
    ensures DownBase(s')
  {
    ConservedKept(s, s');
  }

  lemma WorkBase(s: State, a: Action, s': State)
    requires DownBase(s) && Works(s, a, s')
    ensures DownBase(s') && s'.snapshot == s.snapshot
  {
    if a.Publish? { PublishBase(s, a.t, a.rec, s'); } else { KeptBase(s, s'); }
  }

  lemma WorkSnapshot(s: State, a: Action, s': State, r: RingId)
    requires DownBase(s) && Works(s, a, s') && r in s.snapshot && SnapshotOk(s, r)
    ensures r in s'.snapshot && r in s'.rings && SnapshotOk(s', r)
  {
  }

  lemma ThreadStepDown(s: State, a: Action, s': State)
    requires DownInv(s) && ThreadStep(s, a, s')
    ensures DownInv(s')
  {
    if a.StartThread? { TakesDown(s, a.t, a.r, true, Starting(a.r), s'); }
    else if a.TakeNext? { TakesDown(s, a.t, a.r, false, Switching(s.threads[a.t].ring, a.r), s'); }
    else { WorkDown(s, a, s'); }
  }

  lemma WorkDown(s: State, a: Action, s': State)
    requires DownInv(s) && Works(s, a, s')
    ensures DownInv(s')
  {
    WorkBase(s, a, s');
    forall r | r in s'.snapshot ensures SnapshotOk(s', r) { WorkSnapshot(s, a, s', r); }
  }

  // ---------------------------------------------------------------- Drain steps after the mark

  /** A step that only moves the program counter. */
  lemma QuietDown(s: State, pc: Pc, final: bool)
    requires DownInv(s) && !s.pc.Scanned? && Closing(s.pc) == [] && (pc.SyncDue? || final == s.final)
    requires pc.Top? || pc.SyncDue? || pc.Polling? || (pc.Done? && s.final) || (pc.Retiring? && s.pc.Testing?)
    requires s.pc.SyncDue? ==> pc.SyncDue?
    requires pc.Retiring? ==>
               && pc.i == s.pc.i && pc.entry == s.pc.entry
               && pc.entry.ring in s.rings && s.rings[pc.entry.ring].unread == []
    ensures DownInv(s.(pc := pc, final := final))
  {
    var s' := s.(pc := pc, final := final);
    forall r | r in s'.snapshot ensures SnapshotOk(s', r) { assert SnapshotOk(s, r); }
  }

  lemma ScanDown(s: State, local: seq<Entry>, fin: seq<RingId>, s': State)
    requires DownInv(s) && ScanStep(s, local, fin, s')
    ensures DownInv(s')
  {
    forall r | r in s'.snapshot ensures SnapshotOk(s', r) { assert SnapshotOk(s, r); }
  }

  lemma PruneDown(s: State, s': State)
    requires DownInv(s) && PruneStep(s, s')
    ensures DownInv(s')
  {
    forall r | r in s'.snapshot ensures SnapshotOk(s', r) { assert SnapshotOk(s, r); }
  }

  lemma FinalDrainBase(s: State, s': State)
    requires DownBase(s) && FinalDrainStep(s, s')
    ensures DownBase(s')
  {
    DrainedConserves(s, s.pc.fin[0]);
  }

  lemma FinalDrainDown(s: State, s': State)
    requires DownInv(s) && FinalDrainStep(s, s')
    ensures DownInv(s')
  {
    FinalDrainBase(s, s');
    assert Closing(s'.pc) == s.pc.fin;
    forall r | r in s'.snapshot ensures SnapshotOk(s', r) { assert SnapshotOk(s, r); }
  }

  lemma PollEntryBase(s: State, s': State)
    requires DownBase(s) && PollEntryStep(s, s')
    ensures DownBase(s')
  {
    PollEntryConserves(s, s');
  }

  lemma PollEntrySnapshot(s: State, s': State, r: RingId)
    requires PollEntryStep(s, s') && r in s.snapshot && r in s.rings && SnapshotOk(s, r)
    ensures r in s'.snapshot && r in s'.rings && SnapshotOk(s', r)
  {
  }

  lemma PollEntryDown(s: State, s': State)
    requires DownInv(s) && PollEntryStep(s, s')
    ensures DownInv(s')
  {
    PollEntryBase(s, s');
    forall r | r in s'.snapshot ensures SnapshotOk(s', r) { PollEntrySnapshot(s, s', r); }
  }

  lemma RetireSnapshot(s: State, s': State, r: RingId)
    requires DownBase(s) && RetireStep(s, s') && r in s.snapshot && SnapshotOk(s, r)
    ensures r in s'.snapshot && r in s'.rings && SnapshotOk(s', r)
  {
    if s'.pc.Returning? {
      FilterMembers(s.registry, (q: RingId) => q != s.pc.entry.ring);
      SwapRemoveListed(s.local, s.pc.i);
    }
  }

  lemma RetireDown(s: State, s': State)
    requires DownInv(s) && RetireStep(s, s')
    ensures DownInv(s')
  {
    forall r | r in s'.snapshot ensures SnapshotOk(s', r) { RetireSnapshot(s, s', r); }
  }

  lemma GiveBackSnapshot(s: State, r: RingId, pc: Pc, s': State, q: RingId)
    requires GivesBack(s, r, pc, s') && q in s.snapshot && q in s.rings && SnapshotOk(s, q)
    ensures q in s'.snapshot && q in s'.rings && SnapshotOk(s', q)
  {
    ClosingShrinks(s, r, pc, s');
  }

  lemma GiveBackBase(s: State, r: RingId, pc: Pc, s': State)
    requires DownBase(s) && GivesBack(s, r, pc, s')
    ensures DownBase(s')
  {
    GiveBackConserves(s, r, pc, s');
  }

  lemma GiveBackDown(s: State, r: RingId, pc: Pc, s': State)
    requires DownInv(s) && GivesBack(s, r, pc, s')
    ensures DownInv(s')
  {
    GiveBackBase(s, r, pc, s');
    forall q | q in s'.snapshot ensures SnapshotOk(s', q) { GiveBackSnapshot(s, r, pc, s', q); }
  }

  lemma SyncStepDown(s: State, a: Action, s': State)
    requires DownInv(s) && SyncStep(s, a, s')
    ensures DownInv(s')
  {
    match a
    case LoopTop(_) => QuietDown(s, s'.pc, s'.final);
    case Scan(local, fin) => ScanDown(s, local, fin, s');
    case Prune => PruneDown(s, s');
    case FinalDrain => FinalDrainDown(s, s');
    case RecycleFinal => GiveBackDown(s, s.pc.ring, s'.pc, s');
    case FinishSync => QuietDown(s, s'.pc, s'.final);
  }

  lemma PollStepDown(s: State, a: Action, s': State)
    requires DownInv(s) && PollStep(s, a, s')
    ensures DownInv(s')
  {
    match a
    case PollEntry => PollEntryDown(s, s');
    case TestEntry => QuietDown(s, s'.pc, s'.final);
    case Retire => RetireDown(s, s');
    case ReturnSegment => GiveBackDown(s, s.pc.ring, s'.pc, s');
    case FinishPoll => QuietDown(s, s'.pc, s'.final);
  }

  // ---------------------------------------------------------------- Whole runs

  /** A run of the logger from its initial state. */
  ghost predicate Run(states: seq<State>, acts: seq<Action>) {
    && |states| == |acts| + 1
    && Init(states[0])
    && forall i | 0 <= i < |acts| :: StepAt(states, acts, i)
  }

  ghost predicate StepAt(states: seq<State>, acts: seq<Action>, i: nat)
    requires |states| == |acts| + 1 && i < |acts|
  {
    Step(states[i], acts[i], states[i + 1])
  }

  /** Before or after the guard's mark. */
  ghost predicate Inv(s: State) { UpInv(s) || DownInv(s) }

  lemma DrainStepKeepsInv(s: State, a: Action, s': State)
    requires Inv(s) && DrainStep(s, a, s')
    ensures Inv(s')
  {
    if SyncStep(s, a, s') {
      if UpInv(s) { SyncStepUp(s, a, s'); } else { SyncStepDown(s, a, s'); }
    } else {
      if UpInv(s) { PollStepUp(s, a, s'); } else { PollStepDown(s, a, s'); }
    }
  }

  lemma StepKeepsInv(s: State, a: Action, s': State)
    requires Inv(s) && Step(s, a, s')
    ensures Inv(s')
  {
    if ThreadStep(s, a, s') {
      if UpInv(s) { ThreadStepUp(s, a, s'); } else { ThreadStepDown(s, a, s'); }
    } else if DrainStep(s, a, s') {
      DrainStepKeepsInv(s, a, s');
    } else if a.GuardMark? {
      GuardMarkDown(s, s');
    } else {
      forall r | r in s'.snapshot ensures SnapshotOk(s', r) { assert SnapshotOk(s, r); }
    }
  }

  lemma {:induction false} RunKeepsInv(states: seq<State>, acts: seq<Action>, i: nat)
    requires Run(states, acts) && i <= |acts|
    ensures Inv(states[i])
  {
    if i == 0 {
      InitUp(states[0]);
    } else {
      RunKeepsInv(states, acts, i - 1);
      assert StepAt(states, acts, i - 1);
      StepKeepsInv(states[i - 1], acts[i - 1], states[i]);
    }
  }

  /** In every run, at every moment, for any number of producers: each ring's
  delivered records followed by its unread ones are exactly what was published
  to it, and, until the guard marks the rings, a ring with unread records is in
  the registry, in the drain's list or among the rings being closed. */
  lemma NothingLost(states: seq<State>, acts: seq<Action>, i: nat, r: RingId)
    requires Run(states, acts) && i <= |acts| && r in states[i].rings
    ensures states[i].rings[r].published == Delivered(states[i].sink, r) + states[i].rings[r].unread
    ensures states[i].guard.Up? && states[i].rings[r].unread != [] ==> Covered(states[i], r)
  {
    RunKeepsInv(states, acts, i);
    if states[i].guard.Up? { assert RingOk(states[i], r); }
  }

  /** What no step undoes. */
  ghost predicate Onward(s: State, s': State, r: RingId)
    requires r in s.rings
  {
    && r in s'.rings && s.rings[r].published <= s'.rings[r].published
    && (!s.guard.Up? ==> !s'.guard.Up? && s'.snapshot == s.snapshot)
  }

  /** What the drain leaves alone. */
  ghost predicate DrainLeaves(s: State, s': State) {
    && s'.mode == s.mode && s'.threads == s.threads && s'.logged == s.logged
    && s'.guard == s.guard && s'.snapshot == s.snapshot
    && forall r | r in s.rings :: r in s'.rings && s'.rings[r].published == s.rings[r].published
  }

  lemma DrainedLeaves(s: State, r: RingId)
    requires r in s.rings
    ensures DrainLeaves(s, Drained(s, r))
  {
  }

  lemma GivenBackLeaves(s: State, r: RingId)
    requires r in s.rings
    ensures DrainLeaves(s, GivenBack(s, r))
  {
  }

  lemma SyncLeaves(s: State, a: Action, s': State)
    requires SyncStep(s, a, s')
    ensures DrainLeaves(s, s')
  {
    match a
    case LoopTop(_) =>
    case Scan(_, _) =>
    case Prune =>
    case FinalDrain => DrainedLeaves(s, s.pc.fin[0]);
    case RecycleFinal => GivenBackLeaves(s, s.pc.ring);
    case FinishSync =>
  }

  lemma PollEntryLeaves(s: State, s': State)
    requires PollEntryStep(s, s')
    ensures DrainLeaves(s, s')
  {
    DrainedLeaves(s, s.local[s.pc.i].ring);
  }

  lemma PollLeaves(s: State, a: Action, s': State)
    requires PollStep(s, a, s')
    ensures DrainLeaves(s, s')
  {
    match a
    case PollEntry => PollEntryLeaves(s, s');
    case TestEntry =>
    case Retire =>
    case ReturnSegment => GivenBackLeaves(s, s.pc.ring);
    case FinishPoll =>
  }

  lemma TakesOnward(s: State, t: Tid, r: RingId, first: bool, th: Thread, s': State, q: RingId)
    requires MayTake(s, r, first) && s' == Taken(s, t, r).(threads := s.threads[t := th]) && q in s.rings
    ensures Onward(s, s', q)
  {
  }

  lemma WorkOnward(s: State, a: Action, s': State, r: RingId)
    requires Works(s, a, s') && r in s.rings
    ensures Onward(s, s', r)
  {
  }

  lemma ThreadStepOnward(s: State, a: Action, s': State, r: RingId)
    requires ThreadStep(s, a, s') && r in s.rings
    ensures Onward(s, s', r)
  {
    if a.StartThread? { TakesOnward(s, a.t, a.r, true, Starting(a.r), s', r); }
    else if a.TakeNext? { TakesOnward(s, a.t, a.r, false, Switching(s.threads[a.t].ring, a.r), s', r); }
    else { WorkOnward(s, a, s', r); }
  }

  lemma StepOnward(s: State, a: Action, s': State, r: RingId)
    requires Step(s, a, s') && r in s.rings
    ensures Onward(s, s', r)
  {
    if ThreadStep(s, a, s') { ThreadStepOnward(s, a, s', r); }
    else if SyncStep(s, a, s') { SyncLeaves(s, a, s'); }
    else if PollStep(s, a, s') { PollLeaves(s, a, s'); }
  }

  lemma {:induction false} HistoryGrows(states: seq<State>, acts: seq<Action>, j: nat, i: nat, r: RingId)
    requires Run(states, acts) && j <= i <= |acts| && r in states[j].rings
    ensures Onward(states[j], states[i], r)
    decreases i
  {
    if j < i {
      HistoryGrows(states, acts, j, i - 1, r);
      assert StepAt(states, acts, i - 1);
      StepOnward(states[i - 1], acts[i - 1], states[i], r);
    }
  }

  lemma SnapshotLasts(states: seq<State>, acts: seq<Action>, j: nat, i: nat, r: RingId)
    requires Run(states, acts) && j < i <= |acts| && acts[j].GuardMark? && r in states[j].rings
    ensures !states[i].guard.Up? && r in states[i].snapshot
    ensures states[i].snapshot[r] == |states[j].rings[r].published|
  {
    assert StepAt(states, acts, j);
    HistoryGrows(states, acts, j, j + 1, r);
    HistoryGrows(states, acts, j + 1, i, r);
  }

  lemma DoneMeansCaughtUp(s: State, r: RingId)
    requires DownInv(s) && s.pc.Done? && r in s.snapshot
    ensures r in s.rings && |Delivered(s.sink, r)| >= s.snapshot[r]
    ensures Delivered(s.sink, r) <= s.rings[r].published
  {
    assert SnapshotOk(s, r);
    assert s.rings[r].published == Delivered(s.sink, r) + s.rings[r].unread;
  }

  /** Shutdown: action `j` is the guard marking the rings; at `i` the drain thread
  has ended. Everything published by then, on any ring, synced before or not,
  has been delivered, in order, and nothing is delivered twice. */
  lemma ShutdownDelivers(states: seq<State>, acts: seq<Action>, j: nat, i: nat, r: RingId)
    requires Run(states, acts) && j < i <= |acts| && acts[j].GuardMark? && states[i].pc.Done?
    requires r in states[j].rings
    ensures r in states[i].rings
    ensures states[j].rings[r].published <= Delivered(states[i].sink, r) <= states[i].rings[r].published
  {
    RunKeepsInv(states, acts, i);
    HistoryGrows(states, acts, j, i, r);
    SnapshotLasts(states, acts, j, i, r);
    DoneMeansCaughtUp(states[i], r);
  }

  // ---------------------------------------------------------------- The bounded pool

  function Count(b: bool): nat { if b then 1 else 0 }

  /** In runs of the bounded pool, before the mark, every pool segment is in
  exactly one place: a spare, some thread's ring, handed off and registered,
  the ring of an exited thread waiting for the next sync, or being closed. */
  lemma PoolPartition(states: seq<State>, acts: seq<Action>, i: nat, r: RingId)
    requires Run(states, acts) && i <= |acts| && states[i].guard.Up?
    requires r in states[i].rings && states[i].rings[r].recyclable
    ensures var s, x := states[i], states[i].rings[r];
            Count(r in s.spares)
            + Count(exists t :: t in s.threads && r in Uses(s.threads[t]))
            + Count(x.live && x.handedOff && r in s.registry)
            + Count(!x.live && r !in Closing(s.pc) && (r in s.registry || Listed(s.local, r)))
            + Count(r in Closing(s.pc)) == 1
  {
    RunKeepsInv(states, acts, i);
    var s := states[i];
    assert RingOk(s, r);
    assert s.rings[r].holder.Held? <==> exists t :: t in s.threads && r in Uses(s.threads[t]) by {
      if t :| t in s.threads && r in Uses(s.threads[t]) { assert ThreadOk(s, t); }
    }
  }

  /** A segment is rewound only when all it ever held has been delivered, and
  two threads never write to the same ring. */
  lemma RewindLosesNothing(states: seq<State>, acts: seq<Action>, i: nat)
    requires Run(states, acts) && i < |acts| && states[i].guard.Up?
    requires acts[i].StartThread? || acts[i].TakeNext?
    ensures acts[i].r in states[i].rings ==>
              && states[i].rings[acts[i].r].unread == []
              && Delivered(states[i].sink, acts[i].r) == states[i].rings[acts[i].r].published
  {
    RunKeepsInv(states, acts, i);
    assert StepAt(states, acts, i);
    var s, r := states[i], acts[i].r;
    if r in s.rings { assert RingOk(s, r); }
  }

  lemma OneWriterPerRing(states: seq<State>, acts: seq<Action>, i: nat, t: Tid, u: Tid)
    requires Run(states, acts) && i <= |acts| && states[i].guard.Up?
    requires t in states[i].threads && u in states[i].threads && t != u
    ensures Uses(states[i].threads[t]) !! Uses(states[i].threads[u])
  {
    RunKeepsInv(states, acts, i);
    assert ThreadOk(states[i], t) && ThreadOk(states[i], u);
  }
}
