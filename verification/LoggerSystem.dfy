/** The whole logger: any number of producer threads, the shared registry, the
segment pool, the drain thread and the guard that shuts it down.

A ring is abstracted to the queue of its unread records, and a drain pass is one
step: `RingRefinement` shows that the byte-level protocol is such a ring, the
step being the moment at which the pass loads `head`. Everything else is step by step: marking a
segment handed off, taking the next one and registering it are three steps, a
sync is a scan and a prune with the registry lock held in between, retiring a
segment is a test, an unregistration and a return to the pool.

Hypotheses, stated where they enter: a ring's live flag does not change while
the scan of one sync looks at it (`Scan` is one step; `RingSync` shows what
happens otherwise); a handoff under the bounded pool finds a spare
(`TakeNext`); and producers of the bounded pool have stopped when the guard
marks the rings dead (`ProducerMayStep`). */
module LoggerSystem {
  import opened Layout
  import opened RingSync

  type Tid = nat

  /** `Plain` stands for the Drop and Block policies: one ring per thread. */
  datatype Mode = Plain | Quill | NanoLog

  datatype Holder = Nobody | Held(thread: Tid)

  datatype Ring = Ring(
    unread: seq<Record>,
    live: bool, handedOff: bool, recyclable: bool, recycled: bool, serial: nat,
    // Histories: everything published here, and the thread using the ring.
    published: seq<Record>, holder: Holder)

  datatype Thread =
    | Starting(next: RingId)               // has its first ring, not registered yet
    | Running(ring: RingId)
    | Leaving(ring: RingId)                // marked its full segment handed off
    | Switching(ring: RingId, next: RingId) // has the next segment, not registered yet
    | Exited(ring: RingId)                 // the ring it used last

  datatype Guard = Up | Marked | Signalled

  datatype Pc =
    | Top
    | SyncDue
    | Scanned(fin: seq<RingId>)                     // registry lock held
    | Finalizing(fin: seq<RingId>)
    | Recycling(ring: RingId, fin: seq<RingId>)     // final drain done
    | Polling(i: nat)
    | Testing(i: nat, entry: Entry)                 // entry drained, may be retired
    | Retiring(i: nat, entry: Entry)                // test passed, lock not taken yet
    | Returning(i: nat, ring: RingId)               // unregistered and unlisted
    | Done

  datatype State = State(
    mode: Mode,
    rings: map<RingId, Ring>,
    registry: seq<RingId>, nextSerial: nat,
    spares: seq<RingId>,
    threads: map<Tid, Thread>,
    local: seq<Entry>, pc: Pc, final: bool,
    guard: Guard,
    sink: seq<(RingId, Record)>,
    // Histories: per ring, how many records were published when the guard
    // marked; per thread, what it logged.
    snapshot: map<RingId, nat>, logged: map<Tid, seq<Record>>)

  datatype Action =
    | StartThread(t: Tid, r: RingId)
    | Publish(t: Tid, rec: Record)
    | HandOff(t: Tid)
    | TakeNext(t: Tid, r: RingId)
    | Register(t: Tid)
    | ExitThread(t: Tid)
    | LoopTop(sync: bool)
    | Scan(local: seq<Entry>, fin: seq<RingId>)
    | Prune
    | FinalDrain
    | RecycleFinal
    | FinishSync
    | PollEntry
    | TestEntry
    | Retire
    | ReturnSegment
    | FinishPoll
    | GuardMark
    | GuardSignal

  // ---------------------------------------------------------------- Pieces of steps

  const FRESH := Ring([], true, false, false, false, 0, [], Nobody)

  function Rewound(x: Ring): Ring {
    x.(unread := [], live := true, handedOff := false, recycled := false)
  }

  /** The ring a thread writes to, or is about to. */
  function Uses(th: Thread): set<RingId> {
    match th
    case Starting(n) => {n}
    case Running(r) => {r}
    case Switching(_, n) => {n}
    case _ => {}
  }

  /** Rings on their way out of the drain's hands. */
  function Closing(pc: Pc): seq<RingId> {
    match pc
    case Scanned(fin) => fin
    case Finalizing(fin) => fin
    case Recycling(r, fin) => [r] + fin
    case Returning(_, r) => [r]
    case _ => []
  }

  function Tag(r: RingId, xs: seq<Record>): seq<(RingId, Record)> {
    if xs == [] then [] else Tag(r, xs[..|xs| - 1]) + [(r, xs[|xs| - 1])]
  }

  /** What the sink received from ring `r`. */
  function Delivered(sink: seq<(RingId, Record)>, r: RingId): seq<Record> {
    if sink == [] then []
    else
      var last := sink[|sink| - 1];
      Delivered(sink[..|sink| - 1], r) + (if last.0 == r then [last.1] else [])
  }

  lemma DeliveredSnoc(sink: seq<(RingId, Record)>, r: RingId, x: Record, q: RingId)
    ensures Delivered(sink + [(r, x)], q) == Delivered(sink, q) + (if q == r then [x] else [])
  {
    var all := sink + [(r, x)];
    assert all[..|all| - 1] == sink && all[|all| - 1] == (r, x);
  }

  lemma {:induction false} DeliveredTag(sink: seq<(RingId, Record)>, r: RingId, xs: seq<Record>, q: RingId)
    ensures Delivered(sink + Tag(r, xs), q) == Delivered(sink, q) + (if q == r then xs else [])
    decreases |xs|
  {
    if xs == [] {
      assert sink + Tag(r, xs) == sink;
    } else {
      var init, x, d := xs[..|xs| - 1], xs[|xs| - 1], Delivered(sink, q);
      var tags := Tag(r, init);
      DeliveredTag(sink, r, init, q);
      Assoc(sink, tags, [(r, x)]);
      DeliveredSnoc(sink + tags, r, x, q);
      Assoc(d, init, [x]);
      assert xs == init + [x];
    }
  }

  /** What a thread logged so far, in its own order. */
  function LoggedBy(s: State, t: Tid): seq<Record> { if t in s.logged then s.logged[t] else [] }

  function IsLive(s: State, r: RingId): bool { r in s.rings && s.rings[r].live }

  function SerialOf(s: State, r: RingId): nat { if r in s.rings then s.rings[r].serial else 0 }

  /** Liveness asked at one instant, for the whole scan. */
  function LiveNow(s: State): Keeps {
    var keep := (r: RingId) => IsLive(s, r);
    Keeps(keep, keep, keep, keep, keep)
  }

  predicate ProducerMayStep(s: State) {
    s.guard.Up? || !s.mode.NanoLog?
  }

  /** Which ring a thread may take: the last spare if there is one, else a new
  one. A handoff under the bounded pool only takes spares. */
  predicate MayTake(s: State, r: RingId, first: bool) {
    if s.mode.NanoLog? && s.spares != [] then r == s.spares[|s.spares| - 1] && r in s.rings
    else (s.mode.NanoLog? ==> first) && r !in s.rings
  }

  /** The ring taken: rewound if it is a spare. */
  function Taken(s: State, t: Tid, r: RingId): State {
    if r in s.rings then
      s.(spares := if s.spares == [] then [] else s.spares[..|s.spares| - 1],
         rings := s.rings[r := Rewound(s.rings[r]).(holder := Held(t))])
    else s.(rings := s.rings[r := FRESH.(holder := Held(t))])
  }

  function Drained(s: State, r: RingId): State
    requires r in s.rings
  {
    s.(sink := s.sink + Tag(r, s.rings[r].unread), rings := s.rings[r := s.rings[r].(unread := [])])
  }

  /** `drain_recycle`: pool segments go back to the spares, once. */
  function GivenBack(s: State, r: RingId): State
    requires r in s.rings
  {
    if s.rings[r].recyclable && !s.rings[r].recycled then
      s.(spares := s.spares + [r], rings := s.rings[r := s.rings[r].(recycled := true)])
    else s
  }

  function WithRegistered(s: State, r: RingId): State
    requires r in s.rings
  {
    s.(registry := if r in s.registry then s.registry else s.registry + [r],
       nextSerial := s.nextSerial + 1,
       rings := s.rings[r := s.rings[r].(serial := s.nextSerial)])
  }

  // ---------------------------------------------------------------- Steps

  ghost predicate StartThreadStep(s: State, t: Tid, r: RingId, s': State) {
    t !in s.threads && MayTake(s, r, true) && s' == Taken(s, t, r).(threads := s.threads[t := Starting(r)])
  }

  ghost predicate PublishStep(s: State, t: Tid, rec: Record, s': State) {
    && t in s.threads && s.threads[t].Running? && s.threads[t].ring in s.rings
    && var r := s.threads[t].ring;
       var x := s.rings[r];
       s' == s.(rings := s.rings[r := x.(unread := x.unread + [rec], published := x.published + [rec])],
                logged := s.logged[t := LoggedBy(s, t) + [rec]])
  }

  ghost predicate HandOffStep(s: State, t: Tid, s': State) {
    && !s.mode.Plain? && t in s.threads && s.threads[t].Running? && s.threads[t].ring in s.rings
    && var r := s.threads[t].ring;
       s' == s.(rings := s.rings[r := s.rings[r].(handedOff := true, holder := Nobody)],
                threads := s.threads[t := Leaving(r)])
  }

  ghost predicate TakeNextStep(s: State, t: Tid, r: RingId, s': State) {
    && t in s.threads && s.threads[t].Leaving? && MayTake(s, r, false)
    && s' == Taken(s, t, r).(threads := s.threads[t := Switching(s.threads[t].ring, r)])
  }

  ghost predicate RegisterStep(s: State, t: Tid, s': State) {
    && !s.pc.Scanned? && t in s.threads && (s.threads[t].Starting? || s.threads[t].Switching?)
    && s.threads[t].next in s.rings
    && s' == WithRegistered(s, s.threads[t].next).(threads := s.threads[t := Running(s.threads[t].next)])
  }

  ghost predicate ExitThreadStep(s: State, t: Tid, s': State) {
    && t in s.threads && s.threads[t].Running? && s.threads[t].ring in s.rings
    && var r := s.threads[t].ring;
       s' == s.(rings := s.rings[r := s.rings[r].(live := false, holder := Nobody)],
                threads := s.threads[t := Exited(r)])
  }

  ghost predicate ThreadStep(s: State, a: Action, s': State) {
    ProducerMayStep(s) &&
    match a
    case StartThread(t, r) => StartThreadStep(s, t, r, s')
    case Publish(t, rec) => PublishStep(s, t, rec, s')
    case HandOff(t) => HandOffStep(s, t, s')
    case TakeNext(t, r) => TakeNextStep(s, t, r, s')
    case Register(t) => RegisterStep(s, t, s')
    case ExitThread(t) => ExitThreadStep(s, t, s')
    case _ => false
  }

  ghost predicate LoopTopStep(s: State, sync: bool, s': State) {
    && s.pc.Top?
    && s' == if s.guard.Signalled? then s.(pc := SyncDue, final := true)
             else s.(pc := if sync then SyncDue else Polling(0))
  }

  ghost predicate ScanStep(s: State, local: seq<Entry>, fin: seq<RingId>, s': State) {
    && s.pc.SyncDue?
    && ScanResult(s.registry, s.local, LiveNow(s), (r: RingId) => SerialOf(s, r), local, fin)
    && s' == s.(local := local, pc := Scanned(fin))
  }

  ghost predicate PruneStep(s: State, s': State) {
    && s.pc.Scanned?
    && s' == s.(registry := Filter(s.registry, (r: RingId) => IsLive(s, r)), pc := Finalizing(s.pc.fin))
  }

  ghost predicate FinalDrainStep(s: State, s': State) {
    && s.pc.Finalizing? && s.pc.fin != [] && s.pc.fin[0] in s.rings
    && s' == Drained(s, s.pc.fin[0]).(pc := Recycling(s.pc.fin[0], s.pc.fin[1..]))
  }

  ghost predicate RecycleFinalStep(s: State, s': State) {
    && s.pc.Recycling? && s.pc.ring in s.rings
    && s' == GivenBack(s, s.pc.ring).(pc := Finalizing(s.pc.fin))
  }

  ghost predicate FinishSyncStep(s: State, s': State) {
    && s.pc.Finalizing? && s.pc.fin == []
    && s' == s.(pc := Polling(0))
  }

  ghost predicate PollEntryStep(s: State, s': State) {
    && s.pc.Polling? && s.pc.i < |s.local|
    && var e := s.local[s.pc.i];
       e.ring in s.rings
       && s' == if s.rings[e.ring].serial != e.serial then s.(pc := Polling(s.pc.i + 1))
                else Drained(s, e.ring).(pc := Testing(s.pc.i, e))
  }

  ghost predicate TestEntryStep(s: State, s': State) {
    && s.pc.Testing? && s.pc.entry.ring in s.rings
    && var x := s.rings[s.pc.entry.ring];
       s' == s.(pc := if x.handedOff && x.serial == s.pc.entry.serial && x.unread == []
                      then Retiring(s.pc.i, s.pc.entry) else Polling(s.pc.i + 1))
  }

  ghost predicate RetireStep(s: State, s': State) {
    && s.pc.Retiring? && s.pc.i < |s.local| && s.pc.entry.ring in s.rings
    && var Retiring(i, e) := s.pc;
       s' == if s.rings[e.ring].serial != e.serial || e.ring !in s.registry then s.(pc := Polling(i + 1))
             else s.(registry := Filter(s.registry, (r: RingId) => r != e.ring),
                     local := s.local[i := s.local[|s.local| - 1]][..|s.local| - 1],
                     pc := Returning(i, e.ring))
  }

  ghost predicate ReturnSegmentStep(s: State, s': State) {
    && s.pc.Returning? && s.pc.ring in s.rings
    && s' == GivenBack(s, s.pc.ring).(pc := Polling(s.pc.i))
  }

  ghost predicate FinishPollStep(s: State, s': State) {
    && s.pc.Polling? && s.pc.i >= |s.local|
    && s' == s.(pc := if s.final then Done else Top)
  }

  /** The steps of `sync_rings`, and the loop's choice to make one. */
  ghost predicate SyncStep(s: State, a: Action, s': State) {
    match a
    case LoopTop(sync) => LoopTopStep(s, sync, s')
    case Scan(local, fin) => ScanStep(s, local, fin, s')
    case Prune => PruneStep(s, s')
    case FinalDrain => FinalDrainStep(s, s')
    case RecycleFinal => RecycleFinalStep(s, s')
    case FinishSync => FinishSyncStep(s, s')
    case _ => false
  }

  /** The steps of `poll_once`. */
  ghost predicate PollStep(s: State, a: Action, s': State) {
    match a
    case PollEntry => PollEntryStep(s, s')
    case TestEntry => TestEntryStep(s, s')
    case Retire => RetireStep(s, s')
    case ReturnSegment => ReturnSegmentStep(s, s')
    case FinishPoll => FinishPollStep(s, s')
    case _ => false
  }

  ghost predicate DrainStep(s: State, a: Action, s': State) {
    SyncStep(s, a, s') || PollStep(s, a, s')
  }

  /** `Guard::drop`: mark every registered ring dead under the lock. */
  ghost predicate GuardMarkStep(s: State, s': State) {
    && s.guard.Up? && !s.pc.Scanned?
    && s' == s.(guard := Marked,
                rings := map r | r in s.rings ::
                           if r in s.registry then s.rings[r].(live := false) else s.rings[r],
                snapshot := map r | r in s.rings :: |s.rings[r].published|)
  }

  ghost predicate GuardStep(s: State, a: Action, s': State) {
    match a
    case GuardMark => GuardMarkStep(s, s')
    case GuardSignal => s.guard.Marked? && s' == s.(guard := Signalled)
    case _ => false
  }

  ghost predicate Step(s: State, a: Action, s': State) {
    ThreadStep(s, a, s') || DrainStep(s, a, s') || GuardStep(s, a, s')
  }

  /** Everything empty, the pool's segments parked as spares. */
  ghost predicate Init(s: State) {
    && s == State(s.mode, s.rings, [], 0, s.spares, map[], [], Top, false, Up, [], map[], map[])
    && Distinct(s.spares) && (!s.mode.NanoLog? ==> s.spares == [])
    && (forall r :: r in s.rings <==> r in s.spares)
    && (forall r | r in s.rings :: s.rings[r] == FRESH.(recyclable := true))
  }
}
