/** Order within a thread, under the policies that give each thread one ring. */
module ThreadOrder {
  import opened Layout
  import opened RingSync
  import opened LoggerSystem
  import opened LoggerSafety

  /** The ring a thread logs to, or logged to last. */
  function OwnRing(th: Thread): RingId {
    if th.Starting? || th.Switching? then th.next else th.ring
  }

  /** The thread has logged to one ring only, and nobody else has. */
  ghost predicate Owns(s: State, t: Tid)
    requires t in s.threads
  {
    && !s.threads[t].Leaving? && !s.threads[t].Switching?
    && OwnRing(s.threads[t]) in s.rings
    && s.rings[OwnRing(s.threads[t])].published == LoggedBy(s, t)
  }

  ghost predicate Apart(s: State, t: Tid, u: Tid)
    requires t in s.threads && u in s.threads
  {
    t != u ==> OwnRing(s.threads[t]) != OwnRing(s.threads[u])
  }

  ghost predicate PlainInv(s: State) {
    && s.mode.Plain?
    && (forall t | t in s.threads :: Owns(s, t))
    && (forall t, u | t in s.threads && u in s.threads :: Apart(s, t, u))
    && (forall t | t in s.logged :: t in s.threads)
  }

  /** A step that publishes nothing and moves no thread. */
  lemma ElsewherePlain(s: State, s': State)
    requires PlainInv(s) && s'.mode == s.mode && s'.threads == s.threads && s'.logged == s.logged
    requires forall r | r in s.rings :: r in s'.rings && s'.rings[r].published == s.rings[r].published
    ensures PlainInv(s')
  {
    forall t | t in s'.threads ensures Owns(s', t) { assert Owns(s, t); }
    forall t, u | t in s'.threads && u in s'.threads ensures Apart(s', t, u) { assert Apart(s, t, u); }
  }

  lemma StartPlain(s: State, a: Action, s': State)
    requires PlainInv(s) && ThreadStep(s, a, s') && a.StartThread?
    ensures PlainInv(s')
  {
    forall t | t in s'.threads ensures Owns(s', t) {
      if t != a.t { assert Owns(s, t); }
    }
    forall t, u | t in s'.threads && u in s'.threads ensures Apart(s', t, u) {
      if t != a.t { assert Owns(s, t); }
      if u != a.t { assert Owns(s, u); }
      if t != a.t && u != a.t { assert Apart(s, t, u); }
    }
  }

  lemma PublishPlain(s: State, a: Action, s': State)
    requires PlainInv(s) && ThreadStep(s, a, s') && a.Publish?
    ensures PlainInv(s')
  {
    assert Owns(s, a.t);
    forall t | t in s'.threads ensures Owns(s', t) { assert Owns(s, t) && Apart(s, t, a.t); }
    forall t, u | t in s'.threads && u in s'.threads ensures Apart(s', t, u) { assert Apart(s, t, u); }
  }

  /** Registering and exiting keep the thread on its ring. */
  lemma MovePlain(s: State, a: Action, s': State)
    requires PlainInv(s) && ThreadStep(s, a, s') && (a.Register? || a.ExitThread?)
    ensures PlainInv(s')
  {
    assert Owns(s, a.t);
    forall t | t in s'.threads ensures Owns(s', t) { assert Owns(s, t); }
    forall t, u | t in s'.threads && u in s'.threads ensures Apart(s', t, u) { assert Apart(s, t, u); }
  }

  lemma StepPlain(s: State, a: Action, s': State)
    requires PlainInv(s) && Step(s, a, s')
    ensures PlainInv(s')
  {
    if ThreadStep(s, a, s') {
      forall t | t in s.threads ensures !s.threads[t].Leaving? { assert Owns(s, t); }
      if a.StartThread? { StartPlain(s, a, s'); }
      else if a.Publish? { PublishPlain(s, a, s'); }
      else { MovePlain(s, a, s'); }
    } else {
      if SyncStep(s, a, s') { SyncLeaves(s, a, s'); }
      if PollStep(s, a, s') { PollLeaves(s, a, s'); }
      ElsewherePlain(s, s');
    }
  }

  lemma {:induction false} RunIsPlain(states: seq<State>, acts: seq<Action>, i: nat)
    requires Run(states, acts) && i <= |acts| && states[0].mode.Plain?
    ensures PlainInv(states[i])
    decreases i
  {
    if i > 0 {
      RunIsPlain(states, acts, i - 1);
      assert StepAt(states, acts, i - 1);
      StepPlain(states[i - 1], acts[i - 1], states[i]);
    }
  }

  /** Under the Drop and Block policies, in every run and at every moment, before
  and after the guard's mark and after the thread's exit: what the sink got from
  a thread's ring, followed by what is unread there, is what the thread logged,
  in the thread's own order. */
  lemma ThreadOrderKept(states: seq<State>, acts: seq<Action>, i: nat, t: Tid)
    requires Run(states, acts) && i <= |acts| && states[0].mode.Plain? && t in states[i].threads
    ensures var s := states[i];
            var r := OwnRing(s.threads[t]);
            && r in s.rings && s.rings[r].published == LoggedBy(s, t)
            && Delivered(s.sink, r) + s.rings[r].unread == LoggedBy(s, t)
            && Delivered(s.sink, r) <= LoggedBy(s, t)
  {
    RunIsPlain(states, acts, i);
    assert Owns(states[i], t);
    NothingLost(states, acts, i, OwnRing(states[i].threads[t]));
  }

  /** No two threads ever log to the same ring, not even after the mark. */
  lemma WritersStayApart(states: seq<State>, acts: seq<Action>, i: nat, t: Tid, u: Tid)
    requires Run(states, acts) && i <= |acts| && states[0].mode.Plain? && t != u
    requires t in states[i].threads && u in states[i].threads
    ensures OwnRing(states[i].threads[t]) != OwnRing(states[i].threads[u])
  {
    RunIsPlain(states, acts, i);
    assert Apart(states[i], t, u);
  }
}
