/** The registry of rings and the drain's own list of them: `register_ring` and
`sync_rings`.

`sync_rings` asks "is this ring still kept?" up to five times per ring, each
time reading a flag that the ring's producer may clear at any moment. The five
questions are five functions here, `Keeps`, so what happens when the answers
differ can be stated exactly. */
module RingSync {

  type RingId = nat

  /** A local list entry: the ring and the registration serial it was listed under. */
  datatype Entry = Entry(ring: RingId, serial: nat)

  /** The five answers, in the order the code asks. */
  datatype Keeps = Keeps(
    atFilter: RingId -> bool,     // collecting rings to finalize from the registry
    atStale: RingId -> bool,      // collecting them from the local list
    atReconcile: RingId -> bool,  // keeping a local entry
    atAdd: RingId -> bool,        // adding a registered ring to the local list
    atRetain: RingId -> bool)     // keeping a ring in the registry

  ghost predicate Listed(es: seq<Entry>, r: RingId) {
    exists i | 0 <= i < |es| :: es[i].ring == r
  }

  ghost predicate NoDuplicates(es: seq<Entry>) {
    forall i, j | 0 <= i < j < |es| :: es[i].ring != es[j].ring
  }

  ghost predicate Distinct(rs: seq<RingId>) {
    forall i, j | 0 <= i < j < |rs| :: rs[i] != rs[j]
  }

  function Filter(rs: seq<RingId>, keep: RingId -> bool): seq<RingId> {
    if rs == [] then []
    else Filter(rs[..|rs| - 1], keep) + (if keep(rs[|rs| - 1]) then [rs[|rs| - 1]] else [])
  }

  lemma {:induction false} FilterMembers(rs: seq<RingId>, keep: RingId -> bool)
    ensures forall r :: r in Filter(rs, keep) <==> r in rs && keep(r)
    ensures Distinct(rs) ==> Distinct(Filter(rs, keep))
  {
    if rs != [] {
      var init, last := rs[..|rs| - 1], rs[|rs| - 1];
      FilterMembers(init, keep);
      assert rs == init + [last];
      if Distinct(rs) {
        assert last !in init;
      }
    }
  }

  /** What one sync leaves behind, ring by ring; list orders are left open. */
  ghost predicate SyncResult(
      registry: seq<RingId>, local: seq<Entry>, k: Keeps, serial: RingId -> nat,
      registry': seq<RingId>, local': seq<Entry>, finalize: seq<RingId>)
  {
    && ScanResult(registry, local, k, serial, local', finalize)
    && registry' == Filter(registry, k.atRetain)
  }

  /** The part of a sync before the registry is pruned. */
  ghost predicate ScanResult(
      registry: seq<RingId>, local: seq<Entry>, k: Keeps, serial: RingId -> nat,
      local': seq<Entry>, finalize: seq<RingId>)
  {
    && (forall r :: r in finalize <==>
          || (r in registry && !k.atFilter(r))
          || (Listed(local, r) && r !in registry && !k.atStale(r)))
    && (forall r :: Listed(local', r) <==>
          r in registry && (k.atAdd(r) || (Listed(local, r) && k.atReconcile(r))))
    && (forall i | 0 <= i < |local'| :: local'[i].serial == serial(local'[i].ring))
    && (Distinct(registry) && NoDuplicates(local) ==> NoDuplicates(local') && Distinct(finalize))
  }

  /** The shared registry: a vector under a lock. */
  class Registry {
    var rings: seq<RingId>
    var nextSerial: nat

    constructor ()
      ensures rings == [] && nextSerial == 0
    {
      rings, nextSerial := [], 0;
    }

    /** `register_ring`: stamps a fresh serial and adds the ring unless it is
    already there. */
    method Register(ring: RingId) returns (serial: nat)
      modifies this
      ensures serial == old(nextSerial) && nextSerial == serial + 1
      ensures rings == if ring in old(rings) then old(rings) else old(rings) + [ring]
      ensures old(Distinct(rings)) ==> Distinct(rings)
    {
      serial := nextSerial;
      nextSerial := nextSerial + 1;
      var i := 0;
      while i < |rings| && rings[i] != ring
        invariant 0 <= i <= |rings|
        invariant ring !in rings[..i]
      {
        i := i + 1;
      }
      if i < |rings| {
        rings := rings[i := ring];
      } else {
        rings := rings + [ring];
      }
    }
  }

  /** The drain's local list. */
  class Drain {
    var rings: seq<Entry>

    constructor ()
      ensures rings == []
    {
      rings := [];
    }

    method IsListed(r: RingId) returns (b: bool)
      ensures b == Listed(rings, r)
    {
      b := false;
      for i := 0 to |rings|
        invariant b <==> exists j | 0 <= j < i :: rings[j].ring == r
      {
        if rings[i].ring == r { b := true; }
      }
    }

    /** The rings that close down now. */
    method CollectFinalize(registry: seq<RingId>, k: Keeps) returns (finalize: seq<RingId>)
      ensures forall r :: r in finalize <==>
                || (r in registry && !k.atFilter(r))
                || (Listed(rings, r) && r !in registry && !k.atStale(r))
      ensures Distinct(registry) && NoDuplicates(rings) ==> Distinct(finalize)
    {
      finalize := [];
      for i := 0 to |registry|
        invariant forall r :: r in finalize <==> r in registry[..i] && !k.atFilter(r)
        invariant Distinct(registry) ==> Distinct(finalize)
      {
        assert registry[..i + 1] == registry[..i] + [registry[i]];
        if !k.atFilter(registry[i]) { finalize := finalize + [registry[i]]; }
      }
      assert registry[..|registry|] == registry;
      for i := 0 to |rings|
        invariant forall r :: r in finalize <==>
                    || (r in registry && !k.atFilter(r))
                    || (Listed(rings[..i], r) && r !in registry && !k.atStale(r))
        invariant Distinct(registry) && NoDuplicates(rings) ==> Distinct(finalize)
      {
        ListedSnoc(rings[..i], rings[i]);
        assert rings[..i + 1] == rings[..i] + [rings[i]];
        var ring := rings[i].ring;
        if !k.atStale(ring) && ring !in registry { finalize := finalize + [ring]; }
      }
      assert rings[..|rings|] == rings;
    }

    /** Walks the list in place: an entry that is registered and kept stays and
    gets the current serial; any other is replaced by the last one. */
    method Reconcile(registry: seq<RingId>, keep: RingId -> bool, serial: RingId -> nat)
      modifies this
      ensures forall r :: Listed(rings, r) <==> old(Listed(rings, r)) && r in registry && keep(r)
      ensures forall i | 0 <= i < |rings| :: rings[i].serial == serial(rings[i].ring)
      ensures old(NoDuplicates(rings)) ==> NoDuplicates(rings)
    {
      var i := 0;
      while i < |rings|
        invariant 0 <= i <= |rings|
        invariant forall j | 0 <= j < i :: rings[j].ring in registry && keep(rings[j].ring)
        invariant forall j | 0 <= j < i :: rings[j].serial == serial(rings[j].ring)
        invariant forall r :: Listed(rings, r) ==> old(Listed(rings, r))
        invariant forall r :: old(Listed(rings, r)) && r in registry && keep(r) ==> Listed(rings, r)
        invariant old(NoDuplicates(rings)) ==> NoDuplicates(rings)
        decreases |rings| - i
      {
        var ring := rings[i].ring;
        if ring in registry && keep(ring) {
          RefreshKeepsListed(rings, i, Entry(ring, serial(ring)));
          rings := rings[i := Entry(ring, serial(ring))];
          i := i + 1;
        } else {
          var last := |rings| - 1;
          SwapRemoveListed(rings, i);
          rings := rings[i := rings[last]][..last];
        }
      }
    }

    /** Appends registered rings that are kept and not yet listed. */
    method AddNew(registry: seq<RingId>, keep: RingId -> bool, serial: RingId -> nat)
      requires forall i | 0 <= i < |rings| :: rings[i].serial == serial(rings[i].ring)
      modifies this
      ensures old(rings) <= rings
      ensures forall r :: Listed(rings, r) <==> old(Listed(rings, r)) || (r in registry && keep(r))
      ensures forall i | 0 <= i < |rings| :: rings[i].serial == serial(rings[i].ring)
      ensures old(NoDuplicates(rings)) ==> NoDuplicates(rings)
    {
      for i := 0 to |registry|
        invariant old(rings) <= rings
        invariant forall r :: Listed(rings, r) <==> old(Listed(rings, r)) || (r in registry[..i] && keep(r))
        invariant forall j | 0 <= j < |rings| :: rings[j].serial == serial(rings[j].ring)
        invariant old(NoDuplicates(rings)) ==> NoDuplicates(rings)
      {
        var ring := registry[i];
        assert registry[..i + 1] == registry[..i] + [ring];
        var listed := IsListed(ring);
        if keep(ring) && !listed {
          ListedSnoc(rings, Entry(ring, serial(ring)));
          rings := rings + [Entry(ring, serial(ring))];
        }
      }
      assert registry[..|registry|] == registry;
    }

    /** `sync_rings`, up to the final drain of the rings it returns. */
    method SyncRings(registry: Registry, k: Keeps, serial: RingId -> nat) returns (finalize: seq<RingId>)
      modifies this, registry
      ensures SyncResult(old(registry.rings), old(rings), k, serial, registry.rings, rings, finalize)
      ensures registry.nextSerial == old(registry.nextSerial)
    {
      finalize := CollectFinalize(registry.rings, k);
      Reconcile(registry.rings, k.atReconcile, serial);
      AddNew(registry.rings, k.atAdd, serial);
      ghost var before := registry.rings;
      var kept: seq<RingId> := [];
      for i := 0 to |registry.rings|
        invariant registry.rings == before
        invariant kept == Filter(before[..i], k.atRetain)
      {
        assert before[..i + 1][..i] == before[..i];
        if k.atRetain(registry.rings[i]) { kept := kept + [registry.rings[i]]; }
      }
      assert before[..|before|] == before;
      registry.rings := kept;
    }
  }

  lemma RefreshKeepsListed(es: seq<Entry>, i: nat, e: Entry)
    requires i < |es| && e.ring == es[i].ring
    ensures forall r :: Listed(es[i := e], r) <==> Listed(es, r)
  {
    forall r ensures Listed(es[i := e], r) <==> Listed(es, r) {
      if Listed(es, r) {
        var j :| 0 <= j < |es| && es[j].ring == r;
        assert es[i := e][j].ring == r;
      }
      if Listed(es[i := e], r) {
        var j :| 0 <= j < |es| && es[i := e][j].ring == r;
        assert es[j].ring == r;
      }
    }
  }

  /** Removing position `i` by moving the last entry into it loses only that entry. */
  lemma SwapRemoveListed(es: seq<Entry>, i: nat)
    requires i < |es|
    ensures var es' := es[i := es[|es| - 1]][..|es| - 1];
            && (forall r :: Listed(es', r) ==> Listed(es, r))
            && (forall r | r != es[i].ring :: Listed(es, r) ==> Listed(es', r))
            && (NoDuplicates(es) ==> NoDuplicates(es') && !Listed(es', es[i].ring))
  {
    var last := |es| - 1;
    var es' := es[i := es[last]][..last];
    forall r | r != es[i].ring && Listed(es, r) ensures Listed(es', r) {
      var j :| 0 <= j < |es| && es[j].ring == r;
      assert if j == last then es'[i].ring == r else es'[j].ring == r;
    }
  }

  lemma ListedSnoc(es: seq<Entry>, e: Entry)
    ensures forall r :: Listed(es + [e], r) <==> Listed(es, r) || r == e.ring
  {
    forall r ensures Listed(es + [e], r) <==> Listed(es, r) || r == e.ring {
      if Listed(es, r) {
        var i :| 0 <= i < |es| && es[i].ring == r;
        assert (es + [e])[i].ring == r;
      }
      assert (es + [e])[|es|].ring == e.ring;
    }
  }

  // ---------------------------------------------------------------- What a sync loses

  /** A kept flag only ever goes from true to false during a sync. */
  ghost predicate OnlyCleared(k: Keeps, r: RingId) {
    && (k.atStale(r) ==> k.atFilter(r)) && (k.atReconcile(r) ==> k.atStale(r))
    && (k.atAdd(r) ==> k.atReconcile(r)) && (k.atRetain(r) ==> k.atAdd(r))
  }

  /** The ring has vanished: no list holds it any more. */
  ghost predicate Forgotten(
      r: RingId, registry': seq<RingId>, local': seq<Entry>, finalize: seq<RingId>)
  {
    r !in registry' && !Listed(local', r) && r !in finalize
  }

  /** A sync forgets a registered ring exactly when its flag is cleared after the
  finalize filter saw it set and before the local list was brought up to date.
  `KeepRace` shows that its unread records are then never delivered. */
  lemma ForgottenExactlyWhen(
      registry: seq<RingId>, local: seq<Entry>, k: Keeps, serial: RingId -> nat,
      registry': seq<RingId>, local': seq<Entry>, finalize: seq<RingId>, r: RingId)
    requires SyncResult(registry, local, k, serial, registry', local', finalize)
    requires r in registry && OnlyCleared(k, r)
    ensures Forgotten(r, registry', local', finalize)
            <==> k.atFilter(r) && !(if Listed(local, r) then k.atReconcile(r) else k.atAdd(r))
  {
    FilterMembers(registry, k.atRetain);
  }

  /** A concrete loss: one registered ring, unknown to the drain, whose producer
  exits between the first and the fourth question. */
  lemma LossWitness(serial: RingId -> nat)
    ensures exists k: Keeps, r: RingId ::
              && OnlyCleared(k, r)
              && SyncResult([r], [], k, serial, [], [], [])
              && Forgotten(r, [], [], [])
  {
    var yes: RingId -> bool := _ => true;
    var no: RingId -> bool := _ => false;
    var k := Keeps(yes, yes, yes, no, no);
    assert Filter([7], k.atRetain) == [] by { FilterMembers([7], k.atRetain); }
    assert OnlyCleared(k, 7) && SyncResult([7], [], k, serial, [], [], []) && Forgotten(7, [], [], []);
  }

  /** With the answers fixed for the whole sync, the local list and the registry
  end up with the same rings, and every ring that was in either is kept in
  both, or finalized and in neither. */
  lemma FixedKeepSync(
      registry: seq<RingId>, local: seq<Entry>, keep: RingId -> bool, serial: RingId -> nat,
      registry': seq<RingId>, local': seq<Entry>, finalize: seq<RingId>)
    requires SyncResult(registry, local, Keeps(keep, keep, keep, keep, keep), serial, registry', local', finalize)
    requires Distinct(registry) && NoDuplicates(local)
    ensures Distinct(registry') && NoDuplicates(local') && Distinct(finalize)
    ensures forall r :: r in registry' <==> Listed(local', r)
    ensures forall r :: r in registry ==> (r in registry' <==> keep(r)) && (r in finalize <==> !keep(r))
    ensures forall r :: Listed(local, r) && r !in registry ==>
              r !in registry' && !Listed(local', r) && (r in finalize <==> !keep(r))
    ensures forall r :: r in finalize ==> r !in registry' && !Listed(local', r)
  {
    FilterMembers(registry, keep);
  }
}
