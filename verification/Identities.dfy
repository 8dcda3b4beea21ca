/** Which CIs a run or a delta leaves open, and what it registers about them, read off the state it
    leaves (services/reconciliation/src/infra_twin/reconciliation/reconcile.py). */
module Identities {
  import opened Model
  import Observations
  import opened Versions
  import opened Store
  import opened Reconciling
  import opened Deltas
  import opened Endpoints

  /* ---------------------------------------------------------------- one event */

  /** The aliases of the event lead to this open CI of its type, and to no other. */
  ghost predicate Leads(db: Db, d: DiscoveredCi, source: string, r: CiRow) {
    && r in db.cis && r.Open() && r.key.ctype == d.key.ctype
    && (exists a :: Registered(db.aliases, d, source, a) && db.aliases[a].ciId == r.id)
    && (forall a :: Registered(db.aliases, d, source, a) ==> db.aliases[a].ciId == r.id)
  }

  /** The CI an event is bound to: the open one of its key; else the one its aliases lead to, which
      is recorded as a merge; else a new one. */
  lemma EventIs(p: CiPhase, d: DiscoveredCi, source: string)
    requires Tables(p.db) && DiscoverCi(p, d, source).Ok?
    ensures var q, own := DiscoverCi(p, d, source).value, SourceKey(source, d.key.externalId);
            && own in q.db.sourceKeys
            && (d.key in OpenMap(p.db.cis) ==> q.db.sourceKeys[own] == OpenMap(p.db.cis)[d.key].id && q.db.merges == p.db.merges)
            && (forall r :: d.key !in OpenMap(p.db.cis) && Leads(p.db, d, source, r) ==>
                  q.db.sourceKeys[own] == r.id && q.db.merges == p.db.merges + [Merge(r.id, source, d.key.externalId)])
            && (d.key !in OpenMap(p.db.cis) && (forall r :: !Leads(p.db, d, source, r)) ==>
                  && q.db.sourceKeys[own] == p.db.nextId && q.db.merges == p.db.merges
                  && d.key in OpenMap(q.db.cis) && OpenMap(q.db.cis)[d.key].id == p.db.nextId)
  {
    hide Tables, UpsertCi, OpenMap, CiView, Stable, Leads, ResolveCanonical;
    TablesAreCoherent(p.db);
    LeadsIs(p.db, d, source);
    IsCurrentCi(p.db, d.key);
    MatchedKey(p.db, d, source);
    var m := MatchCi(p.db, d, source);
    UpsertCiEffect(p.db, if m.Some? then m.value.key else d.key, d.name, d.attributes);
  }

  lemma LeadsIs(db: Db, d: DiscoveredCi, source: string)
    requires Coherent(db.cis, db.now)
    ensures forall r :: Leads(db, d, source, r) <==> ResolveCanonical(db, d, source) == Some(r)
    ensures ResolveCanonical(db, d, source).Some? ==> Leads(db, d, source, ResolveCanonical(db, d, source).value)
  {
    CanonicalIs(db, d, source);
    hide Coherent, Registered, ResolveCanonical;
  }

  lemma TablesAreCoherent(db: Db)
    requires Tables(db)
    ensures Coherent(db.cis, db.now)
  {
    hide Coherent;
  }

  /* ---------------------------------------------------------------- the CI an event is bound to */

  /** The native id of the event leads to the CI. */
  ghost predicate BoundTo(keys: map<SourceKey, nat>, source: string, d: DiscoveredCi, id: nat) {
    SourceKey(source, d.key.externalId) in keys && keys[SourceKey(source, d.key.externalId)] == id
  }

  /** The run met the CI: some event is bound to it. */
  ghost predicate Met(db: Db, cis: seq<DiscoveredCi>, source: string, id: nat) {
    exists d :: d in cis && BoundTo(db.sourceKeys, source, d, id)
  }

  /** The source knows the CI: some native id of it leads there. */
  ghost predicate Owned(db: Db, source: string, id: nat) {
    exists n :: SourceKey(source, n) in db.sourceKeys && db.sourceKeys[SourceKey(source, n)] == id
  }

  /** The event is about the CI of its own key. */
  ghost predicate IsOwn(db: Db, source: string, d: DiscoveredCi) {
    d.key in OpenMap(db.cis) && BoundTo(db.sourceKeys, source, d, OpenMap(db.cis)[d.key].id)
  }

  /** What one event does to aliases, merges and the list of stored rows, next to what it does to
      the cache. */
  ghost predicate Identified(p: CiPhase, q: CiPhase, d: DiscoveredCi, source: string, key: CiKey, r: CiRow) {
    && Cached(p, q, d, source, key, r)
    && q.db.aliases == RegisterAliases(p.db.aliases, d.aliasKeys, Alias(r.id, d.key.ctype, source))
    && q.db.merges == p.db.merges + (if key == d.key then [] else [Merge(r.id, source, d.key.externalId)])
    && q.stored == p.stored + [r]
  }

  lemma EventIdentifies(p: CiPhase, d: DiscoveredCi, source: string) returns (key: CiKey, r: CiRow)
    requires Tables(p.db) && DiscoverCi(p, d, source).Ok?
    ensures Identified(p, DiscoverCi(p, d, source).value, d, source, key, r)
  {
    hide Tables, UpsertCi, OpenMap, CiView, Stable, ResolveCanonical;
    var m := MatchCi(p.db, d, source);
    key := if m.Some? then m.value.key else d.key;
    MatchedKey(p.db, d, source);
    OwnKey(p.db, d, source);
    UpsertCiEffect(p.db, key, d.name, d.attributes);
    r := UpsertCi(p.db, key, d.name, d.attributes).value.1;
    IsCurrentCi(p.db, d.key);
  }

  /* ---------------------------------------------------------------- what the events leave */

  /** The open keys that events were matched to are those of the CIs they are bound to. */
  ghost predicate SeenAreMet(p: CiPhase, cis: seq<DiscoveredCi>, source: string) {
    && (forall k :: k in p.seen ==> k in OpenMap(p.db.cis) && Met(p.db, cis, source, OpenMap(p.db.cis)[k].id))
    && (forall d :: d in cis ==> exists k :: k in p.seen && k in OpenMap(p.db.cis) && BoundTo(p.db.sourceKeys, source, d, OpenMap(p.db.cis)[k].id))
  }

  ghost predicate NewAreNamed(start: Db, p: CiPhase, cis: seq<DiscoveredCi>) {
    forall k :: k in OpenMap(p.db.cis) ==> k in OpenMap(start.cis) || Named(cis, k)
  }

  /** The merge is of an event that is bound to the CI of another key. */
  ghost predicate MergeOf(db: Db, source: string, d: DiscoveredCi, m: Merge) {
    m.source == source && m.externalId == d.key.externalId && BoundTo(db.sourceKeys, source, d, m.canonical) && !IsOwn(db, source, d)
  }

  /** The merges a run adds: one for each event that is bound to the CI of another key. */
  ghost predicate AddsMerges(before: seq<Merge>, db: Db, cis: seq<DiscoveredCi>, source: string) {
    && before <= db.merges
    && (forall m :: m in db.merges[|before|..] ==> exists d :: d in cis && MergeOf(db, source, d, m))
    && (forall d :: d in cis && !IsOwn(db, source, d) ==> exists m :: m in db.merges[|before|..] && MergeOf(db, source, d, m))
  }

  lemma SeenStep(p: CiPhase, q: CiPhase, cis: seq<DiscoveredCi>, d: DiscoveredCi, source: string, key: CiKey, r: CiRow)
    requires SeenAreMet(p, cis, source) && Cached(p, q, d, source, key, r)
    requires forall x :: x in cis ==> x.key.externalId != d.key.externalId
    ensures SeenAreMet(q, cis + [d], source)
  {
    hide OpenMap;
    var all := cis + [d];
    assert forall x :: x in all <==> x in cis || x == d;
    assert BoundTo(q.db.sourceKeys, source, d, r.id);
    forall x, id | x in cis ensures BoundTo(p.db.sourceKeys, source, x, id) <==> BoundTo(q.db.sourceKeys, source, x, id) { }
    forall k | k in q.seen ensures k in OpenMap(q.db.cis) && Met(q.db, all, source, OpenMap(q.db.cis)[k].id) {
      if k != key {
        var x :| x in cis && BoundTo(p.db.sourceKeys, source, x, OpenMap(p.db.cis)[k].id);
        assert x in all;
      } else {
        assert d in all;
      }
    }
    forall x | x in all
      ensures exists k :: k in q.seen && k in OpenMap(q.db.cis) && BoundTo(q.db.sourceKeys, source, x, OpenMap(q.db.cis)[k].id)
    {
      if x in cis {
        var k :| k in p.seen && k in OpenMap(p.db.cis) && BoundTo(p.db.sourceKeys, source, x, OpenMap(p.db.cis)[k].id);
        assert k in q.seen && OpenMap(q.db.cis)[k].id == OpenMap(p.db.cis)[k].id;
      } else {
        assert key in q.seen;
      }
    }
  }

  lemma NewStep(start: Db, p: CiPhase, q: CiPhase, cis: seq<DiscoveredCi>, d: DiscoveredCi, source: string, key: CiKey, r: CiRow)
    requires NewAreNamed(start, p, cis) && Cached(p, q, d, source, key, r)
    ensures NewAreNamed(start, q, cis + [d])
  {
    hide OpenMap, Named;
    Endpoints.NamedMore(cis, d);
  }

  lemma OwnStays(p: CiPhase, q: CiPhase, x: DiscoveredCi, d: DiscoveredCi, source: string, key: CiKey, r: CiRow)
    requires Cached(p, q, d, source, key, r) && x.key.externalId != d.key.externalId
    ensures IsOwn(q.db, source, x) <==> IsOwn(p.db, source, x)
  {
    hide OpenMap;
  }

  lemma OwnIs(p: CiPhase, q: CiPhase, d: DiscoveredCi, source: string, key: CiKey, r: CiRow)
    requires Cached(p, q, d, source, key, r)
    ensures IsOwn(q.db, source, d) <==> key == d.key
  {
    hide OpenMap;
  }

  lemma MergesStep(before: seq<Merge>, p: CiPhase, q: CiPhase, cis: seq<DiscoveredCi>, d: DiscoveredCi, source: string, key: CiKey, r: CiRow)
    requires AddsMerges(before, p.db, cis, source) && Identified(p, q, d, source, key, r)
    requires forall x :: x in cis ==> x.key.externalId != d.key.externalId
    ensures AddsMerges(before, q.db, cis + [d], source)
  {
    hide OpenMap, RegisterAliases, IsOwn;
    var all := cis + [d];
    assert forall x :: x in all <==> x in cis || x == d;
    forall x, m | x in cis ensures MergeOf(q.db, source, x, m) <==> MergeOf(p.db, source, x, m) { OwnStays(p, q, x, d, source, key, r); }
    forall x | x in cis ensures IsOwn(q.db, source, x) <==> IsOwn(p.db, source, x) { OwnStays(p, q, x, d, source, key, r); }
    OwnIs(p, q, d, source, key, r);
    var was, more := p.db.merges[|before|..], q.db.merges[|before|..];
    if key == d.key {
      assert more == was;
    } else {
      var m := Merge(r.id, source, d.key.externalId);
      assert more == was + [m] && MergeOf(q.db, source, d, m);
    }
  }

  /** Source keys and aliases that no event gives stay as they were. */
  ghost predicate OthersStay(before: Db, after: Db, cis: seq<DiscoveredCi>, source: string) {
    && (forall k :: !Gives(cis, source, k) ==> SameAt(before.sourceKeys, after.sourceKeys, k))
    && (forall a :: !Mentions(cis, a) ==> SameAt(before.aliases, after.aliases, a))
  }

  ghost predicate Gives(cis: seq<DiscoveredCi>, source: string, k: SourceKey) {
    exists d :: d in cis && k == SourceKey(source, d.key.externalId)
  }

  ghost predicate Mentions(cis: seq<DiscoveredCi>, a: string) { exists d :: d in cis && a in d.aliasKeys }

  ghost predicate SameAt<K, V>(m: map<K, V>, n: map<K, V>, k: K) { (k in m <==> k in n) && (k in m ==> m[k] == n[k]) }

  lemma OthersStep(before: Db, p: CiPhase, q: CiPhase, cis: seq<DiscoveredCi>, d: DiscoveredCi, source: string, key: CiKey, r: CiRow)
    requires OthersStay(before, p.db, cis, source) && Identified(p, q, d, source, key, r)
    ensures OthersStay(before, q.db, cis + [d], source)
  {
    hide OpenMap, RegisterAliases;
    RegisterIs(p.db.aliases, d.aliasKeys, Alias(r.id, d.key.ctype, source));
    GivesMore(cis, d, source);
    hide Gives, Mentions;
  }

  lemma GivesMore(cis: seq<DiscoveredCi>, d: DiscoveredCi, source: string)
    ensures forall k :: Gives(cis + [d], source, k) <==> Gives(cis, source, k) || k == SourceKey(source, d.key.externalId)
    ensures forall a :: Mentions(cis + [d], a) <==> Mentions(cis, a) || a in d.aliasKeys
  {
    var all := cis + [d];
    assert forall x :: x in all <==> x in cis || x == d;
    forall k | Gives(cis, source, k) ensures Gives(all, source, k) { var x :| x in cis && k == SourceKey(source, x.key.externalId); assert x in all; }
    forall a | Mentions(cis, a) ensures Mentions(all, a) { var x :| x in cis && a in x.aliasKeys; assert x in all; }
    assert d in all;
  }

  /** What all the events leave, if no native id comes twice. */
  ghost predicate Registers(before: Db, p: CiPhase, cis: seq<DiscoveredCi>, source: string) {
    && SeenAreMet(p, cis, source) && NewAreNamed(before, p, cis)
    && AddsMerges(before.merges, p.db, cis, source) && OthersStay(before, p.db, cis, source)
  }

  lemma RegistersStep(before: Db, p: CiPhase, q: CiPhase, cis: seq<DiscoveredCi>, d: DiscoveredCi, source: string, key: CiKey, r: CiRow)
    requires Registers(before, p, cis, source) && Identified(p, q, d, source, key, r)
    requires forall x :: x in cis ==> x.key.externalId != d.key.externalId
    ensures Registers(before, q, cis + [d], source)
  {
    hide OpenMap, RegisterAliases, SeenAreMet, NewAreNamed, AddsMerges, OthersStay, Cached;
    SeenStep(p, q, cis, d, source, key, r);
    NewStep(before, p, q, cis, d, source, key, r);
    MergesStep(before.merges, p, q, cis, d, source, key, r);
    OthersStep(before, p, q, cis, d, source, key, r);
  }

  lemma NothingRegistered(db: Db, source: string)
    ensures Registers(db, CiPhase(db, map[], {}, [], 0, 0, 0), [], source)
  {
  }

  lemma {:induction false} AllRegister(db: Db, cis: seq<DiscoveredCi>, source: string)
    requires Tables(db) && DiscoverCis(db, cis, source).Ok? && DistinctIds(cis)
    ensures Registers(db, DiscoverCis(db, cis, source).value, cis, source)
    decreases |cis|
  {
    hide Tables, DiscoverCi, OpenMap, CiInv, Identified, Registers;
    if cis == [] {
      NothingRegistered(db, source);
    } else {
      var init, d := cis[..|cis| - 1], cis[|cis| - 1];
      AllRegister(db, init, source);
      DiscoverAll(db, init, source);
      var p := DiscoverCis(db, init, source).value;
      PhaseIsSound(db, p);
      var key, r := EventIdentifies(p, d, source);
      RegistersStep(db, p, DiscoverCi(p, d, source).value, init, d, source, key, r);
      assert cis == init + [d];
    }
  }

  /* ---------------------------------------------------------------- a run */

  /** What a run leaves of the CI phase. */
  lemma RunRegisters(db: Db, b: Batch, order: RowOrder, c: CiPhase, e: EdgePhase)
    requires Tables(db) && Ran(db, b, order, c, e) && DistinctIds(b.cis)
    ensures var after := Finish(c, e, b).0;
            && Registers(db, c, b.cis, b.source)
            && after.sourceKeys == c.db.sourceKeys && after.aliases == c.db.aliases && after.merges == c.db.merges
            && OpenMap(after.cis) == OpenMap(c.db.cis) - CisToClose(c, b)
            && OpenKeys(c.db.cis) == OpenKeys(db.cis) + c.seen && IdsPersist(db.cis, c.db.cis)
  {
    hide Tables, CiView, EdgeView, OpenMap, OpenKeys, DiscoverCis, WriteEdges, Stable, Registers, Project, CisToClose, Shown;
    AllRegister(db, b.cis, b.source);
    EdgesLeaveCis(CloseCis(c.db, CisToClose(c, b)), e);
  }

  /** Exactly which CIs that were open a run leaves open: those it met, those of types it is not
      authoritative for, and those its source does not know; whatever else is open is named by one
      of its events and bound to it. */
  lemma CisAfterRun(db: Db, b: Batch, order: RowOrder, k: CiKey)
    requires Tables(db) && Reconcile(db, b, order).Ok? && DistinctIds(b.cis)
    ensures var after := Reconcile(db, b, order).value.0;
            k in OpenMap(db.cis) ==>
              var id := OpenMap(db.cis)[k].id;
              && (k in OpenMap(after.cis) <==>
                    Met(after, b.cis, b.source, id) || k.ctype !in b.ciTypes || !Owned(after, b.source, id))
              && (k in OpenMap(after.cis) ==> OpenMap(after.cis)[k].id == id)
    ensures var after := Reconcile(db, b, order).value.0;
            k !in OpenMap(db.cis) && k in OpenMap(after.cis) ==>
              Named(b.cis, k) && Met(after, b.cis, b.source, OpenMap(after.cis)[k].id)
  {
    hide Tables, OpenMap, OpenKeys, Ran, Finish, CisToClose, Reconcile, SeenAreMet, AddsMerges, OthersStay, NewAreNamed, Met, Owned, Named, DiscoverCis;
    var c, e := Phases(db, b, order);
    RunRegisters(db, b, order, c, e);
    var after := Finish(c, e, b).0;
    assert OpenMap(c.db.cis).Keys == OpenKeys(c.db.cis) && OpenMap(db.cis).Keys == OpenKeys(db.cis);
    if k in OpenMap(c.db.cis) {
      RanSound(db, b, order, c, e);
      MetIsSeen(c, b, k);
      ToCloseIs(c, b, k);
      SameMet(c.db, after, b.cis, b.source, OpenMap(c.db.cis)[k].id);
      NewIsNamed(db, c, b.cis, k);
    }
  }

  lemma RanSound(db: Db, b: Batch, order: RowOrder, c: CiPhase, e: EdgePhase)
    requires Ran(db, b, order, c, e)
    ensures Tables(c.db)
  {
    hide Tables, CiView, EdgeView, OpenMap, DiscoverCis, WriteEdges, CloseCis, Stable, EdgeInv, CacheOpen;
  }

  lemma MetIsSeen(c: CiPhase, b: Batch, k: CiKey)
    requires SeenAreMet(c, b.cis, b.source) && Tables(c.db) && k in OpenMap(c.db.cis)
    ensures k in c.seen <==> Met(c.db, b.cis, b.source, OpenMap(c.db.cis)[k].id)
  {
    hide Tables;
    if Met(c.db, b.cis, b.source, OpenMap(c.db.cis)[k].id) {
      var d :| d in b.cis && BoundTo(c.db.sourceKeys, b.source, d, OpenMap(c.db.cis)[k].id);
      var j :| j in c.seen && j in OpenMap(c.db.cis) && BoundTo(c.db.sourceKeys, b.source, d, OpenMap(c.db.cis)[j].id);
      OpenIdKey(c.db, k);
      OpenIdKey(c.db, j);
    }
  }

  lemma ToCloseIs(c: CiPhase, b: Batch, k: CiKey)
    requires k in OpenMap(c.db.cis)
    ensures k in CisToClose(c, b) <==> k.ctype in b.ciTypes && k !in c.seen && Owned(c.db, b.source, OpenMap(c.db.cis)[k].id)
  {
    hide OpenMap;
    var id := OpenMap(c.db.cis)[k].id;
    if id in OwnedBy(c.db.sourceKeys, b.source) {
      var s :| s in c.db.sourceKeys && s.source == b.source && c.db.sourceKeys[s] == id;
      assert s == SourceKey(b.source, s.nativeId);
    }
  }

  lemma SameMet(a: Db, b: Db, cis: seq<DiscoveredCi>, source: string, id: nat)
    requires a.sourceKeys == b.sourceKeys
    ensures Met(a, cis, source, id) == Met(b, cis, source, id) && Owned(a, source, id) == Owned(b, source, id)
  {
  }

  lemma NewIsNamed(start: Db, p: CiPhase, cis: seq<DiscoveredCi>, k: CiKey)
    requires NewAreNamed(start, p, cis) && k in OpenMap(p.db.cis)
    ensures k in OpenMap(start.cis) || Named(cis, k)
  {
    hide OpenMap, Named;
  }

  /** The merges a run records, and the source keys and aliases it leaves alone. */
  lemma MergesAfterRun(db: Db, b: Batch, order: RowOrder)
    requires Tables(db) && Reconcile(db, b, order).Ok? && DistinctIds(b.cis)
    ensures var after := Reconcile(db, b, order).value.0;
            AddsMerges(db.merges, after, b.cis, b.source) && OthersStay(db, after, b.cis, b.source)
  {
    hide Tables, OpenMap, OpenKeys, Ran, Finish, Reconcile, SeenAreMet, AddsMerges, OthersStay, NewAreNamed, Met, DiscoverCis;
    var c, e := Phases(db, b, order);
    RunRegisters(db, b, order, c, e);
    RanSound(db, b, order, c, e);
    SameMerges(db.merges, c, Finish(c, e, b).0, b);
    assert OthersStay(db, Finish(c, e, b).0, b.cis, b.source) by { SameOthers(db, c.db, Finish(c, e, b).0, b.cis, b.source); }
  }

  lemma SameOthers(before: Db, mid: Db, after: Db, cis: seq<DiscoveredCi>, source: string)
    requires OthersStay(before, mid, cis, source) && after.sourceKeys == mid.sourceKeys && after.aliases == mid.aliases
    ensures OthersStay(before, after, cis, source)
  {
  }

  lemma SameMerges(before: seq<Merge>, c: CiPhase, after: Db, b: Batch)
    requires AddsMerges(before, c.db, b.cis, b.source) && SeenAreMet(c, b.cis, b.source) && Tables(c.db)
    requires after.merges == c.db.merges && after.sourceKeys == c.db.sourceKeys && OpenMap(after.cis) == OpenMap(c.db.cis) - CisToClose(c, b)
    ensures AddsMerges(before, after, b.cis, b.source)
  {
    hide Tables, OpenMap, SeenAreMet, CisToClose;
    forall d | d in b.cis ensures IsOwn(after, b.source, d) <==> IsOwn(c.db, b.source, d) {
      if IsOwn(c.db, b.source, d) {
        MetIsSeen(c, b, d.key);
        assert d.key in c.seen by { assert Met(c.db, b.cis, b.source, OpenMap(c.db.cis)[d.key].id); }
        ToCloseIs(c, b, d.key);
      }
    }
    hide IsOwn;
    forall d, m | d in b.cis ensures MergeOf(after, b.source, d, m) <==> MergeOf(c.db, b.source, d, m) { }
  }

  /* ---------------------------------------------------------------- aliases */

  lemma AliasStep(p: CiPhase, q: CiPhase, d: DiscoveredCi, a: string, last: DiscoveredCi, source: string, key: CiKey, r: CiRow)
    requires Identified(p, q, last, source, key, r) && a !in last.aliasKeys && last.key.externalId != d.key.externalId
    requires AliasLeads(p.db, d, a, source)
    ensures AliasLeads(q.db, d, a, source)
  {
    hide OpenMap, RegisterAliases;
    RegisterIs(p.db.aliases, last.aliasKeys, Alias(r.id, last.key.ctype, source));
  }

  /** The alias leads to the CI the event is bound to, under the type and the source of the event. */
  ghost predicate AliasLeads(db: Db, d: DiscoveredCi, a: string, source: string) {
    var own := SourceKey(source, d.key.externalId);
    own in db.sourceKeys && a in db.aliases && db.aliases[a] == Alias(db.sourceKeys[own], d.key.ctype, source)
  }

  lemma AliasNow(p: CiPhase, q: CiPhase, d: DiscoveredCi, a: string, source: string, key: CiKey, r: CiRow)
    requires Identified(p, q, d, source, key, r) && a in d.aliasKeys
    ensures AliasLeads(q.db, d, a, source)
  {
    hide OpenMap, RegisterAliases;
    RegisterIs(p.db.aliases, d.aliasKeys, Alias(r.id, d.key.ctype, source));
  }

  lemma {:induction false} LastAlias(db: Db, pre: seq<DiscoveredCi>, d: DiscoveredCi, post: seq<DiscoveredCi>, source: string, a: string)
    requires Tables(db) && DiscoverCis(db, pre + [d] + post, source).Ok? && DistinctIds(pre + [d] + post)
    requires a in d.aliasKeys && forall x :: x in post ==> a !in x.aliasKeys
    ensures AliasLeads(DiscoverCis(db, pre + [d] + post, source).value.db, d, a, source)
    decreases |post|
  {
    hide Tables, DiscoverCi, CiInv, Identified, AliasLeads;
    var all := pre + [d] + post;
    var init, last := all[..|all| - 1], all[|all| - 1];
    DiscoverAll(db, init, source);
    var p := DiscoverCis(db, init, source).value;
    PhaseIsSound(db, p);
    var key, r := EventIdentifies(p, last, source);
    if post == [] {
      assert all == pre + [d] && last == d;
      AliasNow(p, DiscoverCi(p, d, source).value, d, a, source, key, r);
    } else {
      var rest := post[..|post| - 1];
      assert init == pre + [d] + rest && last == post[|post| - 1];
      DistinctRest(pre, d, rest, last, all);
      LastAlias(db, pre, d, rest, source, a);
      AliasStep(p, DiscoverCi(p, last, source).value, d, a, last, source, key, r);
    }
  }

  /** After a run an alias leads to the CI of the last event that gave it. */
  lemma AliasesAfterRun(db: Db, b: Batch, order: RowOrder, pre: seq<DiscoveredCi>, d: DiscoveredCi, post: seq<DiscoveredCi>, a: string)
    requires Tables(db) && Reconcile(db, b, order).Ok? && b.cis == pre + [d] + post && DistinctIds(b.cis)
    requires a in d.aliasKeys && forall x :: x in post ==> a !in x.aliasKeys
    ensures AliasLeads(Reconcile(db, b, order).value.0, d, a, b.source)
  {
    hide Tables, OpenMap, OpenKeys, Finish, Reconcile, SeenAreMet, AddsMerges, OthersStay, NewAreNamed, Registers;
    var c, e := Phases(db, b, order);
    RunRegisters(db, b, order, c, e);
    RanDiscovers(db, b, order, c, e);
    hide Ran;
    LastAlias(db, pre, d, post, b.source, a);
  }

  lemma RanDiscovers(db: Db, b: Batch, order: RowOrder, c: CiPhase, e: EdgePhase)
    requires Ran(db, b, order, c, e)
    ensures DiscoverCis(db, b.cis, b.source) == Ok(c)
  {
  }

  /* ---------------------------------------------------------------- names in the graph */

  /** The vertex of the event's CI has the event's name, unless a later event is about that CI. */
  ghost predicate ShowsName(g: Graph, db: Db, d: DiscoveredCi, source: string, post: seq<DiscoveredCi>) {
    var own := SourceKey(source, d.key.externalId);
    && own in db.sourceKeys
    && (d.name.Some? && d.name.value != "" && Elsewhere(db.sourceKeys, source, post, db.sourceKeys[own]) ==>
          db.sourceKeys[own] in g.vertices && g.vertices[db.sourceKeys[own]].name == d.name)
  }

  lemma ProjectLast(g: Graph, rows: seq<CiRow>, r: CiRow)
    ensures ProjectCis(g, rows + [r]) == ProjectCi(ProjectCis(g, rows), r)
  {
    assert (rows + [r])[..|rows + [r]| - 1] == rows;
  }

  lemma NameStep(g: Graph, p: CiPhase, q: CiPhase, d: DiscoveredCi, last: DiscoveredCi, post: seq<DiscoveredCi>, source: string,
                 key: CiKey, r: CiRow)
    requires Identified(p, q, last, source, key, r) && last.key.externalId != d.key.externalId
    requires forall x :: x in post ==> x.key.externalId != last.key.externalId
    requires ShowsName(ProjectCis(g, p.stored), p.db, d, source, post)
    ensures ShowsName(ProjectCis(g, q.stored), q.db, d, source, post + [last])
  {
    hide OpenMap, RegisterAliases, ProjectCis;
    ProjectLast(g, p.stored, r);
    var all := post + [last];
    assert forall x :: x in all <==> x in post || x == last;
    var id := q.db.sourceKeys[SourceKey(source, d.key.externalId)];
    if Elsewhere(q.db.sourceKeys, source, all, id) {
      assert Elsewhere(p.db.sourceKeys, source, post, id);
      assert q.db.sourceKeys[SourceKey(source, last.key.externalId)] == r.id;
    }
  }

  lemma NameNow(g: Graph, p: CiPhase, q: CiPhase, d: DiscoveredCi, source: string, key: CiKey, r: CiRow)
    requires Identified(p, q, d, source, key, r)
    ensures ShowsName(ProjectCis(g, q.stored), q.db, d, source, [])
  {
    hide OpenMap, RegisterAliases, ProjectCis;
    ProjectLast(g, p.stored, r);
  }

  lemma {:induction false} LastName(g: Graph, db: Db, pre: seq<DiscoveredCi>, d: DiscoveredCi, post: seq<DiscoveredCi>, source: string)
    requires Tables(db) && DiscoverCis(db, pre + [d] + post, source).Ok? && DistinctIds(pre + [d] + post)
    ensures var p := DiscoverCis(db, pre + [d] + post, source).value;
            ShowsName(ProjectCis(g, p.stored), p.db, d, source, post)
    decreases |post|
  {
    hide Tables, DiscoverCi, CiInv, Identified, ShowsName, ProjectCis;
    var all := pre + [d] + post;
    var init, last := all[..|all| - 1], all[|all| - 1];
    DiscoverAll(db, init, source);
    var p := DiscoverCis(db, init, source).value;
    PhaseIsSound(db, p);
    var key, r := EventIdentifies(p, last, source);
    if post == [] {
      assert all == pre + [d] && last == d;
      NameNow(g, p, DiscoverCi(p, d, source).value, d, source, key, r);
    } else {
      var rest := post[..|post| - 1];
      assert init == pre + [d] + rest && last == post[|post| - 1];
      DistinctRest(pre, d, rest, last, all);
      LastName(g, db, pre, d, rest, source);
      NameStep(g, p, DiscoverCi(p, last, source).value, d, last, rest, source, key, r);
      assert post == rest + [last];
    }
  }

  /** After a run the graph shows the name of an event at its CI, unless the name is missing or a
      later event of the run is about the same CI. */
  lemma NameIsShown(db: Db, b: Batch, order: RowOrder, pre: seq<DiscoveredCi>, d: DiscoveredCi, post: seq<DiscoveredCi>)
    requires Tables(db) && Reconcile(db, b, order).Ok? && b.cis == pre + [d] + post && DistinctIds(b.cis)
    ensures var after := Reconcile(db, b, order).value.0; ShowsName(after.graph, after, d, b.source, post)
  {
    hide Tables, OpenMap, OpenKeys, Reconcile, AddsMerges, OthersStay, NewAreNamed, ShowsName, CisToClose, EdgesToClose;
    var c, e := Phases(db, b, order);
    RunRegisters(db, b, order, c, e);
    RanDiscovers(db, b, order, c, e);
    RanSound(db, b, order, c, e);
    RanGraph(db, b, order, c, e);
    hide Ran;
    LastName(db.graph, db, pre, d, post, b.source);
    assert d in b.cis by { assert b.cis[|pre|] == d; }
    MetStays(c, b, d);
    NameStays(ProjectCis(db.graph, c.stored), e.stored, EdgesToClose(e, b), IdsUnder(c.db.cis, CisToClose(c, b)), c.db, Finish(c, e, b).0, d, b.source, post);
  }

  lemma RanGraph(db: Db, b: Batch, order: RowOrder, c: CiPhase, e: EdgePhase)
    requires Ran(db, b, order, c, e)
    ensures Finish(c, e, b).0.graph == Project(db.graph, c.stored, e.stored, EdgesToClose(e, b), IdsUnder(c.db.cis, CisToClose(c, b)))
  {
    hide Tables, CiView, EdgeView, OpenMap, DiscoverCis, WriteEdges, Stable, Project, CisToClose, EdgesToClose, IdsUnder, Shown, KeysOf;
  }

  lemma MetStays(c: CiPhase, b: Batch, d: DiscoveredCi)
    requires SeenAreMet(c, b.cis, b.source) && Tables(c.db) && d in b.cis
    ensures SourceKey(b.source, d.key.externalId) in c.db.sourceKeys
    ensures c.db.sourceKeys[SourceKey(b.source, d.key.externalId)] !in IdsUnder(c.db.cis, CisToClose(c, b))
  {
    hide Tables, OpenMap, CiView;
    var k :| k in c.seen && k in OpenMap(c.db.cis) && BoundTo(c.db.sourceKeys, b.source, d, OpenMap(c.db.cis)[k].id);
    OpenIdKey(c.db, k);
    ToCloseIs(c, b, k);
  }

  lemma NameStays(g: Graph, edges: seq<EdgeRow>, closed: set<EdgeKey>, ids: set<nat>, mid: Db, after: Db, d: DiscoveredCi, source: string,
                  post: seq<DiscoveredCi>)
    requires ShowsName(g, mid, d, source, post) && after.sourceKeys == mid.sourceKeys
    requires mid.sourceKeys[SourceKey(source, d.key.externalId)] !in ids
    ensures ShowsName(DropCis(DropEdges(ProjectEdges(g, edges), closed), ids), after, d, source, post)
  {
    ProjectEdgesView(g, edges);
    hide ProjectEdges;
  }

  /* ---------------------------------------------------------------- the counters */

  /** The CIs that stay open under a new version. */
  ghost function Rewritten(before: Rows<CiKey, CiData>, after: Rows<CiKey, CiData>): set<CiKey> {
    set k | k in OpenMap(before) && k in OpenMap(after) && OpenMap(after)[k].validFrom != OpenMap(before)[k].validFrom
  }

  /** So far every version is the one that was open, or of this instant. */
  ghost predicate OldOrNow(start: Db, p: CiPhase) {
    && p.db.now == start.now
    && (forall k :: k in OpenMap(start.cis) ==> k in OpenMap(p.db.cis))
    && (forall k :: k in OpenMap(p.db.cis) ==>
          || (k in OpenMap(start.cis) && OpenMap(p.db.cis)[k].validFrom == OpenMap(start.cis)[k].validFrom)
          || (k in p.seen && OpenMap(p.db.cis)[k].validFrom == start.now))
  }

  ghost predicate Versioned(start: Db, p: CiPhase) {
    OldOrNow(start, p) && p.updated == |Rewritten(start.cis, p.db.cis)|
  }

  /** How an event is counted. */
  ghost predicate CountedAs(p: CiPhase, q: CiPhase, key: CiKey, r: CiRow) {
    && OpenMap(q.db.cis) == OpenMap(p.db.cis)[key := r] && q.db.now == p.db.now && q.seen == p.seen + {key}
    && (key !in OpenMap(p.db.cis) ==> r.validFrom == p.db.now && q.updated == p.updated)
    && (key in OpenMap(p.db.cis) ==>
          if r.validFrom == OpenMap(p.db.cis)[key].validFrom then q.updated == p.updated
          else r.validFrom == p.db.now && q.updated == p.updated + 1)
  }

  lemma EventCounts(p: CiPhase, d: DiscoveredCi, source: string) returns (key: CiKey, r: CiRow)
    requires Tables(p.db) && DiscoverCi(p, d, source).Ok?
    ensures CountedAs(p, DiscoverCi(p, d, source).value, key, r)
  {
    hide Tables, UpsertCi, OpenMap, CiView, Stable, ResolveCanonical;
    var m := MatchCi(p.db, d, source);
    key := if m.Some? then m.value.key else d.key;
    MatchedKey(p.db, d, source);
    UpsertCiEffect(p.db, key, d.name, d.attributes);
    UpsertCiIs(p.db, key, d.name, d.attributes);
    r := UpsertCi(p.db, key, d.name, d.attributes).value.1;
    hide MatchCi;
  }

  lemma OldOrNowStep(start: Db, p: CiPhase, q: CiPhase, key: CiKey, r: CiRow)
    requires OldOrNow(start, p) && CountedAs(p, q, key, r)
    ensures OldOrNow(start, q)
  {
    hide OpenMap;
  }

  lemma RewrittenStep(start: Db, p: CiPhase, q: CiPhase, key: CiKey, r: CiRow)
    requires OldOrNow(start, p) && CountedAs(p, q, key, r)
    ensures var was, more := Rewritten(start.cis, p.db.cis), Rewritten(start.cis, q.db.cis);
            if q.updated == p.updated then more == was else q.updated == p.updated + 1 && more == was + {key} && key !in was
  {
    hide OpenMap;
    var before, after := OpenMap(p.db.cis), OpenMap(q.db.cis);
    assert forall k :: k != key && k in before ==> k in after && after[k] == before[k];
  }

  lemma VersionedStep(start: Db, p: CiPhase, q: CiPhase, key: CiKey, r: CiRow)
    requires Versioned(start, p) && CountedAs(p, q, key, r)
    ensures Versioned(start, q)
  {
    hide OpenMap, OldOrNow, Rewritten, CountedAs;
    OldOrNowStep(start, p, q, key, r);
    RewrittenStep(start, p, q, key, r);
  }

  lemma {:induction false} AllVersioned(db: Db, cis: seq<DiscoveredCi>, source: string)
    requires Tables(db) && DiscoverCis(db, cis, source).Ok?
    ensures Versioned(db, DiscoverCis(db, cis, source).value)
    decreases |cis|
  {
    hide Tables, DiscoverCi, OpenMap, CiInv, Versioned, CountedAs;
    if cis == [] {
      assert Versioned(db, CiPhase(db, map[], {}, [], 0, 0, 0)) by { NoneVersioned(db); }
    } else {
      var init, d := cis[..|cis| - 1], cis[|cis| - 1];
      AllVersioned(db, init, source);
      DiscoverAll(db, init, source);
      var p := DiscoverCis(db, init, source).value;
      PhaseIsSound(db, p);
      var key, r := EventCounts(p, d, source);
      VersionedStep(db, p, DiscoverCi(p, d, source).value, key, r);
    }
  }

  lemma NoneVersioned(db: Db)
    ensures Versioned(db, CiPhase(db, map[], {}, [], 0, 0, 0))
  {
    hide OpenMap;
    assert Rewritten(db.cis, db.cis) == {};
  }

  /** The counters of a run: the CIs that are open only after it, those that are open only before
      it, those that stay open under a new version, the other events; and the edges that are open
      only before it. */
  lemma RunCounts(db: Db, b: Batch, order: RowOrder)
    requires Tables(db) && Reconcile(db, b, order).Ok?
    ensures var (after, r) := Reconcile(db, b, order).value;
            && r.cisCreated == |OpenKeys(after.cis) - OpenKeys(db.cis)| && r.cisClosed == |OpenKeys(db.cis) - OpenKeys(after.cis)|
            && r.cisUpdated == |Rewritten(db.cis, after.cis)| && r.cisUnchanged == |b.cis| - r.cisCreated - r.cisUpdated
            && r.edgesClosed == |OpenKeys(db.edges) - OpenKeys(after.edges)|
  {
    hide Tables, OpenMap, OpenKeys, Ran, Finish, Reconcile, CisToClose, Versioned, TargetsOf, OutOfScope, KeptCis, Rewritten;
    ReconcileExact(db, b, order);
    var c, e := Phases(db, b, order);
    RanCounts(db, b, order, c, e);
    RanDiscovers(db, b, order, c, e);
    AllVersioned(db, b.cis, b.source);
    KeysAfter(db, b, c, Finish(c, e, b).0);
    KeptAreOpen(db.edges, b);
    ClosedEdgeCount(OpenKeys(db.edges), TargetsOf(CloseCis(c.db, CisToClose(c, b)), c.idByKey, order, b.edges),
                    OutOfScope(db.edges, b), OpenKeys(Finish(c, e, b).0.edges));
  }

  lemma RanCounts(db: Db, b: Batch, order: RowOrder, c: CiPhase, e: EdgePhase)
    requires Tables(db) && Ran(db, b, order, c, e)
    ensures var (after, r) := Finish(c, e, b);
            && r.cisUpdated == c.updated && r.cisCreated == c.created && r.cisClosed == |CisToClose(c, b)|
            && OpenMap(after.cis) == OpenMap(c.db.cis) - CisToClose(c, b)
            && OpenKeys(c.db.cis) == OpenKeys(db.cis) + c.seen && |OpenKeys(c.db.cis)| == |OpenKeys(db.cis)| + c.created
  {
    hide Tables, CiView, EdgeView, OpenMap, OpenKeys, DiscoverCis, WriteEdges, Stable, Project, CisToClose, Shown, KeysOf;
    EdgesLeaveCis(CloseCis(c.db, CisToClose(c, b)), e);
  }

  lemma KeysAfter(db: Db, b: Batch, c: CiPhase, after: Db)
    requires OpenMap(after.cis) == OpenMap(c.db.cis) - CisToClose(c, b) && Versioned(db, c)
    requires OpenKeys(c.db.cis) == OpenKeys(db.cis) + c.seen && |OpenKeys(c.db.cis)| == |OpenKeys(db.cis)| + c.created
    ensures c.created == |OpenKeys(after.cis) - OpenKeys(db.cis)| && |CisToClose(c, b)| == |OpenKeys(db.cis) - OpenKeys(after.cis)|
    ensures c.updated == |Rewritten(db.cis, after.cis)|
  {
    assert OpenMap(after.cis).Keys == OpenKeys(after.cis) && OpenMap(c.db.cis).Keys == OpenKeys(c.db.cis);
    UnseenToClose(c, b);
    RewrittenAfter(db, c, CisToClose(c, b), after);
    hide OpenMap, OpenKeys, CisToClose, Versioned, Rewritten;
    var keys := CisToClose(c, b);
    assert OpenKeys(db.cis) - OpenKeys(after.cis) == keys;
    assert OpenKeys(after.cis) - OpenKeys(db.cis) == OpenKeys(c.db.cis) - OpenKeys(db.cis);
    assert |OpenKeys(c.db.cis) - OpenKeys(db.cis)| == |OpenKeys(c.db.cis)| - |OpenKeys(db.cis)|;
  }

  lemma UnseenToClose(c: CiPhase, b: Batch)
    ensures CisToClose(c, b) <= OpenKeys(c.db.cis) && CisToClose(c, b) !! c.seen
  {
    assert OpenMap(c.db.cis).Keys == OpenKeys(c.db.cis);
    hide OpenMap, OwnedBy;
  }

  lemma RewrittenAfter(db: Db, c: CiPhase, keys: set<CiKey>, after: Db)
    requires Versioned(db, c) && OpenMap(after.cis) == OpenMap(c.db.cis) - keys && keys !! c.seen
    ensures c.updated == |Rewritten(db.cis, after.cis)|
  {
    hide OpenMap;
    assert Rewritten(db.cis, after.cis) == Rewritten(db.cis, c.db.cis);
  }

  lemma KeptAreOpen(edges: Rows<EdgeKey, Observations.EdgeData>, b: Batch)
    ensures OutOfScope(edges, b) <= OpenKeys(edges)
  {
    hide OpenKeys;
  }

  lemma ClosedEdgeCount(before: set<EdgeKey>, targets: set<EdgeKey>, kept: set<EdgeKey>, after: set<EdgeKey>)
    requires kept <= before && after == targets + kept
    ensures |before + targets| == |after| + |before - after|
  {
    assert before + targets == after + (before - after);
  }

  /* ---------------------------------------------------------------- a delta */

  /** Exactly which CIs that were open a delta leaves open: those it does not remove; whatever else
      is open is named by one of its events. */
  lemma CisAfterDelta(db: Db, d: Delta, order: RowOrder, first: Scan, k: CiKey)
    requires Tables(db) && ApplyDelta(db, d, order, first).Ok?
    ensures var after := ApplyDelta(db, d, order, first).value.0;
            && (k in OpenMap(after.cis) ==> k !in d.removedCis)
            && (k in OpenMap(db.cis) && k !in d.removedCis ==> k in OpenMap(after.cis))
            && (k in OpenMap(db.cis) && k in OpenMap(after.cis) ==> OpenMap(after.cis)[k].id == OpenMap(db.cis)[k].id)
            && (k !in OpenMap(db.cis) && k in OpenMap(after.cis) ==> Named(d.cis, k))
  {
    hide Tables, OpenMap, OpenKeys, Applied, Conclude, Upserts, KeysToRemove, Agree, NewAreNamed, DiscoverCis;
    var c, e := Stages(db, d, order, first);
    Concluded(db, d, order, first, c, e);
    AppliedDiscovers(db, d, order, c, e);
    AppliedCis(db, d, order, c, e);
    AllNamed(db, d.cis, d.source);
    ConcludedCis(c, e, d, order, first);
    assert OpenMap(c.db.cis).Keys == OpenKeys(c.db.cis) && OpenMap(db.cis).Keys == OpenKeys(db.cis);
    if k in OpenMap(c.db.cis) { NewIsNamed(db, c, d.cis, k); }
  }

  lemma AppliedCis(db: Db, d: Delta, order: RowOrder, c: CiPhase, e: EdgePhase)
    requires Tables(db) && Applied(db, d, order, c, e)
    ensures e.db.cis == c.db.cis && OpenKeys(c.db.cis) == OpenKeys(db.cis) + c.seen && IdsPersist(db.cis, c.db.cis) && Tables(e.db)
  {
    hide Tables, CiView, EdgeView, OpenMap, OpenKeys, DiscoverCis, WriteEdges, WriteEdgesStrictly, Stable, Shown, KeysOf, IdsPersist;
  }

  lemma ConcludedCis(c: CiPhase, e: EdgePhase, d: Delta, order: RowOrder, first: Scan)
    requires Tables(e.db)
    ensures OpenMap(Conclude(c, e, d, order, first).0.cis) == OpenMap(e.db.cis) - Removed(d)
  {
    hide Tables, OpenMap, KeysToRemove, Project, CloseCis, FirstMatches, IdsUnder;
    CloseCisEffect(e.db, Removed(d));
  }

  lemma {:induction false} AllNamed(db: Db, cis: seq<DiscoveredCi>, source: string)
    requires Tables(db) && DiscoverCis(db, cis, source).Ok?
    ensures NewAreNamed(db, DiscoverCis(db, cis, source).value, cis)
    decreases |cis|
  {
    hide Tables, DiscoverCi, OpenMap, CiInv, Cached, NewAreNamed;
    if cis == [] {
      assert NewAreNamed(db, CiPhase(db, map[], {}, [], 0, 0, 0), []) by { NoneNew(db); }
    } else {
      var init, d := cis[..|cis| - 1], cis[|cis| - 1];
      AllNamed(db, init, source);
      DiscoverAll(db, init, source);
      var p := DiscoverCis(db, init, source).value;
      PhaseIsSound(db, p);
      var key, r := EventCaches(p, d, source);
      NewStep(db, p, DiscoverCi(p, d, source).value, init, d, source, key, r);
      assert cis == init + [d];
    }
  }

  lemma NoneNew(db: Db)
    ensures NewAreNamed(db, CiPhase(db, map[], {}, [], 0, 0, 0), [])
  {
  }
}
