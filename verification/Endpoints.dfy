/** Which edges a run or a delta writes, read off the state it leaves
    (services/reconciliation/src/infra_twin/reconciliation/reconcile.py). */
module Endpoints {
  import opened Model
  import opened Versions
  import opened Store
  import opened Reconciling
  import opened Deltas

  /** An event of the batch is about the CI of this key. */
  predicate Named(cis: seq<DiscoveredCi>, ref: CiKey) { exists d :: d in cis && d.key == ref }

  /** No two events give one native id to CIs of different types. */
  ghost predicate OneTypePerId(cis: seq<DiscoveredCi>) {
    forall d, e :: d in cis && e in cis && d.key.externalId == e.key.externalId ==> d.key == e.key
  }

  /** The CI a reference stands for, in the state a run leaves: the open CI of that key; else, for
      an event that was merged, the CI its source key is bound to; else an open CI that some
      source's key leads to. */
  ghost predicate Means(db: Db, cis: seq<DiscoveredCi>, source: string, order: RowOrder, ref: CiKey, id: nat) {
    if ref in OpenMap(db.cis) then id == OpenMap(db.cis)[ref].id
    else if Named(cis, ref) then
      var own := SourceKey(source, ref.externalId);
      own in db.sourceKeys && id == db.sourceKeys[own]
    else
      var any := SourceKey(order(ref.externalId), ref.externalId);
      any in db.sourceKeys && id == db.sourceKeys[any] && id in OpenIds(db.cis)
  }

  /* ---------------------------------------------------------------- the cache of a run */

  ghost predicate OpenRight(p: CiPhase) {
    forall k :: k in p.idByKey && k in OpenMap(p.db.cis) ==> p.idByKey[k] == OpenMap(p.db.cis)[k].id
  }

  ghost predicate BoundRight(p: CiPhase, cis: seq<DiscoveredCi>, source: string) {
    && (forall d :: d in cis ==> d.key in p.idByKey && SourceKey(source, d.key.externalId) in p.db.sourceKeys)
    && (OneTypePerId(cis) ==>
          forall d :: d in cis ==> p.idByKey[d.key] == p.db.sourceKeys[SourceKey(source, d.key.externalId)])
  }

  /** The cache agrees with the tables: open keys lead to their row, events to their source key. */
  ghost predicate CacheRight(p: CiPhase, cis: seq<DiscoveredCi>, source: string) {
    && OpenRight(p) && BoundRight(p, cis, source)
    && forall k :: k in p.idByKey ==> k in p.seen || Named(cis, k)
  }

  /** What one event does to the open keys, the cache and the source keys. */
  ghost predicate Cached(p: CiPhase, q: CiPhase, d: DiscoveredCi, source: string, key: CiKey, r: CiRow) {
    && OpenMap(q.db.cis) == OpenMap(p.db.cis)[key := r]
    && q.idByKey == p.idByKey[d.key := r.id][key := r.id] && q.seen == p.seen + {key}
    && q.db.sourceKeys == p.db.sourceKeys[SourceKey(source, d.key.externalId) := r.id]
    && (key in OpenMap(p.db.cis) ==> r.id == OpenMap(p.db.cis)[key].id)
    && (key != d.key ==> key in OpenMap(p.db.cis) && d.key !in OpenMap(p.db.cis))
    && r.data.name == d.name && r.data.attributes == d.attributes && r.lastSeen == p.db.now && q.db.now == p.db.now
  }

  lemma EventCaches(p: CiPhase, d: DiscoveredCi, source: string) returns (key: CiKey, r: CiRow)
    requires Tables(p.db) && DiscoverCi(p, d, source).Ok?
    ensures Cached(p, DiscoverCi(p, d, source).value, d, source, key, r)
  {
    hide Tables, UpsertCi, OpenMap, CiView, Stable, IsMerge;
    var m := MatchCi(p.db, d, source);
    key := if m.Some? then m.value.key else d.key;
    MatchedKey(p.db, d, source);
    OwnKey(p.db, d, source);
    UpsertCiEffect(p.db, key, d.name, d.attributes);
    r := UpsertCi(p.db, key, d.name, d.attributes).value.1;
    hide MatchCi;
  }

  lemma OwnKey(db: Db, d: DiscoveredCi, source: string)
    requires Tables(db)
    ensures var m := MatchCi(db, d, source);
            m.Some? && m.value.key != d.key ==> d.key !in OpenMap(db.cis) && m.value.key in OpenMap(db.cis)
  {
    var m := MatchCi(db, d, source);
    if m.Some? { OpenRow(db.cis, db.now, m.value); }
  }

  lemma CacheStep(p: CiPhase, q: CiPhase, cis: seq<DiscoveredCi>, d: DiscoveredCi, source: string, key: CiKey, r: CiRow)
    requires CacheRight(p, cis, source) && Cached(p, q, d, source, key, r)
    ensures CacheRight(q, cis + [d], source)
  {
    hide OpenMap, OpenRight, BoundRight, Named;
    OpenStep(p, q, d, source, key, r);
    BoundStep(p, q, cis, d, source, key, r);
    NamedMore(cis, d);
  }

  lemma OpenStep(p: CiPhase, q: CiPhase, d: DiscoveredCi, source: string, key: CiKey, r: CiRow)
    requires OpenRight(p) && Cached(p, q, d, source, key, r)
    ensures OpenRight(q)
  {
    hide OpenMap;
  }

  lemma NamedMore(cis: seq<DiscoveredCi>, d: DiscoveredCi)
    ensures forall k :: Named(cis + [d], k) <==> Named(cis, k) || k == d.key
  {
    var all := cis + [d];
    assert forall e :: e in all <==> e in cis || e == d;
    forall k | Named(cis, k) ensures Named(all, k) {
      var e :| e in cis && e.key == k;
      assert e in all;
    }
    assert d in all;
  }

  lemma BoundStep(p: CiPhase, q: CiPhase, cis: seq<DiscoveredCi>, d: DiscoveredCi, source: string, key: CiKey, r: CiRow)
    requires BoundRight(p, cis, source) && OpenRight(p) && Cached(p, q, d, source, key, r)
    ensures BoundRight(q, cis + [d], source)
  {
    hide OpenMap;
    var all := cis + [d];
    assert forall e :: e in all <==> e in cis || e == d;
    if OneTypePerId(all) {
      assert OneTypePerId(cis);
      forall e | e in all && e.key != d.key ensures e in cis && e.key.externalId != d.key.externalId { }
    }
  }

  lemma {:induction false} CacheAll(db: Db, cis: seq<DiscoveredCi>, source: string)
    requires Tables(db) && DiscoverCis(db, cis, source).Ok?
    ensures CacheRight(DiscoverCis(db, cis, source).value, cis, source)
    decreases |cis|
  {
    hide Tables, DiscoverCi, OpenMap, CiInv, Cached, CacheRight;
    if cis == [] {
      NothingCached(db, source);
    } else {
      var init, d := cis[..|cis| - 1], cis[|cis| - 1];
      CacheAll(db, init, source);
      DiscoverAll(db, init, source);
      var p := DiscoverCis(db, init, source).value;
      PhaseIsSound(db, p);
      var key, r := EventCaches(p, d, source);
      CacheStep(p, DiscoverCi(p, d, source).value, init, d, source, key, r);
      assert cis == init + [d];
    }
  }

  lemma NothingCached(db: Db, source: string)
    ensures CacheRight(CiPhase(db, map[], {}, [], 0, 0, 0), [], source)
  {
  }

  lemma PhaseIsSound(db: Db, p: CiPhase)
    requires CiInv(db, p)
    ensures Tables(p.db) && OpenKeys(p.db.cis) == OpenKeys(db.cis) + p.seen
    ensures CacheOpen(p.idByKey, CiView(p.db.cis), p.seen)
  {
    hide Tables, CiView, Stable, OpenKeys, CacheOpen;
  }

  /* ---------------------------------------------------------------- what an event records */

  /** No native id is given twice. */
  ghost predicate DistinctIds(cis: seq<DiscoveredCi>) {
    forall i, j :: 0 <= i < j < |cis| ==> cis[i].key.externalId != cis[j].key.externalId
  }

  /** Source keys of other native ids lead elsewhere. */
  ghost predicate Elsewhere(keys: map<SourceKey, nat>, source: string, cis: seq<DiscoveredCi>, id: nat) {
    forall d :: d in cis && SourceKey(source, d.key.externalId) in keys ==> keys[SourceKey(source, d.key.externalId)] != id
  }

  /** The row an event wrote, after the events behind it: still the open one of its key unless one
      of them was bound to the same CI. */
  ghost predicate Recorded(p: CiPhase, d: DiscoveredCi, source: string, post: seq<DiscoveredCi>, key: CiKey, r: CiRow) {
    var own := SourceKey(source, d.key.externalId);
    && r.data.name == d.name && r.data.attributes == d.attributes && r.lastSeen == p.db.now
    && own in p.db.sourceKeys && p.db.sourceKeys[own] == r.id
    && key in OpenMap(p.db.cis) && OpenMap(p.db.cis)[key].id == r.id
    && (Elsewhere(p.db.sourceKeys, source, post, r.id) ==> OpenMap(p.db.cis)[key] == r)
  }

  lemma RecordedNow(p: CiPhase, q: CiPhase, d: DiscoveredCi, source: string, key: CiKey, r: CiRow)
    requires Cached(p, q, d, source, key, r)
    ensures Recorded(q, d, source, [], key, r)
  {
    hide OpenMap;
  }

  lemma RecordedStep(p: CiPhase, q: CiPhase, d: DiscoveredCi, source: string, post: seq<DiscoveredCi>, key: CiKey, r: CiRow,
                     last: DiscoveredCi, k: CiKey, s: CiRow)
    requires Recorded(p, d, source, post, key, r) && Cached(p, q, last, source, k, s)
    requires last.key.externalId != d.key.externalId && forall x :: x in post ==> x.key.externalId != last.key.externalId
    ensures Recorded(q, d, source, post + [last], key, r)
  {
    hide OpenMap;
    var all := post + [last];
    assert forall x :: x in all <==> x in post || x == last;
    if Elsewhere(q.db.sourceKeys, source, all, r.id) {
      assert Elsewhere(p.db.sourceKeys, source, post, r.id);
      assert q.db.sourceKeys[SourceKey(source, last.key.externalId)] == s.id;
    }
  }

  lemma {:induction false} EventRecorded(db: Db, pre: seq<DiscoveredCi>, d: DiscoveredCi, post: seq<DiscoveredCi>, source: string)
    returns (key: CiKey, r: CiRow)
    requires Tables(db) && DiscoverCis(db, pre + [d] + post, source).Ok? && DistinctIds(pre + [d] + post)
    ensures Recorded(DiscoverCis(db, pre + [d] + post, source).value, d, source, post, key, r)
    decreases |post|
  {
    hide Tables, DiscoverCi, CiInv, Cached, Recorded;
    var all := pre + [d] + post;
    var init, last := all[..|all| - 1], all[|all| - 1];
    DiscoverAll(db, init, source);
    var p := DiscoverCis(db, init, source).value;
    PhaseIsSound(db, p);
    if post == [] {
      assert all == pre + [d] && last == d;
      key, r := EventCaches(p, d, source);
      RecordedNow(p, DiscoverCi(p, d, source).value, d, source, key, r);
    } else {
      var rest := post[..|post| - 1];
      assert init == pre + [d] + rest && last == post[|post| - 1];
      DistinctRest(pre, d, rest, last, all);
      key, r := EventRecorded(db, pre, d, rest, source);
      var k, s := EventCaches(p, last, source);
      RecordedStep(p, DiscoverCi(p, last, source).value, d, source, rest, key, r, last, k, s);
      assert post == rest + [last];
    }
  }

  lemma DistinctRest(pre: seq<DiscoveredCi>, d: DiscoveredCi, rest: seq<DiscoveredCi>, last: DiscoveredCi, all: seq<DiscoveredCi>)
    requires all == pre + [d] + rest + [last] && DistinctIds(all)
    ensures DistinctIds(pre + [d] + rest) && last.key.externalId != d.key.externalId
    ensures forall x :: x in rest ==> x.key.externalId != last.key.externalId
  {
    var n := |all| - 1;
    assert all[n] == last && all[|pre|] == d;
    forall i | 0 <= i < |rest| ensures rest[i].key.externalId != last.key.externalId {
      assert all[|pre| + 1 + i] == rest[i];
    }
    var init := pre + [d] + rest;
    forall i, j | 0 <= i < j < |init| ensures init[i].key.externalId != init[j].key.externalId {
      assert all[i] == init[i] && all[j] == init[j];
    }
  }

  /* ---------------------------------------------------------------- references */

  /** The state the edges are resolved against: the CIs left open by the CI phase. */
  ghost predicate Leaves(c: CiPhase, mid: Db) {
    && Tables(mid) && mid.sourceKeys == c.db.sourceKeys
    && (forall k :: k in OpenMap(mid.cis) ==> k in OpenMap(c.db.cis) && OpenMap(mid.cis)[k] == OpenMap(c.db.cis)[k])
  }

  lemma RefMeans(c: CiPhase, mid: Db, cis: seq<DiscoveredCi>, source: string, order: RowOrder, ref: CiKey, id: nat)
    requires CacheRight(c, cis, source) && Leaves(c, mid) && (ref in c.seen ==> ref in OpenMap(mid.cis))
    requires OneTypePerId(cis) || !Named(cis, ref) || ref in OpenMap(mid.cis)
    ensures ResolveRef(mid, c.idByKey, order, ref) == Some(id) <==> Means(mid, cis, source, order, ref, id)
  {
    hide Tables, OneTypePerId, Coherent;
    OpenIsCurrent(mid, ref);
    if ref !in OpenMap(mid.cis) && !Named(cis, ref) {
      assert ref !in c.idByKey;
      var k := SourceKey(order(ref.externalId), ref.externalId);
      if k in mid.sourceKeys { OpenIsById(mid, mid.sourceKeys[k]); }
    }
    hide Current, CurrentById, OpenIds, OpenKeys, OpenMap;
    if Named(cis, ref) { var d :| d in cis && d.key == ref; }
  }

  lemma OpenIsCurrent(db: Db, ref: CiKey)
    ensures ref in OpenMap(db.cis) <==> Current(db.cis, ref).Some?
    ensures ref in OpenMap(db.cis) ==> OpenMap(db.cis)[ref] == Current(db.cis, ref).value
  {
  }

  lemma OpenIsById(db: Db, id: nat)
    ensures id in OpenIds(db.cis) <==> CurrentById(db.cis, id).Some?
  {
  }

  /** The key is the one an edge of the batch stands for. */
  ghost predicate StandsFor(db: Db, cis: seq<DiscoveredCi>, source: string, order: RowOrder, de: DiscoveredEdge, k: EdgeKey) {
    && k.etype == de.etype && k.edgeKey == de.edgeKey
    && Means(db, cis, source, order, de.from, k.fromId) && Means(db, cis, source, order, de.to, k.toId)
  }

  lemma TargetMeans(c: CiPhase, mid: Db, cis: seq<DiscoveredCi>, source: string, order: RowOrder, de: DiscoveredEdge, k: EdgeKey)
    requires CacheRight(c, cis, source) && Leaves(c, mid) && c.seen <= OpenKeys(mid.cis)
    requires OneTypePerId(cis) || (de.from in OpenMap(mid.cis) && de.to in OpenMap(mid.cis))
    ensures EdgeTarget(mid, c.idByKey, order, de) == Some(k) <==> StandsFor(mid, cis, source, order, de, k)
  {
    hide CacheRight, Leaves, Means, ResolveRef, OneTypePerId, OpenMap;
    assert OpenMap(mid.cis).Keys == OpenKeys(mid.cis);
    RefMeans(c, mid, cis, source, order, de.from, k.fromId);
    RefMeans(c, mid, cis, source, order, de.to, k.toId);
    var f, t := ResolveRef(mid, c.idByKey, order, de.from), ResolveRef(mid, c.idByKey, order, de.to);
    if f.Some? { RefMeans(c, mid, cis, source, order, de.from, f.value); }
    if t.Some? { RefMeans(c, mid, cis, source, order, de.to, t.value); }
  }

  lemma SameMeaning(a: Db, b: Db, cis: seq<DiscoveredCi>, source: string, order: RowOrder, de: DiscoveredEdge, k: EdgeKey)
    requires a.cis == b.cis && a.sourceKeys == b.sourceKeys
    ensures StandsFor(a, cis, source, order, de, k) == StandsFor(b, cis, source, order, de, k)
  {
    hide OpenMap, OpenIds;
  }

  /* ---------------------------------------------------------------- a run */

  lemma RunLeaves(db: Db, b: Batch, order: RowOrder, c: CiPhase, e: EdgePhase)
    requires Tables(db) && Ran(db, b, order, c, e)
    ensures var closed, after := CloseCis(c.db, CisToClose(c, b)), Finish(c, e, b).0;
            && CacheRight(c, b.cis, b.source) && Leaves(c, closed) && c.seen <= OpenKeys(closed.cis)
            && after.cis == closed.cis && after.sourceKeys == closed.sourceKeys
  {
    hide Tables, CiView, EdgeView, OpenMap, OpenKeys, DiscoverCis, WriteEdges, CloseCis, Stable, CacheRight, CiInv, EdgeInv, Project, CloseEdges;
    var keys := CisToClose(c, b);
    var closed := CloseCis(c.db, keys);
    CacheAll(db, b.cis, b.source);
    PhaseIsSound(db, c);
    CloseCisEffect(c.db, keys);
    SameEdges(c.db, keys);
    EdgesLeaveCis(closed, e);
    EdgesOnly(e.db, EdgesToClose(e, b));
    assert OpenMap(closed.cis).Keys == OpenKeys(closed.cis) && OpenMap(c.db.cis).Keys == OpenKeys(c.db.cis);
  }

  lemma EdgesOnly(db: Db, keys: set<EdgeKey>)
    ensures CloseEdges(db, keys).cis == db.cis && CloseEdges(db, keys).sourceKeys == db.sourceKeys
  {
  }

  /** After a run, every event's native id leads to an open CI; it carries the name and attributes
      of the event and the time of the run, unless a later event of the run is about the same CI. */
  lemma ObservedIsRecorded(db: Db, b: Batch, order: RowOrder, pre: seq<DiscoveredCi>, d: DiscoveredCi, post: seq<DiscoveredCi>)
    returns (key: CiKey)
    requires Tables(db) && Reconcile(db, b, order).Ok? && b.cis == pre + [d] + post && DistinctIds(b.cis)
    ensures var after, own := Reconcile(db, b, order).value.0, SourceKey(b.source, d.key.externalId);
            && own in after.sourceKeys && key in OpenMap(after.cis) && OpenMap(after.cis)[key].id == after.sourceKeys[own]
            && (d.key in OpenMap(after.cis) ==> key == d.key)
            && ((forall x :: x in post && SourceKey(b.source, x.key.externalId) in after.sourceKeys ==>
                   after.sourceKeys[SourceKey(b.source, x.key.externalId)] != after.sourceKeys[own]) ==>
                  var row := OpenMap(after.cis)[key];
                  row.data.name == d.name && row.data.attributes == d.attributes && row.lastSeen == db.now)
  {
    hide Tables, OpenMap, Ran, Finish, CisToClose, CloseCis, CacheRight, DiscoverCis, WriteEdges, CiView;
    var c, e := Phases(db, b, order);
    RunLeaves(db, b, order, c, e);
    RanCache(db, b, order, c, e);
    RanNow(db, b, order, c, e);
    var r;
    key, r := EventRecorded(db, pre, d, post, b.source);
    var closed := CloseCis(c.db, CisToClose(c, b));
    OneTypeOfDistinct(b.cis);
    assert d in b.cis by { assert b.cis[|pre|] == d; }
    RecordedStays(c, closed, b.cis, d, b.source, post, key, r);
  }

  lemma RanNow(db: Db, b: Batch, order: RowOrder, c: CiPhase, e: EdgePhase)
    requires Ran(db, b, order, c, e)
    ensures c.db.now == db.now && CacheOpen(c.idByKey, CiView(c.db.cis), c.seen) && Tables(c.db)
  {
    hide Tables, CiView, EdgeView, OpenMap, DiscoverCis, WriteEdges, CloseCis, Stable, EdgeInv, CacheOpen;
  }

  lemma OneTypeOfDistinct(cis: seq<DiscoveredCi>)
    requires DistinctIds(cis)
    ensures OneTypePerId(cis)
  {
  }

  lemma RecordedStays(c: CiPhase, closed: Db, cis: seq<DiscoveredCi>, d: DiscoveredCi, source: string, post: seq<DiscoveredCi>,
                      key: CiKey, r: CiRow)
    requires Recorded(c, d, source, post, key, r) && CacheRight(c, cis, source) && Leaves(c, closed) && c.seen <= OpenKeys(closed.cis)
    requires d in cis && OneTypePerId(cis) && Tables(c.db) && CacheOpen(c.idByKey, CiView(c.db.cis), c.seen)
    ensures key in OpenMap(closed.cis) && OpenMap(closed.cis)[key] == OpenMap(c.db.cis)[key]
    ensures d.key in OpenMap(closed.cis) ==> key == d.key
  {
    hide Tables, OneTypePerId, OpenKeys;
    OpenIdKey(c.db, key);
    hide OpenMap, CiView;
    assert OpenMap(closed.cis).Keys == OpenKeys(closed.cis);
    assert CiView(c.db.cis)[c.idByKey[d.key]] == key;
    if d.key in OpenMap(closed.cis) { OpenIdKey(c.db, d.key); }
  }

  lemma OpenIdKey(db: Db, key: CiKey)
    requires Tables(db) && key in OpenMap(db.cis)
    ensures var id := OpenMap(db.cis)[key].id; id in CiView(db.cis) && CiView(db.cis)[id] == key
  {
    OpenMapRow(db.cis, key);
    CiViewIs(db.cis, db.now, OpenMap(db.cis)[key].id, OpenMap(db.cis)[key]);
  }

  /** After a run, an observed edge whose endpoints are open is open, from the CI of its `from` key
      to the CI of its `to` key, under its own edge key. */
  lemma ObservedIsOpen(db: Db, b: Batch, order: RowOrder, de: DiscoveredEdge)
    requires Tables(db) && Reconcile(db, b, order).Ok? && de in b.edges
    ensures var after := Reconcile(db, b, order).value.0;
            de.from in OpenMap(after.cis) && de.to in OpenMap(after.cis) ==>
              EdgeKey(de.etype, OpenMap(after.cis)[de.from].id, OpenMap(after.cis)[de.to].id, de.edgeKey) in OpenMap(after.edges)
  {
    hide Tables, OpenMap, Ran, Finish, CisToClose, CloseCis, EdgeTarget, TargetsOf, CacheRight, Leaves, OutOfScope, DiscoverCis, Reconcile;
    var c, e := Phases(db, b, order);
    RunLeaves(db, b, order, c, e);
    ExactEdges(db, b, order, c, e);
    var after, closed := Finish(c, e, b).0, CloseCis(c.db, CisToClose(c, b));
    if de.from in OpenMap(after.cis) && de.to in OpenMap(after.cis) {
      var k := EdgeKey(de.etype, OpenMap(after.cis)[de.from].id, OpenMap(after.cis)[de.to].id, de.edgeKey);
      TargetMeans(c, closed, b.cis, b.source, order, de, k);
      InTargets(closed, c.idByKey, order, b.edges, de, k);
    }
  }

  lemma InTargets(db: Db, idByKey: map<CiKey, nat>, order: RowOrder, edges: seq<DiscoveredEdge>, de: DiscoveredEdge, k: EdgeKey)
    requires de in edges && EdgeTarget(db, idByKey, order, de) == Some(k)
    ensures k in TargetsOf(db, idByKey, order, edges)
  {
    hide EdgeTarget;
  }

  /** Exactly which edges a run leaves open: those of types it is not authoritative for, and those
      its own edges stand for. */
  lemma OpenAfterRun(db: Db, b: Batch, order: RowOrder, k: EdgeKey)
    requires Tables(db) && Reconcile(db, b, order).Ok? && OneTypePerId(b.cis)
    ensures var after := Reconcile(db, b, order).value.0;
            k in OpenMap(after.edges) <==>
              (k in OpenMap(db.edges) && k.etype !in b.edgeTypes)
              || exists de :: de in b.edges && StandsFor(after, b.cis, b.source, order, de, k)
  {
    hide Tables, OpenMap, Ran, Finish, CisToClose, CloseCis, EdgeTarget, TargetsOf, CacheRight, Leaves, OneTypePerId, StandsFor, DiscoverCis, Reconcile;
    var c, e := Phases(db, b, order);
    RunLeaves(db, b, order, c, e);
    ExactEdges(db, b, order, c, e);
    var after, closed := Finish(c, e, b).0, CloseCis(c.db, CisToClose(c, b));
    forall de | de in b.edges
      ensures EdgeTarget(closed, c.idByKey, order, de) == Some(k) <==> StandsFor(after, b.cis, b.source, order, de, k)
    {
      TargetMeans(c, closed, b.cis, b.source, order, de, k);
      SameMeaning(closed, after, b.cis, b.source, order, de, k);
    }
    IsTarget(closed, c.idByKey, order, b.edges, k);
  }

  lemma IsTarget(db: Db, idByKey: map<CiKey, nat>, order: RowOrder, edges: seq<DiscoveredEdge>, k: EdgeKey)
    ensures k in TargetsOf(db, idByKey, order, edges) <==> exists de :: de in edges && EdgeTarget(db, idByKey, order, de) == Some(k)
  {
    hide EdgeTarget;
  }

  /* ---------------------------------------------------------------- an edge with an unknown endpoint */

  lemma {:induction false} SkippedEdge(db: Db, idByKey: map<CiKey, nat>, order: RowOrder, pre: seq<DiscoveredEdge>, de: DiscoveredEdge,
                                       post: seq<DiscoveredEdge>)
    requires Tables(db) && forall k :: k in idByKey ==> idByKey[k] in CiView(db.cis)
    requires EdgeTarget(db, idByKey, order, de).None?
    ensures WriteEdges(db, idByKey, order, pre + [de] + post) == WriteEdges(db, idByKey, order, pre + post)
    decreases |post|
  {
    hide Tables, CiView, EdgeTarget, UpsertEdge, EdgeInv;
    if post == [] {
      var all := pre + [de] + post;
      assert all == pre + [de] && pre + post == pre && all[..|all| - 1] == pre && all[|all| - 1] == de;
      if WriteEdges(db, idByKey, order, pre).Ok? {
        var p := WriteEdges(db, idByKey, order, pre).value;
        WriteAll(db, idByKey, order, pre);
        PhaseKeys(db, p);
        SameTargets(db, p.db, idByKey, order, de);
      }
    } else {
      var init, last := post[..|post| - 1], post[|post| - 1];
      SkippedEdge(db, idByKey, order, pre, de, init);
      var all, less := pre + [de] + post, pre + post;
      assert all[..|all| - 1] == pre + [de] + init && all[|all| - 1] == last;
      assert less[..|less| - 1] == pre + init && less[|less| - 1] == last;
    }
  }

  lemma PhaseKeys(db: Db, p: EdgePhase)
    requires EdgeInv(db, p)
    ensures p.db.cis == db.cis && p.db.sourceKeys == db.sourceKeys
  {
    hide Tables, CiView, EdgeView, Stable, Shown;
  }

  /** An edge with an endpoint that is neither open nor named nor bound is skipped: the run is the
      one without it. */
  lemma UnknownIsSkipped(db: Db, b: Batch, order: RowOrder, pre: seq<DiscoveredEdge>, de: DiscoveredEdge, post: seq<DiscoveredEdge>)
    requires Tables(db) && Reconcile(db, b, order).Ok? && b.edges == pre + [de] + post && OneTypePerId(b.cis)
    requires var after := Reconcile(db, b, order).value.0;
             (forall id :: !Means(after, b.cis, b.source, order, de.from, id))
             || forall id :: !Means(after, b.cis, b.source, order, de.to, id)
    ensures Reconcile(db, b.(edges := pre + post), order) == Reconcile(db, b, order)
  {
    hide Tables, OpenMap, Ran, CisToClose, CloseCis, EdgeTarget, CacheRight, Leaves, OneTypePerId, Means, DiscoverCis, WriteEdges, Project, CloseEdges;
    var c, e := Phases(db, b, order);
    RunLeaves(db, b, order, c, e);
    var after, closed := Finish(c, e, b).0, CloseCis(c.db, CisToClose(c, b));
    if EdgeTarget(closed, c.idByKey, order, de).Some? {
      var k := EdgeTarget(closed, c.idByKey, order, de).value;
      TargetMeans(c, closed, b.cis, b.source, order, de, k);
      SameMeaning(closed, after, b.cis, b.source, order, de, k);
    }
    RanCache(db, b, order, c, e);
    SkippedEdge(closed, c.idByKey, order, pre, de, post);
    SameScope(c, e, b, pre + post);
  }

  lemma SameScope(c: CiPhase, e: EdgePhase, b: Batch, edges: seq<DiscoveredEdge>)
    ensures CisToClose(c, b.(edges := edges)) == CisToClose(c, b) && EdgesToClose(e, b.(edges := edges)) == EdgesToClose(e, b)
  {
    hide OpenMap, EdgeView, OwnedBy;
  }

  lemma RanCache(db: Db, b: Batch, order: RowOrder, c: CiPhase, e: EdgePhase)
    requires Tables(db) && Ran(db, b, order, c, e)
    ensures DiscoverCis(db, b.cis, b.source) == Ok(c)
    ensures WriteEdges(CloseCis(c.db, CisToClose(c, b)), c.idByKey, order, b.edges) == Ok(e)
    ensures var closed := CloseCis(c.db, CisToClose(c, b));
            Tables(closed) && forall k :: k in c.idByKey ==> c.idByKey[k] in CiView(closed.cis)
  {
    hide Tables, CiView, EdgeView, OpenMap, DiscoverCis, WriteEdges, CloseCis, Stable, IdsUnder, EdgeInv;
    CloseCisEffect(c.db, CisToClose(c, b));
    CacheSurvives(c, CisToClose(c, b));
  }

  lemma {:induction false} CountWritten(db: Db, idByKey: map<CiKey, nat>, order: RowOrder, edges: seq<DiscoveredEdge>)
    requires Tables(db) && forall n :: n in idByKey ==> idByKey[n] in CiView(db.cis)
    requires WriteEdges(db, idByKey, order, edges).Ok? && forall de :: de in edges ==> EdgeTarget(db, idByKey, order, de).Some?
    ensures |WriteEdges(db, idByKey, order, edges).value.stored| == |edges|
    decreases |edges|
  {
    hide Tables, CiView, EdgeTarget, UpsertEdge, EdgeInv;
    if edges != [] {
      var init, de := edges[..|edges| - 1], edges[|edges| - 1];
      CountWritten(db, idByKey, order, init);
      WriteAll(db, idByKey, order, init);
      var p := WriteEdges(db, idByKey, order, init).value;
      PhaseKeys(db, p);
      SameTargets(db, p.db, idByKey, order, de);
    }
  }

  /** A run without such an edge counts every one of its edges as written. */
  lemma AllAreWritten(db: Db, b: Batch, order: RowOrder)
    requires Tables(db) && Reconcile(db, b, order).Ok? && OneTypePerId(b.cis)
    requires var after := Reconcile(db, b, order).value.0;
             forall de :: de in b.edges ==> exists k :: StandsFor(after, b.cis, b.source, order, de, k)
    ensures Reconcile(db, b, order).value.1.edgesWritten == |b.edges|
  {
    hide Tables, OpenMap, Ran, CisToClose, CloseCis, EdgeTarget, CacheRight, Leaves, OneTypePerId, StandsFor, DiscoverCis, WriteEdges, CloseEdges,
         EdgesToClose, Project, CiView, Reconcile;
    var c, e := Phases(db, b, order);
    RunLeaves(db, b, order, c, e);
    RanCache(db, b, order, c, e);
    var after, closed := Finish(c, e, b).0, CloseCis(c.db, CisToClose(c, b));
    forall de | de in b.edges ensures EdgeTarget(closed, c.idByKey, order, de).Some? {
      var k :| StandsFor(after, b.cis, b.source, order, de, k);
      TargetMeans(c, closed, b.cis, b.source, order, de, k);
      SameMeaning(closed, after, b.cis, b.source, order, de, k);
    }
    CountWritten(closed, c.idByKey, order, b.edges);
  }

  /* ---------------------------------------------------------------- what an edge records */

  lemma {:induction false} LastWrites(db: Db, idByKey: map<CiKey, nat>, order: RowOrder, pre: seq<DiscoveredEdge>, de: DiscoveredEdge,
                                      post: seq<DiscoveredEdge>, k: EdgeKey)
    requires Tables(db) && forall n :: n in idByKey ==> idByKey[n] in CiView(db.cis)
    requires WriteEdges(db, idByKey, order, pre + [de] + post).Ok? && de.data.source == Declared
    requires EdgeTarget(db, idByKey, order, de) == Some(k) && forall x :: x in post ==> EdgeTarget(db, idByKey, order, x) != Some(k)
    ensures var now := OpenMap(WriteEdges(db, idByKey, order, pre + [de] + post).value.db.edges);
            k in now && SameDeclared(now[k].data, de.data)
    decreases |post|
  {
    hide Tables, CiView, EdgeTarget, UpsertEdge, EdgeInv, OpenMap, SameDeclared;
    var all := pre + [de] + post;
    var init, last := all[..|all| - 1], all[|all| - 1];
    var p := WriteEdges(db, idByKey, order, init).value;
    WriteAll(db, idByKey, order, init);
    PhaseKeys(db, p);
    PhaseTables(db, p);
    SameTargets(db, p.db, idByKey, order, last);
    if post == [] {
      assert last == de;
    } else {
      var rest := post[..|post| - 1];
      assert init == pre + [de] + rest && last == post[|post| - 1];
      LastWrites(db, idByKey, order, pre, de, rest, k);
    }
    if EdgeTarget(p.db, idByKey, order, last).Some? {
      var n := EdgeTarget(p.db, idByKey, order, last).value;
      TargetOpen(p.db, idByKey, order, last);
      UpsertEdgeEffect(p.db, n, last.data);
    }
  }

  /** A declared edge is stored with the source, evidence and (up to the tolerance) confidence of
      the last edge of the batch that stands for it. */
  lemma DeclaredIsRecorded(db: Db, b: Batch, order: RowOrder, pre: seq<DiscoveredEdge>, de: DiscoveredEdge, post: seq<DiscoveredEdge>,
                           k: EdgeKey)
    requires Tables(db) && Reconcile(db, b, order).Ok? && b.edges == pre + [de] + post && OneTypePerId(b.cis)
    requires de.data.source == Declared
    requires var after := Reconcile(db, b, order).value.0;
             && StandsFor(after, b.cis, b.source, order, de, k)
             && forall x :: x in post ==> !StandsFor(after, b.cis, b.source, order, x, k)
    ensures var now := OpenMap(Reconcile(db, b, order).value.0.edges);
            && k in now && now[k].data.source == Declared && now[k].data.evidence == de.data.evidence
            && -0.000001 <= now[k].data.confidence - de.data.confidence <= 0.000001
  {
    hide Tables, OpenMap, Ran, CisToClose, CloseCis, EdgeTarget, CacheRight, Leaves, OneTypePerId, StandsFor, DiscoverCis, WriteEdges, CloseEdges,
         EdgesToClose, Project, CiView;
    var c, e := Phases(db, b, order);
    RunLeaves(db, b, order, c, e);
    RanCache(db, b, order, c, e);
    var after, closed := Finish(c, e, b).0, CloseCis(c.db, CisToClose(c, b));
    forall x | x in b.edges
      ensures EdgeTarget(closed, c.idByKey, order, x) == Some(k) <==> StandsFor(after, b.cis, b.source, order, x, k)
    {
      TargetMeans(c, closed, b.cis, b.source, order, x, k);
      SameMeaning(closed, after, b.cis, b.source, order, x, k);
    }
    assert de in b.edges by { assert b.edges[|pre|] == de; }
    assert forall x :: x in post ==> x in b.edges;
    LastWrites(closed, c.idByKey, order, pre, de, post, k);
    RanTables(db, b, order, c, e);
    CloseEdgesEffect(e.db, EdgesToClose(e, b));
    WrittenStays(db, b, order, c, e, de, k);
  }

  lemma RanTables(db: Db, b: Batch, order: RowOrder, c: CiPhase, e: EdgePhase)
    requires Ran(db, b, order, c, e)
    ensures Tables(e.db)
  {
    hide Tables, CiView, EdgeView, OpenMap, DiscoverCis, WriteEdges, CloseCis, Stable, Shown;
  }

  lemma WrittenStays(db: Db, b: Batch, order: RowOrder, c: CiPhase, e: EdgePhase, de: DiscoveredEdge, k: EdgeKey)
    requires Tables(db) && Ran(db, b, order, c, e) && de in b.edges
    requires EdgeTarget(CloseCis(c.db, CisToClose(c, b)), c.idByKey, order, de) == Some(k)
    ensures k !in EdgesToClose(e, b)
  {
    hide Tables, OpenMap, Ran, CisToClose, CloseCis, EdgeTarget, EdgeView, Finish, TargetsOf;
    ExactEdges(db, b, order, c, e);
    InTargets(CloseCis(c.db, CisToClose(c, b)), c.idByKey, order, b.edges, de, k);
  }

  /* ---------------------------------------------------------------- a delta */

  lemma UpsertsLeave(db: Db, d: Delta, order: RowOrder, c: CiPhase, e: EdgePhase)
    requires Tables(db) && Applied(db, d, order, c, e)
    ensures CacheRight(c, d.cis, d.source) && Leaves(c, e.db) && c.seen <= OpenKeys(e.db.cis)
    ensures e.db.cis == c.db.cis && e.db.sourceKeys == c.db.sourceKeys
  {
    hide Tables, CiView, EdgeView, OpenMap, OpenKeys, DiscoverCis, WriteEdges, WriteEdgesStrictly, Stable, CacheRight, Upserts;
    CacheAll(db, d.cis, d.source);
    PhaseIsSound(db, c);
    PhaseKeys(c.db, e);
  }

  /** Exactly which edges are open once a delta has written what it names: those that were open and
      those its edges stand for; and every one of its edges stands for some edge, or it fails. */
  lemma OpenAfterUpserts(db: Db, d: Delta, order: RowOrder, first: Scan, k: EdgeKey)
    requires Tables(db) && ApplyDelta(db, d, order, first).Ok? && OneTypePerId(d.cis)
    ensures Upserts(db, d, order).Ok?
    ensures var mid := Upserts(db, d, order).value.1.db;
            k in OpenMap(mid.edges) <==>
              k in OpenMap(db.edges) || exists de :: de in d.edges && StandsFor(mid, d.cis, d.source, order, de, k)
    ensures var mid := Upserts(db, d, order).value.1.db;
            forall de :: de in d.edges ==> exists n :: StandsFor(mid, d.cis, d.source, order, de, n)
  {
    hide Tables, OpenMap, OpenKeys, Applied, Conclude, Upserts, EdgeTarget, TargetsOf, CacheRight, Leaves, OneTypePerId, StandsFor;
    var c, e := Stages(db, d, order, first);
    AppliedDiscovers(db, d, order, c, e);
    UpsertsLeave(db, d, order, c, e);
    UpsertsExact(db, d, order, c, e);
    var mid := e.db;
    assert OpenMap(mid.edges).Keys == OpenKeys(mid.edges) && OpenMap(db.edges).Keys == OpenKeys(db.edges);
    forall de, n | de in d.edges
      ensures EdgeTarget(c.db, c.idByKey, order, de) == Some(n) <==> StandsFor(mid, d.cis, d.source, order, de, n)
    {
      SameTargets(c.db, mid, c.idByKey, order, de);
      TargetMeans(c, mid, d.cis, d.source, order, de, n);
    }
    IsTarget(c.db, c.idByKey, order, d.edges, k);
    forall de | de in d.edges ensures exists n :: StandsFor(mid, d.cis, d.source, order, de, n) {
      StrictTargets(db, d, order, c, e);
      var n := EdgeTarget(c.db, c.idByKey, order, de).value;
      assert StandsFor(mid, d.cis, d.source, order, de, n);
    }
  }

  lemma StrictTargets(db: Db, d: Delta, order: RowOrder, c: CiPhase, e: EdgePhase)
    requires Tables(db) && Applied(db, d, order, c, e)
    ensures forall de :: de in d.edges ==> EdgeTarget(c.db, c.idByKey, order, de).Some?
  {
    hide Tables, CiView, EdgeView, OpenMap, OpenKeys, DiscoverCis, WriteEdges, WriteEdgesStrictly, Stable, Upserts, EdgeInv, EdgeTarget;
    StrictResolves(c.db, c.idByKey, order, d.edges);
  }

  lemma {:induction false} StrictResolves(db: Db, idByKey: map<CiKey, nat>, order: RowOrder, edges: seq<DiscoveredEdge>)
    requires Tables(db) && forall k :: k in idByKey ==> idByKey[k] in CiView(db.cis)
    requires WriteEdgesStrictly(db, idByKey, order, edges).Ok?
    ensures forall de :: de in edges ==> EdgeTarget(db, idByKey, order, de).Some?
    decreases |edges|
  {
    hide Tables, CiView, EdgeTarget, WriteEdge, EdgeInv;
    if edges != [] {
      var init, de := edges[..|edges| - 1], edges[|edges| - 1];
      StrictResolves(db, idByKey, order, init);
      StrictWrites(db, idByKey, order, init);
      WriteAll(db, idByKey, order, init);
      var p := WriteEdgesStrictly(db, idByKey, order, init).value;
      PhaseKeys(db, p);
      SameTargets(db, p.db, idByKey, order, de);
      assert edges == init + [de];
    }
  }

  /** A delta counts every event once. */
  lemma DeltaCounts(db: Db, d: Delta, order: RowOrder, first: Scan)
    requires Tables(db) && ApplyDelta(db, d, order, first).Ok?
    ensures var r := ApplyDelta(db, d, order, first).value.1;
            |d.cis| == r.cisCreated + r.cisUpdated + r.cisUnchanged && |d.edges| == r.edgesWritten
  {
    hide Tables, OpenMap, Applied, Upserts, EdgeTarget, CloseEdges, CloseCis, KeysToRemove, Project, DiscoverCis, WriteEdges;
    var c, e := Stages(db, d, order, first);
    StrictTargets(db, d, order, c, e);
    AppliedCounts(db, d, order, c, e);
    CountStored(db, d.cis, d.source);
    CountWritten(c.db, c.idByKey, order, d.edges);
  }

  lemma AppliedCounts(db: Db, d: Delta, order: RowOrder, c: CiPhase, e: EdgePhase)
    requires Applied(db, d, order, c, e)
    ensures DiscoverCis(db, d.cis, d.source) == Ok(c) && WriteEdges(c.db, c.idByKey, order, d.edges) == Ok(e)
    ensures |c.stored| == c.created + c.updated + c.same && Tables(c.db)
    ensures forall k :: k in c.idByKey ==> c.idByKey[k] in CiView(c.db.cis)
  {
    hide Tables, CiView, EdgeView, OpenMap, OpenKeys, DiscoverCis, WriteEdges, WriteEdgesStrictly, Stable, Upserts, EdgeInv;
  }

  /** After a delta, an edge it names is open between its endpoints if they are open and it is not
      among the removed ones. */
  lemma UpsertedIsOpen(db: Db, d: Delta, order: RowOrder, first: Scan, de: DiscoveredEdge)
    requires Tables(db) && ApplyDelta(db, d, order, first).Ok? && de in d.edges
    ensures var after := ApplyDelta(db, d, order, first).value.0;
            de.from in OpenMap(after.cis) && de.to in OpenMap(after.cis) && (de.edgeKey != "" || d.removedEdges == []) ==>
              EdgeKey(de.etype, OpenMap(after.cis)[de.from].id, OpenMap(after.cis)[de.to].id, de.edgeKey) in OpenMap(after.edges)
  {
    hide Tables, OpenMap, OpenKeys, Applied, Conclude, Upserts, EdgeTarget, TargetsOf, CacheRight, Leaves, KeysToRemove, Agree;
    var c, e := Stages(db, d, order, first);
    AppliedDiscovers(db, d, order, c, e);
    UpsertsLeave(db, d, order, c, e);
    UpsertsExact(db, d, order, c, e);
    Concluded(db, d, order, first, c, e);
    RemovedAreOpen(c, e, d, order);
    NothingToRemove(c, e, d, order);
    var after := Conclude(c, e, d, order, first).0;
    if de.from in OpenMap(after.cis) && de.to in OpenMap(after.cis) {
      var k := EdgeKey(de.etype, OpenMap(after.cis)[de.from].id, OpenMap(after.cis)[de.to].id, de.edgeKey);
      assert OpenMap(e.db.edges).Keys == OpenKeys(e.db.edges);
      TargetMeans(c, e.db, d.cis, d.source, order, de, k);
      SameTargets(c.db, e.db, c.idByKey, order, de);
      InTargets(c.db, c.idByKey, order, d.edges, de, k);
    }
  }

  lemma NothingToRemove(c: CiPhase, e: EdgePhase, d: Delta, order: RowOrder)
    ensures d.removedEdges == [] ==> KeysToRemove(c, e, d, order) == {}
  {
    hide RefKey, CisRemoved;
  }

  /** The key is the one a removal names: always the one with the empty edge key. */
  ghost predicate Names(db: Db, cis: seq<DiscoveredCi>, source: string, order: RowOrder, ref: EdgeRef, k: EdgeKey) {
    && k.etype == ref.etype && k.edgeKey == ""
    && Means(db, cis, source, order, ref.from, k.fromId) && Means(db, cis, source, order, ref.to, k.toId)
  }

  /** The CIs of a reference are not removed by the same delta, or are open all the same. */
  ghost predicate Lasting(after: Db, d: Delta, ref: CiKey) { ref !in d.removedCis || ref in OpenMap(after.cis) }

  lemma RemovalMeans(db: Db, d: Delta, order: RowOrder, first: Scan, c: CiPhase, e: EdgePhase, ref: EdgeRef, k: EdgeKey)
    requires Tables(db) && Applied(db, d, order, c, e)
    requires var after := Conclude(c, e, d, order, first).0;
             && Lasting(after, d, ref.from) && Lasting(after, d, ref.to)
             && (OneTypePerId(d.cis) || (ref.from in OpenMap(after.cis) && ref.to in OpenMap(after.cis)))
    ensures RefKey(CisRemoved(e, d), c.idByKey, order, ref) == Some(k)
            <==> Names(Conclude(c, e, d, order, first).0, d.cis, d.source, order, ref, k)
  {
    hide Tables, OpenMap, OpenKeys, Applied, CacheRight, Leaves, OneTypePerId, Means, ResolveRef, KeysToRemove, CloseCis, CloseEdges, Project, Agree;
    var mid, after := CisRemoved(e, d), Conclude(c, e, d, order, first).0;
    UpsertsLeave(db, d, order, c, e);
    UpsertsAgree(db, d, order, c, e);
    CloseCisEffect(e.db, Removed(d));
    SameEdges(e.db, Removed(d));
    EdgesOnly(mid, KeysToRemove(c, e, d, order));
    RemovedLeaves(c, e, d, mid);
    StillSeen(c, e, d, mid, ref.from);
    StillSeen(c, e, d, mid, ref.to);
    var f, t := ResolveRef(mid, c.idByKey, order, ref.from), ResolveRef(mid, c.idByKey, order, ref.to);
    RefMeans(c, mid, d.cis, d.source, order, ref.from, k.fromId);
    RefMeans(c, mid, d.cis, d.source, order, ref.to, k.toId);
    SameRef(mid, after, d.cis, d.source, order, ref.from, k.fromId);
    SameRef(mid, after, d.cis, d.source, order, ref.to, k.toId);
  }

  lemma SameRef(a: Db, b: Db, cis: seq<DiscoveredCi>, source: string, order: RowOrder, ref: CiKey, id: nat)
    requires a.cis == b.cis && a.sourceKeys == b.sourceKeys
    ensures Means(a, cis, source, order, ref, id) == Means(b, cis, source, order, ref, id)
  {
    hide OpenMap, OpenIds;
  }

  lemma RemovedLeaves(c: CiPhase, e: EdgePhase, d: Delta, mid: Db)
    requires Leaves(c, e.db) && Tables(mid) && mid.sourceKeys == e.db.sourceKeys && OpenMap(mid.cis) == OpenMap(e.db.cis) - Removed(d)
    ensures Leaves(c, mid)
  {
    hide Tables, OpenMap;
  }

  lemma StillSeen(c: CiPhase, e: EdgePhase, d: Delta, mid: Db, ref: CiKey)
    requires c.seen <= OpenKeys(e.db.cis) && OpenMap(mid.cis) == OpenMap(e.db.cis) - Removed(d)
    requires ref !in d.removedCis || ref in OpenMap(mid.cis)
    ensures ref in c.seen ==> ref in OpenMap(mid.cis)
  {
    assert OpenMap(e.db.cis).Keys == OpenKeys(e.db.cis);
    hide OpenMap, OpenKeys;
  }

  /** After a delta no edge it removes is open between the CIs it names, if those are open. */
  lemma RemovedIsClosed(db: Db, d: Delta, order: RowOrder, first: Scan, ref: EdgeRef)
    requires Tables(db) && ApplyDelta(db, d, order, first).Ok? && ref in d.removedEdges
    ensures var after := ApplyDelta(db, d, order, first).value.0;
            ref.from in OpenMap(after.cis) && ref.to in OpenMap(after.cis) ==>
              EdgeKey(ref.etype, OpenMap(after.cis)[ref.from].id, OpenMap(after.cis)[ref.to].id, "") !in OpenMap(after.edges)
  {
    hide Tables, OpenMap, Applied, Conclude, Upserts, RefKey, KeysToRemove, Agree, CisRemoved;
    var c, e := Stages(db, d, order, first);
    Concluded(db, d, order, first, c, e);
    var after := Conclude(c, e, d, order, first).0;
    if ref.from in OpenMap(after.cis) && ref.to in OpenMap(after.cis) {
      var k := EdgeKey(ref.etype, OpenMap(after.cis)[ref.from].id, OpenMap(after.cis)[ref.to].id, "");
      RemovalMeans(db, d, order, first, c, e, ref, k);
      IsRemoved(c, e, d, order, k);
    }
  }

  lemma IsRemoved(c: CiPhase, e: EdgePhase, d: Delta, order: RowOrder, k: EdgeKey)
    ensures k in KeysToRemove(c, e, d, order) <==>
              k in OpenMap(e.db.edges) && exists ref :: ref in d.removedEdges && RefKey(CisRemoved(e, d), c.idByKey, order, ref) == Some(k)
  {
    hide RefKey, OpenMap;
  }

  /** Exactly which edges are open after a delta whose removals name CIs it does not remove: those
      open after its upserts, but for the ones its removals name. */
  lemma OpenAfterDelta(db: Db, d: Delta, order: RowOrder, first: Scan, k: EdgeKey)
    requires Tables(db) && ApplyDelta(db, d, order, first).Ok? && OneTypePerId(d.cis)
    requires forall ref :: ref in d.removedEdges ==> ref.from !in d.removedCis && ref.to !in d.removedCis
    ensures Upserts(db, d, order).Ok?
    ensures var after := ApplyDelta(db, d, order, first).value.0;
            k in OpenMap(after.edges) <==>
              && k in OpenMap(Upserts(db, d, order).value.1.db.edges)
              && !exists ref :: ref in d.removedEdges && Names(after, d.cis, d.source, order, ref, k)
  {
    hide Tables, OpenMap, Applied, Conclude, Upserts, RefKey, KeysToRemove, Agree, CisRemoved, Names, OneTypePerId;
    var c, e := Stages(db, d, order, first);
    AppliedDiscovers(db, d, order, c, e);
    Concluded(db, d, order, first, c, e);
    var after := Conclude(c, e, d, order, first).0;
    forall ref | ref in d.removedEdges
      ensures RefKey(CisRemoved(e, d), c.idByKey, order, ref) == Some(k) <==> Names(after, d.cis, d.source, order, ref, k)
    {
      RemovalMeans(db, d, order, first, c, e, ref, k);
    }
    IsRemoved(c, e, d, order, k);
  }
}
