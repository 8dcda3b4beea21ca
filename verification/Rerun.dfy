/** Reconciling the same batch twice
    (services/reconciliation/src/infra_twin/reconciliation/reconcile.py). */
module Rerun {
  import opened Model
  import opened Observations
  import opened Versions
  import opened Store
  import opened Reconciling

  /* ---------------------------------------------------------------- the batches it holds for */

  /** One key means one content. */
  ghost predicate PlainCis(cis: seq<DiscoveredCi>) {
    forall d, e :: d in cis && e in cis && d.key == e.key ==> d.name == e.name && d.attributes == e.attributes
  }

  ghost predicate DistinctKeys(cis: seq<DiscoveredCi>) {
    forall i, j :: 0 <= i < j < |cis| ==> cis[i].key != cis[j].key
  }

  /** Declared edges, and one resolved edge means one provenance. */
  ghost predicate PlainEdges(db: Db, idByKey: map<CiKey, nat>, order: RowOrder, edges: seq<DiscoveredEdge>) {
    && (forall e :: e in edges ==> e.data.source == Declared)
    && (forall e, f :: e in edges && f in edges && SameTarget(db, idByKey, order, e, f) ==> e.data == f.data)
  }

  ghost predicate SameTarget(db: Db, idByKey: map<CiKey, nat>, order: RowOrder, e: DiscoveredEdge, f: DiscoveredEdge) {
    EdgeTarget(db, idByKey, order, e).Some? && EdgeTarget(db, idByKey, order, e) == EdgeTarget(db, idByKey, order, f)
  }

  /* ---------------------------------------------------------------- what a run over CIs records */

  /** The identities a run binds; the last row of a key wins. */
  function Bound(source: string, rows: seq<CiRow>): map<SourceKey, nat> {
    if rows == [] then map[]
    else Bound(source, rows[..|rows| - 1])[SourceKey(source, rows[|rows| - 1].key.externalId) := rows[|rows| - 1].id]
  }

  /** The aliases a run registers; the last event of an alias wins. */
  function Claims(source: string, cis: seq<DiscoveredCi>, rows: seq<CiRow>): map<string, Alias> {
    if cis == [] || rows == [] then map[]
    else
      var d, r := cis[|cis| - 1], rows[|rows| - 1];
      RegisterAliases(Claims(source, cis[..|cis| - 1], rows[..|rows| - 1]), d.aliasKeys, Alias(r.id, d.key.ctype, source))
  }

  ghost predicate Records(rows: map<CiKey, CiRow>, d: DiscoveredCi, r: CiRow) {
    d.key in rows && !CiChanged(rows[d.key], d.name, d.attributes)
    && r.id == rows[d.key].id && r.key == d.key && r.data.name == d.name
  }

  ghost predicate AllRecorded(rows: map<CiKey, CiRow>, cis: seq<DiscoveredCi>, stored: seq<CiRow>) {
    |stored| == |cis| && forall i :: 0 <= i < |cis| ==> Records(rows, cis[i], stored[i])
  }

  /** The run's cache of ids. */
  ghost predicate Cached(rows: map<CiKey, CiRow>, idByKey: map<CiKey, nat>, seen: set<CiKey>) {
    idByKey.Keys == seen && forall k :: k in seen ==> k in rows && idByKey[k] == rows[k].id
  }

  ghost predicate Recorded(start: Db, cis: seq<DiscoveredCi>, source: string, p: CiPhase) {
    && AllRecorded(OpenMap(p.db.cis), cis, p.stored)
    && Cached(OpenMap(p.db.cis), p.idByKey, p.seen) && p.seen == KeysIn(cis)
    && p.db.sourceKeys == start.sourceKeys + Bound(source, p.stored)
    && p.db.aliases == start.aliases + Claims(source, cis, p.stored)
  }

  ghost function KeysIn(cis: seq<DiscoveredCi>): set<CiKey> { set d | d in cis :: d.key }

  /** An event that does not merge is about the CI of its own key. */
  lemma OwnMatch(db: Db, d: DiscoveredCi, source: string)
    requires !IsMerge(db, d, source)
    ensures MatchCi(db, d, source) == Current(db.cis, d.key)
  {
    hide ResolveCanonical;
  }

  lemma {:induction false} RegisterPlus(m: map<string, Alias>, n: map<string, Alias>, keys: seq<string>, a: Alias)
    ensures RegisterAliases(m + n, keys, a) == m + RegisterAliases(n, keys, a)
    decreases |keys|
  {
    if keys != [] { RegisterPlus(m, n, keys[..|keys| - 1], a); }
  }

  lemma UpsertSettles(db: Db, key: CiKey, name: Option<string>, attributes: map<string, string>)
    requires UpsertCi(db, key, name, attributes).Ok?
    ensures !CiChanged(UpsertCi(db, key, name, attributes).value.1, name, attributes)
  {
  }

  /** One event that does not merge, in terms of its upsert. */
  lemma PlainStep(p: CiPhase, d: DiscoveredCi, source: string)
    requires !IsMerge(p.db, d, source) && DiscoverCi(p, d, source).Ok?
    ensures UpsertCi(p.db, d.key, d.name, d.attributes).Ok?
    ensures var (db, r) := UpsertCi(p.db, d.key, d.name, d.attributes).value;
            var q := DiscoverCi(p, d, source).value;
            && q.db == db.(sourceKeys := db.sourceKeys[SourceKey(source, d.key.externalId) := r.id],
                           aliases := RegisterAliases(db.aliases, d.aliasKeys, Alias(r.id, d.key.ctype, source)))
            && q.idByKey == p.idByKey[d.key := r.id] && q.seen == p.seen + {d.key} && q.stored == p.stored + [r]
  {
    hide UpsertCi, CiChanged, RegisterAliases;
    OwnMatch(p.db, d, source);
    hide MatchCi, IsMerge;
    if UpsertCi(p.db, d.key, d.name, d.attributes).Ok? {
      var db := UpsertCi(p.db, d.key, d.name, d.attributes).value.0;
      assert db.merges + [] == db.merges;
    }
  }

  lemma ClaimsAppend(source: string, cis: seq<DiscoveredCi>, d: DiscoveredCi, rows: seq<CiRow>, r: CiRow)
    requires |cis| == |rows|
    ensures Claims(source, cis + [d], rows + [r])
         == RegisterAliases(Claims(source, cis, rows), d.aliasKeys, Alias(r.id, d.key.ctype, source))
  {
    assert (rows + [r])[..|rows + [r]| - 1] == rows && (cis + [d])[..|cis + [d]| - 1] == cis;
  }

  /** Merges are only ever appended, one for each event that merges. */
  lemma MergesStep(p: CiPhase, d: DiscoveredCi, source: string)
    requires DiscoverCi(p, d, source).Ok?
    ensures var q := DiscoverCi(p, d, source).value;
            && p.db.merges <= q.db.merges
            && |q.db.merges| == |p.db.merges| + (if IsMerge(p.db, d, source) then 1 else 0)
  {
    hide MatchCi, IsMerge, RegisterAliases, CiChanged, Touch, Supersede, Insert;
  }

  lemma {:induction false} MergesGrow(db: Db, cis: seq<DiscoveredCi>, source: string)
    requires DiscoverCis(db, cis, source).Ok?
    ensures db.merges <= DiscoverCis(db, cis, source).value.db.merges
    decreases |cis|
  {
    hide DiscoverCi;
    if cis != [] {
      MergesGrow(db, cis[..|cis| - 1], source);
      MergesStep(DiscoverCis(db, cis[..|cis| - 1], source).value, cis[|cis| - 1], source);
    }
  }

  lemma BoundAppend(source: string, rows: seq<CiRow>, r: CiRow)
    ensures Bound(source, rows + [r]) == Bound(source, rows)[SourceKey(source, r.key.externalId) := r.id]
  {
    assert (rows + [r])[..|rows + [r]| - 1] == rows;
  }

  lemma RecordStep(start: Db, cis: seq<DiscoveredCi>, source: string, p: CiPhase, d: DiscoveredCi)
    requires Tables(p.db) && PlainCis(cis + [d]) && Recorded(start, cis, source, p) && DiscoverCi(p, d, source).Ok?
    requires !IsMerge(p.db, d, source)
    ensures Recorded(start, cis + [d], source, DiscoverCi(p, d, source).value)
  {
    hide Tables, OpenMap, UpsertCi, CiChanged, CiView, Stable, DiscoverCi, AllRecorded, Cached, Bound, Claims, RegisterAliases, KeysIn, IsMerge, PlainCis;
    PlainStep(p, d, source);
    UpsertCiEffect(p.db, d.key, d.name, d.attributes);
    UpsertSettles(p.db, d.key, d.name, d.attributes);
    var (db, r) := UpsertCi(p.db, d.key, d.name, d.attributes).value;
    RecordRows(cis, d, OpenMap(p.db.cis), p.stored, r);
    CacheStep(OpenMap(p.db.cis), p.idByKey, p.seen, r);
    KeysAppend(cis, d);
    assert |p.stored| == |cis| by { StoredCount(OpenMap(p.db.cis), cis, p.stored); }
    RecordBindings(start, cis, source, p, d, db, r);
  }

  lemma StoredCount(rows: map<CiKey, CiRow>, cis: seq<DiscoveredCi>, stored: seq<CiRow>)
    requires AllRecorded(rows, cis, stored)
    ensures |stored| == |cis|
  {
  }

  lemma RecordBindings(start: Db, cis: seq<DiscoveredCi>, source: string, p: CiPhase, d: DiscoveredCi, db: Db, r: CiRow)
    requires |p.stored| == |cis| && r.key == d.key && db.sourceKeys == p.db.sourceKeys && db.aliases == p.db.aliases
    requires p.db.sourceKeys == start.sourceKeys + Bound(source, p.stored)
    requires p.db.aliases == start.aliases + Claims(source, cis, p.stored)
    ensures db.sourceKeys[SourceKey(source, d.key.externalId) := r.id] == start.sourceKeys + Bound(source, p.stored + [r])
    ensures RegisterAliases(db.aliases, d.aliasKeys, Alias(r.id, d.key.ctype, source))
         == start.aliases + Claims(source, cis + [d], p.stored + [r])
  {
    BoundAppend(source, p.stored, r);
    ClaimsAppend(source, cis, d, p.stored, r);
    RegisterPlus(start.aliases, Claims(source, cis, p.stored), d.aliasKeys, Alias(r.id, d.key.ctype, source));
    hide Bound, Claims, RegisterAliases;
  }

  lemma CacheStep(rows: map<CiKey, CiRow>, idByKey: map<CiKey, nat>, seen: set<CiKey>, r: CiRow)
    requires Cached(rows, idByKey, seen) && (r.key in rows ==> r.id == rows[r.key].id)
    ensures Cached(rows[r.key := r], idByKey[r.key := r.id], seen + {r.key})
  {
  }

  lemma KeysAppend(cis: seq<DiscoveredCi>, d: DiscoveredCi)
    ensures KeysIn(cis + [d]) == KeysIn(cis) + {d.key}
  {
    assert forall x :: x in cis + [d] <==> x in cis || x == d;
  }

  lemma RecordRows(cis: seq<DiscoveredCi>, d: DiscoveredCi, rows: map<CiKey, CiRow>, stored: seq<CiRow>, r: CiRow)
    requires PlainCis(cis + [d]) && AllRecorded(rows, cis, stored) && r.key == d.key && r.data.name == d.name
    requires !CiChanged(r, d.name, d.attributes) && (d.key in rows ==> r.id == rows[d.key].id)
    ensures AllRecorded(rows[d.key := r], cis + [d], stored + [r])
  {
    hide CiChanged;
    assert d in cis + [d];
    forall i | 0 <= i < |cis| ensures Records(rows[d.key := r], cis[i], stored[i]) {
      assert Records(rows, cis[i], stored[i]) && cis[i] in cis + [d];
    }
  }

  lemma {:induction false} RecordAll(db: Db, cis: seq<DiscoveredCi>, source: string)
    requires Tables(db) && PlainCis(cis) && DiscoverCis(db, cis, source).Ok?
    requires DiscoverCis(db, cis, source).value.db.merges == db.merges
    ensures Recorded(db, cis, source, DiscoverCis(db, cis, source).value)
    decreases |cis|
  {
    hide Tables, CiInv, DiscoverCi, Recorded, PlainCis, IsMerge;
    if cis == [] {
      NothingRecorded(db, source);
    } else {
      var init, d := cis[..|cis| - 1], cis[|cis| - 1];
      assert cis == init + [d];
      PlainPrefix(init, d);
      var p := DiscoverCis(db, init, source).value;
      MergesGrow(db, init, source);
      MergesStep(p, d, source);
      RecordAll(db, init, source);
      DiscoverAll(db, init, source);
      InvTables(db, p);
      RecordStep(db, init, source, p, d);
    }
  }

  lemma NothingRecorded(db: Db, source: string)
    ensures Recorded(db, [], source, CiPhase(db, map[], {}, [], 0, 0, 0))
  {
    assert db.sourceKeys + map[] == db.sourceKeys && db.aliases + map[] == db.aliases;
  }

  lemma PlainPrefix(init: seq<DiscoveredCi>, d: DiscoveredCi)
    requires PlainCis(init + [d])
    ensures PlainCis(init)
  {
    assert forall x :: x in init ==> x in init + [d];
  }

  lemma InvTables(start: Db, p: CiPhase)
    requires CiInv(start, p)
    ensures Tables(p.db)
  {
    hide Tables;
  }

  /* ---------------------------------------------------------------- a run with nothing new */

  /** Every row but for when it was last seen. */
  ghost function Content(rows: Rows<CiKey, CiData>): Rows<CiKey, CiData> { set r | r in rows :: r.(lastSeen := 0) }

  lemma TouchContent(rows: Rows<CiKey, CiData>, r: CiRow, now: int)
    requires r in rows
    ensures Content(Touch(rows, r, now)) == Content(rows)
  {
    var after, c := Touch(rows, r, now), r.(lastSeen := now);
    forall x | x in Content(rows) ensures x in Content(after) {
      var s :| s in rows && s.(lastSeen := 0) == x;
      assert (if s == r then c else s) in after;
    }
  }

  /** The database already says what each event says. */
  ghost predicate Settled(rows: map<CiKey, CiRow>, cis: seq<DiscoveredCi>) {
    forall d :: d in cis ==> d.key in rows && !CiChanged(rows[d.key], d.name, d.attributes)
  }

  ghost predicate SameData(before: map<CiKey, CiRow>, after: map<CiKey, CiRow>) {
    after.Keys == before.Keys && forall k :: k in before ==> after[k].data == before[k].data
  }

  ghost predicate Idle(start: Db, p: CiPhase, n: nat) {
    && Tables(p.db) && p.db == start.(cis := p.db.cis, sourceKeys := p.db.sourceKeys, aliases := p.db.aliases)
    && Content(p.db.cis) == Content(start.cis) && p.created == 0 && p.updated == 0 && p.same == n
    && SameData(OpenMap(start.cis), OpenMap(p.db.cis))
  }

  lemma TouchOnly(db: Db, d: DiscoveredCi)
    requires Tables(db) && d.key in OpenMap(db.cis) && !CiChanged(OpenMap(db.cis)[d.key], d.name, d.attributes)
    ensures UpsertCi(db, d.key, d.name, d.attributes).Ok?
    ensures var (after, r) := UpsertCi(db, d.key, d.name, d.attributes).value;
            var c := OpenMap(db.cis)[d.key];
            && Current(db.cis, d.key) == Some(c)
            && after == db.(cis := after.cis) && Content(after.cis) == Content(db.cis)
            && r.validFrom == c.validFrom && r.data == c.data
            && OpenMap(after.cis) == OpenMap(db.cis)[d.key := r]
            && Tables(after)
  {
    OpenMapRow(db.cis, d.key);
    var c := OpenMap(db.cis)[d.key];
    UpsertCiEffect(db, d.key, d.name, d.attributes);
    TouchContent(db.cis, c, db.now);
    hide Tables, OpenMap, CiView, Stable, CiChanged, Content;
  }

  lemma IdleStep(start: Db, p: CiPhase, d: DiscoveredCi, source: string, n: nat)
    requires Idle(start, p, n) && d.key in OpenMap(start.cis)
    requires !CiChanged(OpenMap(start.cis)[d.key], d.name, d.attributes)
    ensures DiscoverCi(p, d, source).Ok? && Idle(start, DiscoverCi(p, d, source).value, n + 1)
  {
    hide Tables, OpenMap, CiChanged, Content, UpsertCi, SameData, CiView, Stable, DiscoverCi;
    StillUnchanged(OpenMap(start.cis), OpenMap(p.db.cis), d);
    TouchOnly(p.db, d);
    var (db, r) := UpsertCi(p.db, d.key, d.name, d.attributes).value;
    var c := OpenMap(p.db.cis)[d.key];
    IdleEvent(p, d, source, c);
    StillSame(OpenMap(start.cis), OpenMap(p.db.cis), d.key, r);
    BindTables(db, source, d, r.id, DiscoverCi(p, d, source).value.db);
  }

  lemma StillUnchanged(before: map<CiKey, CiRow>, after: map<CiKey, CiRow>, d: DiscoveredCi)
    requires SameData(before, after) && d.key in before && !CiChanged(before[d.key], d.name, d.attributes)
    ensures d.key in after && !CiChanged(after[d.key], d.name, d.attributes)
  {
  }

  lemma IdleEvent(p: CiPhase, d: DiscoveredCi, source: string, c: CiRow)
    requires Current(p.db.cis, d.key) == Some(c)
    requires UpsertCi(p.db, d.key, d.name, d.attributes).Ok?
    requires UpsertCi(p.db, d.key, d.name, d.attributes).value.1.validFrom == c.validFrom
    requires var db := UpsertCi(p.db, d.key, d.name, d.attributes).value.0; db == p.db.(cis := db.cis)
    ensures DiscoverCi(p, d, source).Ok?
    ensures var q := DiscoverCi(p, d, source).value;
            var db := UpsertCi(p.db, d.key, d.name, d.attributes).value.0;
            && q.db == db.(sourceKeys := q.db.sourceKeys, aliases := q.db.aliases)
            && q.created == p.created && q.updated == p.updated && q.same == p.same + 1
  {
    hide UpsertCi, RegisterAliases;
    OwnMatch(p.db, d, source);
    hide MatchCi, IsMerge;
    assert p.db.merges + [] == p.db.merges;
  }

  lemma StillSame(before: map<CiKey, CiRow>, mid: map<CiKey, CiRow>, k: CiKey, r: CiRow)
    requires SameData(before, mid) && k in mid && r.data == mid[k].data
    ensures SameData(before, mid[k := r])
  {
  }

  lemma {:induction false} IdleAll(db: Db, cis: seq<DiscoveredCi>, source: string)
    requires Tables(db) && Settled(OpenMap(db.cis), cis)
    ensures DiscoverCis(db, cis, source).Ok? && Idle(db, DiscoverCis(db, cis, source).value, |cis|)
    decreases |cis|
  {
    hide Tables, OpenMap, DiscoverCi, Idle, CiChanged;
    if cis == [] {
      IdleStart(db);
    } else {
      var init, d := cis[..|cis| - 1], cis[|cis| - 1];
      assert forall x :: x in init ==> x in cis;
      IdleAll(db, init, source);
      assert d in cis;
      IdleStep(db, DiscoverCis(db, init, source).value, d, source, |init|);
    }
  }

  lemma IdleStart(db: Db)
    requires Tables(db)
    ensures Idle(db, CiPhase(db, map[], {}, [], 0, 0, 0), 0)
  {
  }

  /* ---------------------------------------------------------------- edges */

  ghost predicate EdgeRecorded(rows: map<EdgeKey, EdgeRow>, target: Option<EdgeKey>, e: DiscoveredEdge) {
    target.Some? ==> target.value in rows && e.data.evidence != [] && SameDeclared(rows[target.value].data, e.data)
  }

  ghost predicate EdgesRecorded(rows: map<EdgeKey, EdgeRow>, db: Db, idByKey: map<CiKey, nat>, order: RowOrder,
                                edges: seq<DiscoveredEdge>)
  {
    forall e :: e in edges ==> EdgeRecorded(rows, EdgeTarget(db, idByKey, order, e), e)
  }

  lemma PlainEdgePrefix(db: Db, idByKey: map<CiKey, nat>, order: RowOrder, init: seq<DiscoveredEdge>, e: DiscoveredEdge)
    requires PlainEdges(db, idByKey, order, init + [e])
    ensures PlainEdges(db, idByKey, order, init) && e.data.source == Declared
  {
    hide SameTarget;
    assert forall x :: x in init ==> x in init + [e];
    assert e in init + [e];
  }

  /** Adding one edge keeps the ones before it recorded, and records it. */
  lemma RecordEdge(db: Db, idByKey: map<CiKey, nat>, order: RowOrder, init: seq<DiscoveredEdge>, e: DiscoveredEdge,
                   rows: map<EdgeKey, EdgeRow>, r: EdgeRow)
    requires PlainEdges(db, idByKey, order, init + [e]) && EdgesRecorded(rows, db, idByKey, order, init)
    requires EdgeTarget(db, idByKey, order, e) == Some(r.key) && SameDeclared(r.data, e.data) && e.data.evidence != []
    ensures EdgesRecorded(rows[r.key := r], db, idByKey, order, init + [e])
  {
    hide EdgeTarget, SameDeclared;
    assert e in init + [e];
    forall x | x in init + [e] ensures EdgeRecorded(rows[r.key := r], EdgeTarget(db, idByKey, order, x), x) {
      if x in init {
        assert EdgeRecorded(rows, EdgeTarget(db, idByKey, order, x), x);
        if EdgeTarget(db, idByKey, order, x) == Some(r.key) { assert SameTarget(db, idByKey, order, x, e); }
      }
    }
  }

  lemma SkipEdge(db: Db, idByKey: map<CiKey, nat>, order: RowOrder, init: seq<DiscoveredEdge>, e: DiscoveredEdge,
                 rows: map<EdgeKey, EdgeRow>)
    requires EdgesRecorded(rows, db, idByKey, order, init) && EdgeTarget(db, idByKey, order, e).None?
    ensures EdgesRecorded(rows, db, idByKey, order, init + [e])
  {
    hide EdgeTarget, SameDeclared;
    assert forall x :: x in init + [e] <==> x in init || x == e;
  }

  lemma UpsertNeedsEvidence(db: Db, key: EdgeKey, data: EdgeData)
    requires UpsertEdge(db, key, data).Ok?
    ensures data.evidence != []
  {
  }

  lemma RecordEdgeStep(db: Db, p: EdgePhase, idByKey: map<CiKey, nat>, order: RowOrder, init: seq<DiscoveredEdge>, e: DiscoveredEdge)
    requires Tables(db) && (forall k :: k in idByKey ==> idByKey[k] in CiView(db.cis))
    requires EdgeInv(db, p) && PlainEdges(db, idByKey, order, init + [e])
    requires EdgesRecorded(OpenMap(p.db.edges), db, idByKey, order, init) && WriteEdge(p, idByKey, order, e).Ok?
    ensures EdgesRecorded(OpenMap(WriteEdge(p, idByKey, order, e).value.db.edges), db, idByKey, order, init + [e])
  {
    hide Tables, CiView, EdgeView, Stable, UpsertEdge, OpenMap, Shown, EdgeTarget, PlainEdges, EdgesRecorded, SameDeclared;
    SameTargets(db, p.db, idByKey, order, e);
    if EdgeTarget(db, idByKey, order, e).None? {
      SkipEdge(db, idByKey, order, init, e, OpenMap(p.db.edges));
    } else {
      var key := EdgeTarget(db, idByKey, order, e).value;
      PlainEdgePrefix(db, idByKey, order, init, e);
      TargetOpen(db, idByKey, order, e);
      UpsertEdgeEffect(p.db, key, e.data);
      UpsertNeedsEvidence(p.db, key, e.data);
      RecordEdge(db, idByKey, order, init, e, OpenMap(p.db.edges), UpsertEdge(p.db, key, e.data).value.1);
    }
  }

  lemma {:induction false} RecordEdges(db: Db, idByKey: map<CiKey, nat>, order: RowOrder, edges: seq<DiscoveredEdge>)
    requires Tables(db) && (forall k :: k in idByKey ==> idByKey[k] in CiView(db.cis))
    requires PlainEdges(db, idByKey, order, edges) && WriteEdges(db, idByKey, order, edges).Ok?
    ensures EdgesRecorded(OpenMap(WriteEdges(db, idByKey, order, edges).value.db.edges), db, idByKey, order, edges)
    decreases |edges|
  {
    hide Tables, CiView, WriteEdge, EdgeInv, OpenMap, PlainEdges, EdgeTarget, EdgeRecorded;
    if edges != [] {
      var init, e := edges[..|edges| - 1], edges[|edges| - 1];
      assert edges == init + [e];
      PlainEdgePrefix(db, idByKey, order, init, e);
      RecordEdges(db, idByKey, order, init);
      WriteAll(db, idByKey, order, init);
      hide EdgesRecorded;
      RecordEdgeStep(db, WriteEdges(db, idByKey, order, init).value, idByKey, order, init, e);
    }
  }

  /** How many of the edges have both endpoints. */
  ghost function Resolved(db: Db, idByKey: map<CiKey, nat>, order: RowOrder, edges: seq<DiscoveredEdge>): nat {
    if edges == [] then 0
    else Resolved(db, idByKey, order, edges[..|edges| - 1])
         + (if EdgeTarget(db, idByKey, order, edges[|edges| - 1]).Some? then 1 else 0)
  }

  lemma {:induction false} CountWritten(db: Db, idByKey: map<CiKey, nat>, order: RowOrder, edges: seq<DiscoveredEdge>)
    requires Tables(db) && (forall k :: k in idByKey ==> idByKey[k] in CiView(db.cis))
    requires WriteEdges(db, idByKey, order, edges).Ok?
    ensures |WriteEdges(db, idByKey, order, edges).value.stored| == Resolved(db, idByKey, order, edges)
    decreases |edges|
  {
    hide Tables, CiView, EdgeView, EdgeTarget, UpsertEdge, Shown, Stable;
    if edges != [] {
      var init, e := edges[..|edges| - 1], edges[|edges| - 1];
      CountWritten(db, idByKey, order, init);
      WriteAll(db, idByKey, order, init);
      SameTargets(db, WriteEdges(db, idByKey, order, init).value.db, idByKey, order, e);
    }
  }

  ghost predicate FromTable(rows: map<EdgeKey, EdgeRow>, stored: seq<EdgeRow>) {
    forall r :: r in stored ==> r.key in rows && rows[r.key] == r
  }

  /** When every edge is already recorded nothing is written. */
  lemma {:induction false} IdleEdges(db: Db, idByKey: map<CiKey, nat>, order: RowOrder, edges: seq<DiscoveredEdge>)
    requires EdgesRecorded(OpenMap(db.edges), db, idByKey, order, edges)
    requires forall e :: e in edges ==> e.data.source == Declared
    ensures WriteEdges(db, idByKey, order, edges).Ok?
    ensures var p := WriteEdges(db, idByKey, order, edges).value; p.db == db && FromTable(OpenMap(db.edges), p.stored)
    decreases |edges|
  {
    hide OpenMap, EdgeTarget, UpsertEdge;
    if edges != [] {
      var init, e := edges[..|edges| - 1], edges[|edges| - 1];
      assert forall x :: x in init ==> x in edges;
      IdleEdges(db, idByKey, order, init);
      assert e in edges && EdgeRecorded(OpenMap(db.edges), EdgeTarget(db, idByKey, order, e), e);
      if EdgeTarget(db, idByKey, order, e).Some? { IdleEdge(db, EdgeTarget(db, idByKey, order, e).value, e.data); }
    }
  }

  lemma IdleEdge(db: Db, key: EdgeKey, data: EdgeData)
    requires key in OpenMap(db.edges) && data.evidence != [] && data.source == Declared
    requires SameDeclared(OpenMap(db.edges)[key].data, data)
    ensures UpsertEdge(db, key, data) == Ok((db, OpenMap(db.edges)[key])) && OpenMap(db.edges)[key].key == key
  {
  }

  /* ---------------------------------------------------------------- the graph */

  /** The vertex already shows the row. */
  predicate Shows(g: Graph, r: CiRow) {
    r.id in g.vertices && g.vertices[r.id].ctype == r.key.ctype && g.vertices[r.id].externalId == r.key.externalId
    && (r.data.name.Some? && r.data.name.value != "" ==> g.vertices[r.id].name == r.data.name)
  }

  ghost predicate Uniform(rows: seq<CiRow>) {
    forall r, s :: r in rows && s in rows && r.id == s.id ==> r.key == s.key && r.data.name == s.data.name
  }

  lemma {:induction false} ProjectedShow(g: Graph, rows: seq<CiRow>)
    requires Uniform(rows)
    ensures forall r :: r in rows ==> Shows(ProjectCis(g, rows), r)
    decreases |rows|
  {
    if rows != [] {
      var init, last := rows[..|rows| - 1], rows[|rows| - 1];
      assert rows == init + [last];
      ProjectedShow(g, init);
    }
  }

  lemma {:induction false} NothingToShow(g: Graph, rows: seq<CiRow>)
    requires forall r :: r in rows ==> Shows(g, r)
    ensures ProjectCis(g, rows) == g
    decreases |rows|
  {
    if rows != [] {
      var r := rows[|rows| - 1];
      assert r in rows;
      NothingToShow(g, rows[..|rows| - 1]);
      assert g.vertices[r.id := g.vertices[r.id]] == g.vertices;
    }
  }

  ghost predicate Drawn(g: Graph, r: EdgeRow) {
    r.key.fromId in g.vertices && r.key.toId in g.vertices ==> r.key in g.edges && g.edges[r.key] == Store.Seen(r)
  }

  lemma {:induction false} NothingToDraw(g: Graph, rows: seq<EdgeRow>)
    requires forall r :: r in rows ==> Drawn(g, r)
    ensures ProjectEdges(g, rows) == g
    decreases |rows|
  {
    if rows != [] {
      var r := rows[|rows| - 1];
      assert r in rows && Drawn(g, r);
      NothingToDraw(g, rows[..|rows| - 1]);
      if r.key in g.edges { assert g.edges[r.key := g.edges[r.key]] == g.edges; }
    }
  }

  lemma AgreementDraws(db: Db, rows: seq<EdgeRow>)
    requires Agree(db) && FromTable(OpenMap(db.edges), rows)
    ensures forall r :: r in rows ==> Drawn(db.graph, r)
  {
    hide CiView, OpenMap;
    assert db.graph.vertices.Keys == VertexView(db.graph).Keys;
  }

  /** Projecting what the graph already shows, and removing nothing, leaves it as it is. */
  lemma IdleProjection(g: Graph, cis: seq<CiRow>, edges: seq<EdgeRow>)
    requires (forall r :: r in cis ==> Shows(g, r)) && (forall r :: r in edges ==> Drawn(g, r))
    ensures Project(g, cis, edges, {}, {}) == g
  {
    NothingToShow(g, cis);
    NothingToDraw(g, edges);
    hide ProjectCis, ProjectEdges, Shows, Drawn;
    assert g.edges - {} == g.edges && g.vertices - {} == g.vertices;
  }

  /** After a projection the rows that stay show. */
  lemma StillShows(g: Graph, cis: seq<CiRow>, edges: seq<EdgeRow>, closedEdges: set<EdgeKey>, closedCis: set<nat>, r: CiRow)
    requires Uniform(cis) && r in cis && r.id !in closedCis
    ensures Shows(Project(g, cis, edges, closedEdges, closedCis), r)
  {
    ProjectedShow(g, cis);
    ProjectEdgesView(ProjectCis(g, cis), edges);
    hide ProjectCis, ProjectEdges;
  }

  /* ---------------------------------------------------------------- the second run */

  ghost predicate Once(db: Db, b: Batch, order: RowOrder, c: CiPhase, e: EdgePhase) {
    && Tables(db) && Agree(db) && Ran(db, b, order, c, e) && PlainCis(b.cis) && c.db.merges == db.merges
    && PlainEdges(CloseCis(c.db, CisToClose(c, b)), c.idByKey, order, b.edges)
  }

  /** What the first run leaves behind. */
  ghost predicate Left(db: Db, b: Batch, order: RowOrder, c: CiPhase, e: EdgePhase, after: Db) {
    && Tables(after) && Agree(after)
    && OpenMap(after.cis) == OpenMap(c.db.cis) - CisToClose(c, b)
    && OpenMap(after.edges) == OpenMap(e.db.edges) - EdgesToClose(e, b)
    && after.sourceKeys == c.db.sourceKeys && after.aliases == c.db.aliases
    && Recorded(db, b.cis, b.source, c)
    && EdgesRecorded(OpenMap(e.db.edges), after, c.idByKey, order, b.edges)
    && e.seen == TargetsOf(after, c.idByKey, order, b.edges)
    && |e.stored| == Resolved(after, c.idByKey, order, b.edges)
  }

  lemma LeftBehind(db: Db, b: Batch, order: RowOrder, c: CiPhase, e: EdgePhase)
    requires Once(db, b, order, c, e)
    ensures Left(db, b, order, c, e, Finish(c, e, b).0)
  {
    hide Tables, Agree, CiView, EdgeView, OpenMap, Recorded, EdgesRecorded, PlainCis, PlainEdges, TargetsOf, Resolved,
         CisToClose, EdgesToClose, DiscoverCis, WriteEdges, Stable, EdgeInv, CiInv, Project, CloseCis, CloseEdges;
    var closed, after := CloseCis(c.db, CisToClose(c, b)), Finish(c, e, b).0;
    KeepsAgreement(db, b, order, c, e);
    RecordAll(db, b.cis, b.source);
    TargetsSeen(db, b, order, c, e);
    ClosedReady(db, b, order, c, e);
    RecordEdges(closed, c.idByKey, order, b.edges);
    CountWritten(closed, c.idByKey, order, b.edges);
    EdgesLeaveCis(closed, e);
    SameEdges(c.db, CisToClose(c, b));
    EdgeTables(closed, e);
    CloseEdgesEffect(e.db, EdgesToClose(e, b));
    SealedRows(c, e, b);
    hide Ran, Finish;
    CloseAgain(closed, after, c.idByKey, order);
    TargetsCarryOver(closed, after, OpenMap(e.db.edges), c.idByKey, order, b.edges);
  }

  lemma CloseAgain(a: Db, b: Db, idByKey: map<CiKey, nat>, order: RowOrder)
    requires a.cis == b.cis && a.sourceKeys == b.sourceKeys
    ensures SameResolution(a, b, idByKey, order)
  {
    hide EdgeTarget;
    forall e ensures EdgeTarget(a, idByKey, order, e) == EdgeTarget(b, idByKey, order, e) { SameTargets(a, b, idByKey, order, e); }
  }

  lemma SealedRows(c: CiPhase, e: EdgePhase, b: Batch)
    ensures var after := Finish(c, e, b).0;
            && after.cis == e.db.cis && after.sourceKeys == e.db.sourceKeys && after.aliases == e.db.aliases && after.merges == e.db.merges
            && after.edges == CloseEdges(e.db, EdgesToClose(e, b)).edges
  {
    hide Project, CloseMany;
  }

  lemma ClosedReady(db: Db, b: Batch, order: RowOrder, c: CiPhase, e: EdgePhase)
    requires Tables(db) && Ran(db, b, order, c, e)
    ensures var closed := CloseCis(c.db, CisToClose(c, b));
            Tables(closed) && forall k :: k in c.idByKey ==> c.idByKey[k] in CiView(closed.cis)
  {
    hide CiView, EdgeView, OpenMap, DiscoverCis, WriteEdges, Tables, EdgeInv, CloseCis;
    CloseCisEffect(c.db, CisToClose(c, b));
    CacheSurvives(c, CisToClose(c, b));
  }

  /** Two states resolve every reference alike. */
  ghost predicate SameResolution(a: Db, b: Db, idByKey: map<CiKey, nat>, order: RowOrder) {
    forall e :: EdgeTarget(a, idByKey, order, e) == EdgeTarget(b, idByKey, order, e)
  }

  lemma TargetsCarryOver(a: Db, b: Db, rows: map<EdgeKey, EdgeRow>, idByKey: map<CiKey, nat>, order: RowOrder, edges: seq<DiscoveredEdge>)
    requires SameResolution(a, b, idByKey, order)
    ensures EdgesRecorded(rows, a, idByKey, order, edges) ==> EdgesRecorded(rows, b, idByKey, order, edges)
    ensures TargetsOf(a, idByKey, order, edges) == TargetsOf(b, idByKey, order, edges)
    ensures Resolved(a, idByKey, order, edges) == Resolved(b, idByKey, order, edges)
  {
    hide EdgeTarget, EdgeRecorded;
    SameResolved(a, b, idByKey, order, edges);
  }

  lemma {:induction false} SameResolved(a: Db, b: Db, idByKey: map<CiKey, nat>, order: RowOrder, edges: seq<DiscoveredEdge>)
    requires SameResolution(a, b, idByKey, order)
    ensures Resolved(a, idByKey, order, edges) == Resolved(b, idByKey, order, edges)
    decreases |edges|
  {
    hide EdgeTarget;
    if edges != [] { SameResolved(a, b, idByKey, order, edges[..|edges| - 1]); }
  }

  lemma OpenIdsFromMap(rows: Rows<CiKey, CiData>, now: int)
    requires Coherent(rows, now)
    ensures OpenIds(rows) == set k | k in OpenMap(rows) :: OpenMap(rows)[k].id
  {
    forall r | r in rows && r.Open() ensures r.key in OpenMap(rows) && OpenMap(rows)[r.key].id == r.id { OpenRow(rows, now, r); }
    forall k | k in OpenMap(rows) ensures OpenMap(rows)[k].id in OpenIds(rows) { OpenMapRow(rows, k); }
  }

  /** Resolution depends on which keys are open under which ids, and on the source keys. */
  lemma ResolutionCarriesOver(a: Db, b: Db, idByKey: map<CiKey, nat>, order: RowOrder)
    requires Coherent(a.cis, a.now) && Coherent(b.cis, b.now) && a.sourceKeys == b.sourceKeys
    requires OpenMap(a.cis).Keys == OpenMap(b.cis).Keys && IdsPersist(a.cis, b.cis)
    ensures SameResolution(a, b, idByKey, order)
  {
    OpenIdsFromMap(a.cis, a.now);
    OpenIdsFromMap(b.cis, b.now);
    hide Coherent;
    assert OpenIds(a.cis) == OpenIds(b.cis);
    forall ref ensures ResolveRef(a, idByKey, order, ref) == ResolveRef(b, idByKey, order, ref) {
      hide OpenIds;
      ResolvedByMap(a, idByKey, order, ref);
      ResolvedByMap(b, idByKey, order, ref);
    }
    hide ResolveRef, OpenMap, OpenIds;
  }

  lemma ResolvedByMap(db: Db, idByKey: map<CiKey, nat>, order: RowOrder, ref: CiKey)
    ensures ResolveRef(db, idByKey, order, ref) ==
      if ref in idByKey then Some(idByKey[ref])
      else if ref in OpenMap(db.cis) then Some(OpenMap(db.cis)[ref].id)
      else
        var k := SourceKey(order(ref.externalId), ref.externalId);
        if k in db.sourceKeys && db.sourceKeys[k] in OpenIds(db.cis) then Some(db.sourceKeys[k]) else None
  {
  }

  lemma StillSettled(db: Db, b: Batch, order: RowOrder, c: CiPhase, e: EdgePhase, after: Db)
    requires Left(db, b, order, c, e, after) && PlainCis(b.cis)
    ensures Settled(OpenMap(after.cis), b.cis)
  {
    hide Tables, Agree, OpenMap, CiChanged, EdgesRecorded, TargetsOf, Resolved, Bound, OwnedBy;
    forall d | d in b.cis ensures d.key in OpenMap(after.cis) && !CiChanged(OpenMap(after.cis)[d.key], d.name, d.attributes) {
      var i :| 0 <= i < |b.cis| && b.cis[i] == d;
      assert Records(OpenMap(c.db.cis), b.cis[i], c.stored[i]);
      assert d.key in c.seen;
    }
  }

  /** The CI phase of the second run. */
  ghost predicate Second(later: Db, b: Batch, c2: CiPhase) {
    && DiscoverCis(later, b.cis, b.source) == Ok(c2)
    && Idle(later, c2, |b.cis|) && Recorded(later, b.cis, b.source, c2) && CiInv(later, c2)
  }

  lemma SecondRuns(later: Db, b: Batch) returns (c2: CiPhase)
    requires Tables(later) && Settled(OpenMap(later.cis), b.cis) && PlainCis(b.cis)
    ensures Second(later, b, c2)
  {
    hide Tables, OpenMap, Idle, Recorded, CiInv, DiscoverCis, PlainCis, Settled;
    IdleAll(later, b.cis, b.source);
    IdleMerges(later, DiscoverCis(later, b.cis, b.source).value, |b.cis|);
    RecordAll(later, b.cis, b.source);
    DiscoverAll(later, b.cis, b.source);
    c2 := DiscoverCis(later, b.cis, b.source).value;
  }

  lemma IdleMerges(start: Db, p: CiPhase, n: nat)
    requires Idle(start, p, n)
    ensures p.db.merges == start.merges
  {
    hide Tables, OpenMap, Content;
  }

  lemma {:induction false} SameClaims(source: string, cis: seq<DiscoveredCi>, rows: seq<CiRow>, others: seq<CiRow>)
    requires |rows| == |others| && forall i :: 0 <= i < |rows| ==> rows[i].id == others[i].id
    ensures Claims(source, cis, rows) == Claims(source, cis, others)
    decreases |rows|
  {
    hide RegisterAliases;
    if cis != [] && rows != [] { SameClaims(source, cis[..|cis| - 1], rows[..|rows| - 1], others[..|others| - 1]); }
  }

  lemma {:induction false} SameBound(source: string, rows: seq<CiRow>, others: seq<CiRow>)
    requires |rows| == |others| && forall i :: 0 <= i < |rows| ==> rows[i].id == others[i].id && rows[i].key == others[i].key
    ensures Bound(source, rows) == Bound(source, others)
    decreases |rows|
  {
    if rows != [] { SameBound(source, rows[..|rows| - 1], others[..|others| - 1]); }
  }

  /** Row by row the second run stores what the first one stored. */
  ghost predicate SameStored(first: seq<CiRow>, second: seq<CiRow>) {
    |first| == |second|
    && forall i :: 0 <= i < |first| ==> first[i].id == second[i].id && first[i].key == second[i].key
                                        && first[i].data.name == second[i].data.name
  }

  lemma StoredAlike(cis: seq<DiscoveredCi>, a: map<CiKey, CiRow>, b: map<CiKey, CiRow>, first: seq<CiRow>, second: seq<CiRow>)
    requires AllRecorded(a, cis, first) && AllRecorded(b, cis, second)
    requires forall k :: k in KeysIn(cis) && k in a && k in b ==> a[k].id == b[k].id
    ensures SameStored(first, second)
  {
    hide CiChanged;
    forall i | 0 <= i < |cis|
      ensures first[i].id == second[i].id && first[i].key == second[i].key && first[i].data.name == second[i].data.name
    {
      assert Records(a, cis[i], first[i]) && Records(b, cis[i], second[i]) && cis[i].key in KeysIn(cis);
    }
  }

  /** The ids the two runs see under the batch's keys. */
  lemma IdsAlike(db: Db, b: Batch, order: RowOrder, c: CiPhase, e: EdgePhase, after: Db, later: Db, c2: CiPhase)
    requires Left(db, b, order, c, e, after) && later.cis == after.cis && Second(later, b, c2)
    ensures OpenMap(c2.db.cis).Keys == OpenMap(after.cis).Keys && IdsPersist(after.cis, c2.db.cis)
    ensures forall k :: k in KeysIn(b.cis) ==> k in OpenMap(c.db.cis) && k in OpenMap(c2.db.cis)
                                               && OpenMap(c.db.cis)[k].id == OpenMap(c2.db.cis)[k].id
    ensures c2.idByKey == c.idByKey && c2.seen == c.seen
  {
    hide Tables, Agree, OpenMap, AllRecorded, Cached, EdgesRecorded, TargetsOf, Resolved, Bound, CisToClose, EdgesToClose, KeysIn, CiView,
         Stable, Content, KeysOf, CacheOpen, OldOrFresh, DiscoverCis, OpenKeys, IdsPersist, SameData;
    SecondKeys(later, b, c2);
    SeenStayOpen(c, b);
    SameIds(after.cis, c2.db.cis);
    CachesAlike(OpenMap(c.db.cis), CisToClose(c, b), OpenMap(c2.db.cis), c.seen, c.idByKey, c2.idByKey);
  }

  lemma SecondKeys(later: Db, b: Batch, c2: CiPhase)
    requires Second(later, b, c2)
    ensures OpenMap(c2.db.cis).Keys == OpenMap(later.cis).Keys && IdsPersist(later.cis, c2.db.cis)
  {
    hide Tables, OpenMap, Recorded, CiView, Stable, Content, KeysOf, CacheOpen, OldOrFresh, DiscoverCis, OpenKeys, IdsPersist;
  }

  lemma SameIds(a: Rows<CiKey, CiData>, b: Rows<CiKey, CiData>)
    requires IdsPersist(a, b)
    ensures forall k :: k in OpenMap(a) && k in OpenMap(b) ==> OpenMap(b)[k].id == OpenMap(a)[k].id
  {
    hide OpenMap;
  }

  lemma SeenStayOpen(c: CiPhase, b: Batch)
    ensures CisToClose(c, b) !! c.seen
  {
    hide OpenMap, OwnedBy;
  }

  lemma CachesAlike(a: map<CiKey, CiRow>, closed: set<CiKey>, n: map<CiKey, CiRow>, seen: set<CiKey>, ids: map<CiKey, nat>, ids2: map<CiKey, nat>)
    requires Cached(a, ids, seen) && Cached(n, ids2, seen) && closed !! seen && n.Keys == (a - closed).Keys
    requires forall k :: k in a - closed && k in n ==> n[k].id == (a - closed)[k].id
    ensures forall k :: k in seen ==> k in a && k in n && a[k].id == n[k].id
    ensures ids2 == ids
  {
    forall k | k in seen ensures k in a && k in n && a[k].id == n[k].id { assert k in a - closed; }
  }

  /** The second run starts from what the first one left. */
  ghost predicate SameTables(after: Db, later: Db) {
    later.cis == after.cis && later.edges == after.edges && later.sourceKeys == after.sourceKeys && later.aliases == after.aliases
  }

  lemma SecondBinds(db: Db, b: Batch, order: RowOrder, c: CiPhase, e: EdgePhase, after: Db, later: Db, c2: CiPhase)
    requires Left(db, b, order, c, e, after) && SameTables(after, later) && Second(later, b, c2)
    ensures SameStored(c.stored, c2.stored) && c2.db == later.(cis := c2.db.cis)
  {
    hide Tables, Agree, OpenMap, AllRecorded, Cached, EdgesRecorded, TargetsOf, Resolved, Bound, Claims, KeysIn, Content, CiInv, DiscoverCis, SameData;
    IdsAlike(db, b, order, c, e, after, later, c2);
    StoredAlike(b.cis, OpenMap(c.db.cis), OpenMap(c2.db.cis), c.stored, c2.stored);
    SameBound(b.source, c.stored, c2.stored);
    SameClaims(b.source, b.cis, c.stored, c2.stored);
    PlusTwice(db.sourceKeys, Bound(b.source, c.stored));
    PlusTwice(db.aliases, Claims(b.source, b.cis, c.stored));
  }

  lemma PlusTwice<K, V>(m: map<K, V>, more: map<K, V>)
    ensures m + more + more == m + more
  {
  }

  lemma NothingToClose(db: Db, b: Batch, order: RowOrder, c: CiPhase, e: EdgePhase, after: Db, later: Db, c2: CiPhase)
    requires Left(db, b, order, c, e, after) && SameTables(after, later) && Second(later, b, c2)
    ensures CisToClose(c2, b) == {} && CloseCis(c2.db, {}) == c2.db
  {
    hide Tables, Agree, OpenMap, Recorded, EdgesRecorded, TargetsOf, Resolved, KeysIn, Second, OwnedBy, SameStored, CisToClose, EdgesToClose,
         CloseCis, IdsPersist;
    SecondBinds(db, b, order, c, e, after, later, c2);
    IdsAlike(db, b, order, c, e, after, later, c2);
    SameIds(after.cis, c2.db.cis);
    NoneLeft(c, c2, b, OpenMap(after.cis));
    ClosingNone(c2.db);
  }

  lemma ClosingNone(db: Db)
    ensures CloseCis(db, {}) == db && CloseEdges(db, {}) == db
  {
    CloseManyNone(db.cis, db.now);
    CloseManyNone(db.edges, db.now);
    hide CloseMany;
  }

  lemma NoneLeft(c: CiPhase, c2: CiPhase, b: Batch, m: map<CiKey, CiRow>)
    requires m == OpenMap(c.db.cis) - CisToClose(c, b) && c2.seen == c.seen && c2.db.sourceKeys == c.db.sourceKeys
    requires OpenMap(c2.db.cis).Keys == m.Keys && forall k :: k in m ==> OpenMap(c2.db.cis)[k].id == m[k].id
    ensures CisToClose(c2, b) == {}
  {
    hide OpenMap, OwnedBy;
    forall k ensures k !in CisToClose(c2, b) {
      assert k in OpenMap(c2.db.cis) <==> k in m;
    }
  }

  /** The edge phase of the second run. */
  lemma SecondEdges(db: Db, b: Batch, order: RowOrder, c: CiPhase, e: EdgePhase, after: Db, later: Db, c2: CiPhase)
    requires Left(db, b, order, c, e, after) && (forall d :: d in b.edges ==> d.data.source == Declared)
    requires SameTables(after, later) && Second(later, b, c2)
    ensures WriteEdges(c2.db, c2.idByKey, order, b.edges).Ok?
    ensures var e2 := WriteEdges(c2.db, c2.idByKey, order, b.edges).value;
            && e2.db == c2.db && FromTable(OpenMap(after.edges), e2.stored)
            && EdgesToClose(e2, b) == {} && |e2.stored| == |e.stored|
  {
    hide Tables, Agree, OpenMap, Recorded, EdgesRecorded, TargetsOf, Resolved, KeysIn, Second, CisToClose, EdgesToClose, IdsPersist,
         SameResolution, WriteEdges, EdgeView, CiView;
    SecondBinds(db, b, order, c, e, after, later, c2);
    IdsAlike(db, b, order, c, e, after, later, c2);
    SecondReady(later, b, c2);
    BothCoherent(after, c2.db);
    ResolutionCarriesOver(after, c2.db, c.idByKey, order);
    RowsKept(after, c, e, b, order);
    TargetsCarryOver(after, c2.db, OpenMap(after.edges), c.idByKey, order, b.edges);
    IdleEdges(c2.db, c.idByKey, order, b.edges);
    WrittenTargets(c2.db, c.idByKey, order, b.edges);
    CountWritten(c2.db, c.idByKey, order, b.edges);
    var e2 := WriteEdges(c2.db, c2.idByKey, order, b.edges).value;
    NoEdgeLeft(e, e2, b);
  }

  lemma BothCoherent(a: Db, b: Db)
    requires Tables(a) && Tables(b)
    ensures Coherent(a.cis, a.now) && Coherent(b.cis, b.now)
  {
    hide Coherent;
  }

  lemma SecondReady(later: Db, b: Batch, c2: CiPhase)
    requires Second(later, b, c2)
    ensures Tables(c2.db) && forall k :: k in c2.idByKey ==> c2.idByKey[k] in CiView(c2.db.cis)
  {
    hide Tables, OpenMap, Recorded, Idle, CiView, Stable, Content, KeysOf, OldOrFresh, DiscoverCis, OpenKeys, IdsPersist;
  }

  /** Closing what was not seen keeps every observed edge. */
  lemma RowsKept(after: Db, c: CiPhase, e: EdgePhase, b: Batch, order: RowOrder)
    requires EdgesRecorded(OpenMap(e.db.edges), after, c.idByKey, order, b.edges)
    requires e.seen == TargetsOf(after, c.idByKey, order, b.edges)
    requires OpenMap(after.edges) == OpenMap(e.db.edges) - EdgesToClose(e, b)
    ensures EdgesRecorded(OpenMap(after.edges), after, c.idByKey, order, b.edges)
  {
    hide OpenMap, EdgeTarget, SameDeclared, EdgeView;
    forall d | d in b.edges ensures EdgeRecorded(OpenMap(after.edges), EdgeTarget(after, c.idByKey, order, d), d) {
      assert EdgeRecorded(OpenMap(e.db.edges), EdgeTarget(after, c.idByKey, order, d), d);
    }
  }

  lemma NoEdgeLeft(e: EdgePhase, e2: EdgePhase, b: Batch)
    requires OpenMap(e2.db.edges) == OpenMap(e.db.edges) - EdgesToClose(e, b) && e2.seen == e.seen
    ensures EdgesToClose(e2, b) == {}
  {
    hide OpenMap;
    assert EdgeView(e2.db.edges).Keys == OpenMap(e2.db.edges).Keys && EdgeView(e.db.edges).Keys == OpenMap(e.db.edges).Keys;
    hide EdgeView;
    forall k ensures k !in EdgesToClose(e2, b) {
      assert k in EdgeView(e2.db.edges) <==> k in EdgeView(e.db.edges) && k !in EdgesToClose(e, b);
    }
  }

  /** The graph already shows every row the second run stores. */
  lemma AlreadyShown(db: Db, b: Batch, order: RowOrder, c: CiPhase, e: EdgePhase, stored: seq<CiRow>)
    requires Tables(db) && Ran(db, b, order, c, e) && Recorded(db, b.cis, b.source, c) && PlainCis(b.cis)
    requires SameStored(c.stored, stored)
    ensures forall r :: r in stored ==> Shows(Finish(c, e, b).0.graph, r)
  {
    hide Tables, OpenMap, CiView, EdgeView, DiscoverCis, WriteEdges, Stable, KeysOf, Shown, CiChanged, PlainCis, EdgesToClose, Cached, Bound, KeysIn;
    var closed := IdsUnder(c.db.cis, CisToClose(c, b));
    StoredUniform(b.cis, c.db, c.stored);
    hide Project, Shows, Uniform;
    forall r | r in stored ensures Shows(Finish(c, e, b).0.graph, r) {
      var i :| 0 <= i < |stored| && stored[i] == r;
      StoredStaysOpen(db, b, c, i);
      EdgesLeaveGraph(db, b, order, c, e);
      StillShows(db.graph, c.stored, e.stored, EdgesToClose(e, b), closed, c.stored[i]);
      ShowsAlike(Finish(c, e, b).0.graph, c.stored[i], r);
    }
  }

  lemma ShowsAlike(g: Graph, r: CiRow, s: CiRow)
    requires Shows(g, r) && r.id == s.id && r.key == s.key && r.data.name == s.data.name
    ensures Shows(g, s)
  {
  }

  lemma EdgesLeaveGraph(db: Db, b: Batch, order: RowOrder, c: CiPhase, e: EdgePhase)
    requires Ran(db, b, order, c, e)
    ensures Finish(c, e, b).0.graph
         == Project(db.graph, c.stored, e.stored, EdgesToClose(e, b), IdsUnder(c.db.cis, CisToClose(c, b)))
  {
    hide Tables, OpenMap, CiView, EdgeView, DiscoverCis, WriteEdges, Stable, KeysOf, Shown, Project, CisToClose, EdgesToClose;
  }

  lemma StoredStaysOpen(db: Db, b: Batch, c: CiPhase, i: nat)
    requires CiInv(db, c) && Recorded(db, b.cis, b.source, c) && i < |c.stored|
    ensures c.stored[i].id !in IdsUnder(c.db.cis, CisToClose(c, b))
  {
    hide Tables, OpenMap, CiView, Stable, KeysOf, CiChanged, Bound, OwnedBy, CacheOpen, OldOrFresh, OpenKeys, IdsPersist;
    assert Records(OpenMap(c.db.cis), b.cis[i], c.stored[i]) && b.cis[i].key in c.seen;
    OpenIdKnown(c.db, b.cis[i].key);
  }

  lemma StoredUniform(cis: seq<DiscoveredCi>, db: Db, stored: seq<CiRow>)
    requires Tables(db) && PlainCis(cis) && AllRecorded(OpenMap(db.cis), cis, stored)
    ensures Uniform(stored)
  {
    hide Tables, OpenMap, CiChanged;
    forall r, s | r in stored && s in stored && r.id == s.id ensures r.key == s.key && r.data.name == s.data.name {
      var i :| 0 <= i < |stored| && stored[i] == r;
      var j :| 0 <= j < |stored| && stored[j] == s;
      assert Records(OpenMap(db.cis), cis[i], r) && Records(OpenMap(db.cis), cis[j], s);
      OpenIdKnown(db, r.key);
      OpenIdKnown(db, s.key);
    }
  }

  /** When the first run merged no event, and for one content per key and declared edges with one
      provenance per resolved edge, a second run in any later transaction succeeds, writes no
      version, closes nothing, counts every CI unchanged, and changes nothing but last_seen. */
  lemma ReconcileAgain(db: Db, b: Batch, order: RowOrder, t: int)
    requires Tables(db) && Agree(db) && Reconcile(db, b, order).Ok? && t > db.now && PlainCis(b.cis)
    requires Reconcile(db, b, order).value.0.merges == db.merges
    requires var c := DiscoverCis(db, b.cis, b.source);
             c.Ok? ==> PlainEdges(CloseCis(c.value.db, CisToClose(c.value, b)), c.value.idByKey, order, b.edges)
    ensures var (after, r) := Reconcile(db, b, order).value;
            var later := Begin(after, t);
            var again := Reconcile(later, b, order);
            && again.Ok? && again.value.0 == later.(cis := again.value.0.cis)
            && Content(again.value.0.cis) == Content(after.cis)
            && again.value.1 == Result(0, 0, |b.cis|, 0, r.edgesWritten, 0)
  {
    hide Tables, Agree, OpenMap, PlainCis, PlainEdges, Left, Second, Finish, CiInv, EdgeInv, DiscoverCis, WriteEdges, Content, CisToClose, CloseCis;
    var c, e := Phases(db, b, order);
    FinishMerges(db, b, order, c, e);
    LeftBehind(db, b, order, c, e);
    RunsAgain(db, b, order, t, c, e);
  }

  lemma FinishMerges(db: Db, b: Batch, order: RowOrder, c: CiPhase, e: EdgePhase)
    requires Ran(db, b, order, c, e)
    ensures Finish(c, e, b).0.merges == c.db.merges && Finish(c, e, b).0.aliases == c.db.aliases
    ensures Finish(c, e, b).0.cis == CloseCis(c.db, CisToClose(c, b)).cis && Finish(c, e, b).0.now == db.now
  {
    hide Tables, CiView, EdgeView, OpenMap, OpenKeys, DiscoverCis, WriteEdges, Stable, Project, Shown, KeysOf, CisToClose, EdgesToClose,
         CloseMany, IdsUnder, IdsPersist, CacheOpen, OldOrFresh;
  }

  lemma RunsAgain(db: Db, b: Batch, order: RowOrder, t: int, c: CiPhase, e: EdgePhase)
    requires Once(db, b, order, c, e) && Left(db, b, order, c, e, Finish(c, e, b).0) && t > db.now
    ensures var (after, r) := Finish(c, e, b);
            var later := Begin(after, t);
            var again := Reconcile(later, b, order);
            && again.Ok? && again.value.0 == later.(cis := again.value.0.cis)
            && Content(again.value.0.cis) == Content(after.cis)
            && again.value.1 == Result(0, 0, |b.cis|, 0, r.edgesWritten, 0)
  {
    hide Tables, Agree, OpenMap, PlainCis, PlainEdges, Left, Second, Finish, CiInv, EdgeInv, DiscoverCis, WriteEdges, Content, CisToClose,
         CloseCis, Ran, Recorded, FromTable, EdgesToClose, SameStored, Project, Idle, Settled;
    var after := Finish(c, e, b).0;
    var later := Begin(after, t);
    OncePlain(db, b, order, c, e);
    SameInstant(db, b, order, c, e);
    LeftTables(db, b, order, c, e, after, t);
    StillSettled(db, b, order, c, e, after);
    var c2 := SecondRuns(later, b);
    SecondBinds(db, b, order, c, e, after, later, c2);
    NothingToClose(db, b, order, c, e, after, later, c2);
    SecondEdges(db, b, order, c, e, after, later, c2);
    SecondCounts(later, b, c2);
    var e2 := WriteEdges(c2.db, c2.idByKey, order, b.edges).value;
    AlreadyShown(db, b, order, c, e, c2.stored);
    AgreementDraws(after, e2.stored);
    FinishIdle(c2, e2, b);
    assert (Finish(c, e, b).1).edgesWritten == |e.stored| by { WrittenCount(c, e, b); }
  }

  lemma SameInstant(db: Db, b: Batch, order: RowOrder, c: CiPhase, e: EdgePhase)
    requires Once(db, b, order, c, e)
    ensures Finish(c, e, b).0.now == db.now
  {
    hide Tables, Agree, CiView, EdgeView, OpenMap, DiscoverCis, WriteEdges, Stable, Project, Shown, KeysOf, OpenKeys, CisToClose, EdgesToClose,
         CloseMany, IdsUnder, PlainCis, PlainEdges, IdsPersist, CacheOpen, OldOrFresh;
  }

  lemma WrittenCount(c: CiPhase, e: EdgePhase, b: Batch)
    ensures (Finish(c, e, b).1).edgesWritten == |e.stored|
  {
  }

  lemma OncePlain(db: Db, b: Batch, order: RowOrder, c: CiPhase, e: EdgePhase)
    requires Once(db, b, order, c, e)
    ensures forall d :: d in b.edges ==> d.data.source == Declared
  {
    hide Ran, Tables, Agree;
  }

  lemma LeftTables(db: Db, b: Batch, order: RowOrder, c: CiPhase, e: EdgePhase, after: Db, t: int)
    requires Left(db, b, order, c, e, after) && after.now <= t
    ensures Tables(Begin(after, t)) && Agree(after) && Recorded(db, b.cis, b.source, c)
  {
    BeginTables(after, t);
    hide Tables, Recorded, Agree, Coherent;
  }

  lemma SecondCounts(later: Db, b: Batch, c2: CiPhase)
    requires Second(later, b, c2)
    ensures DiscoverCis(later, b.cis, b.source) == Ok(c2) && Content(c2.db.cis) == Content(later.cis)
    ensures c2.created == 0 && c2.updated == 0 && c2.same == |b.cis|
  {
    hide Tables, DiscoverCis, Recorded, CiInv, Content;
  }

  lemma FinishIdle(c2: CiPhase, e2: EdgePhase, b: Batch)
    requires CisToClose(c2, b) == {} && EdgesToClose(e2, b) == {} && e2.db == c2.db
    requires (forall r :: r in c2.stored ==> Shows(c2.db.graph, r)) && (forall r :: r in e2.stored ==> Drawn(c2.db.graph, r))
    ensures Finish(c2, e2, b) == (c2.db, Result(c2.created, c2.updated, c2.same, 0, |e2.stored|, 0))
  {
    hide CisToClose, EdgesToClose, CloseEdges, Project, Shows, Drawn, CiView;
    ClosingNone(c2.db);
    assert IdsUnder(c2.db.cis, {}) == {};
    IdleProjection(c2.db.graph, c2.stored, e2.stored);
  }
}
