/** The explicit incremental delta as a function of the database
    (services/reconciliation/src/infra_twin/reconciliation/reconcile.py, apply_delta). */
module Deltas {
  import opened Model
  import opened Observations
  import opened Versions
  import opened Store
  import opened Reconciling

  datatype EdgeRef = EdgeRef(etype: EdgeType, from: CiKey, to: CiKey)

  datatype Delta = Delta(source: string, cis: seq<DiscoveredCi>, edges: seq<DiscoveredEdge>,
                         removedCis: seq<CiKey>, removedEdges: seq<EdgeRef>)

  /** The edge key a scan of the open edges of one type between two CIs meets first; the query
      has no ORDER BY, so any row may come first. */
  type Scan = (EdgeType, nat, nat) -> string

  datatype DeltaResult = DeltaResult(cisCreated: nat, cisUpdated: nat, cisUnchanged: nat, cisClosed: nat,
                                     edgesWritten: nat, edgesClosed: nat)

  /* ---------------------------------------------------------------- the delta */

  /** An unresolved endpoint raises an error here, where reconcile skips the edge. */
  ghost function WriteEdgeStrictly(p: EdgePhase, idByKey: map<CiKey, nat>, order: RowOrder, de: DiscoveredEdge): Outcome<EdgePhase> {
    if EdgeTarget(p.db, idByKey, order, de).None? then Abort else WriteEdge(p, idByKey, order, de)
  }

  ghost function WriteEdgesStrictly(db: Db, idByKey: map<CiKey, nat>, order: RowOrder, edges: seq<DiscoveredEdge>): Outcome<EdgePhase> {
    if edges == [] then Ok(EdgePhase(db, {}, []))
    else
      match WriteEdgesStrictly(db, idByKey, order, edges[..|edges| - 1])
      case Abort => Abort
      case Ok(p) => WriteEdgeStrictly(p, idByKey, order, edges[|edges| - 1])
  }

  /** The edge a reference names: always the one with the empty edge key. */
  ghost function RefKey(db: Db, idByKey: map<CiKey, nat>, order: RowOrder, ref: EdgeRef): Option<EdgeKey> {
    match (ResolveRef(db, idByKey, order, ref.from), ResolveRef(db, idByKey, order, ref.to))
    case (Some(f), Some(t)) => Some(EdgeKey(ref.etype, f, t, ""))
    case _ => None
  }

  /** The open edges a delta closes. */
  ghost function RemovedKeys(db: Db, idByKey: map<CiKey, nat>, order: RowOrder, refs: seq<EdgeRef>): set<EdgeKey> {
    set ref | ref in refs && RefKey(db, idByKey, order, ref).Some? && RefKey(db, idByKey, order, ref).value in OpenMap(db.edges)
      :: RefKey(db, idByKey, order, ref).value
  }

  /** The edge that leaves the graph for a closed one: the first open row of that type between
      the two CIs, whatever its edge key. */
  ghost function FirstMatch(edges: set<EdgeKey>, first: Scan, k: EdgeKey): EdgeKey {
    var hit := k.(edgeKey := first(k.etype, k.fromId, k.toId));
    if hit in edges then hit else k
  }

  ghost function FirstMatches(edges: set<EdgeKey>, first: Scan, keys: set<EdgeKey>): set<EdgeKey> {
    set k | k in keys :: FirstMatch(edges, first, k)
  }

  ghost function Removed(d: Delta): set<CiKey> { set k | k in d.removedCis }

  /** The state once the named CIs are closed; removed edges are resolved against it. */
  ghost function CisRemoved(e: EdgePhase, d: Delta): Db { CloseCis(e.db, Removed(d)) }

  ghost function KeysToRemove(c: CiPhase, e: EdgePhase, d: Delta, order: RowOrder): set<EdgeKey> {
    RemovedKeys(CisRemoved(e, d), c.idByKey, order, d.removedEdges)
  }

  ghost function Conclude(c: CiPhase, e: EdgePhase, d: Delta, order: RowOrder, first: Scan): (Db, DeltaResult) {
    var keys := KeysToRemove(c, e, d, order);
    var db := CloseEdges(CisRemoved(e, d), keys);
    var hits := FirstMatches(OpenKeys(e.db.edges), first, keys);
    (db.(graph := Project(db.graph, c.stored, e.stored, hits, IdsUnder(e.db.cis, Removed(d)))),
     DeltaResult(c.created, c.updated, c.same, |Removed(d) * OpenKeys(e.db.cis)|, |e.stored|, |keys|))
  }

  /** The state once everything named is written, before anything is removed. */
  ghost function Upserts(db: Db, d: Delta, order: RowOrder): Outcome<(CiPhase, EdgePhase)> {
    match DiscoverCis(db, d.cis, d.source)
    case Abort => Abort
    case Ok(c) =>
      match WriteEdgesStrictly(c.db, c.idByKey, order, d.edges)
      case Abort => Abort
      case Ok(e) => Ok((c, e))
  }

  ghost function ApplyDelta(db: Db, d: Delta, order: RowOrder, first: Scan): Outcome<(Db, DeltaResult)> {
    match Upserts(db, d, order)
    case Abort => Abort
    case Ok((c, e)) => Ok(Conclude(c, e, d, order, first))
  }

  /* ---------------------------------------------------------------- what it guarantees */

  /** When it succeeds, strict writing is reconcile's writing. */
  lemma {:induction false} StrictWrites(db: Db, idByKey: map<CiKey, nat>, order: RowOrder, edges: seq<DiscoveredEdge>)
    ensures WriteEdgesStrictly(db, idByKey, order, edges).Ok? ==>
              WriteEdgesStrictly(db, idByKey, order, edges) == WriteEdges(db, idByKey, order, edges)
    decreases |edges|
  {
    hide EdgeTarget, WriteEdge;
    if edges != [] { StrictWrites(db, idByKey, order, edges[..|edges| - 1]); }
  }

  ghost predicate Applied(db: Db, d: Delta, order: RowOrder, c: CiPhase, e: EdgePhase) {
    && DiscoverCis(db, d.cis, d.source) == Ok(c) && WriteEdges(c.db, c.idByKey, order, d.edges) == Ok(e)
    && WriteEdgesStrictly(c.db, c.idByKey, order, d.edges) == Ok(e) && Upserts(db, d, order) == Ok((c, e))
    && CiInv(db, c) && EdgeInv(c.db, e)
  }

  lemma Stages(db: Db, d: Delta, order: RowOrder, first: Scan) returns (c: CiPhase, e: EdgePhase)
    requires Tables(db) && ApplyDelta(db, d, order, first).Ok?
    ensures Applied(db, d, order, c, e) && ApplyDelta(db, d, order, first) == Ok(Conclude(c, e, d, order, first))
  {
    hide Tables, CiView, DiscoverCis, WriteEdges, WriteEdgesStrictly, Conclude, EdgeInv, OpenMap, Stable;
    c := DiscoverCis(db, d.cis, d.source).value;
    e := WriteEdgesStrictly(c.db, c.idByKey, order, d.edges).value;
    DiscoverAll(db, d.cis, d.source);
    StrictWrites(c.db, c.idByKey, order, d.edges);
    WriteAll(c.db, c.idByKey, order, d.edges);
  }

  /** What the two upsert phases leave behind. */
  lemma UpsertsAgree(db: Db, d: Delta, order: RowOrder, c: CiPhase, e: EdgePhase)
    requires Tables(db) && Applied(db, d, order, c, e)
    ensures Tables(e.db) && e.db.graph == db.graph && e.db.now == db.now
    ensures CiView(e.db.cis) == CiView(db.cis) + KeysOf(c.stored)
    ensures EdgeView(e.db.edges) == EdgeView(db.edges) + Shown(e.stored)
    ensures NoneDangling(CiView(db.cis), EdgeView(db.edges), KeysOf(c.stored))
    ensures Stable(db.cis, e.db.cis, db.now) && Stable(db.edges, e.db.edges, db.now)
  {
    hide Tables, CiView, EdgeView, OpenMap, OpenKeys, Stable, Shown, KeysOf, DiscoverCis, WriteEdges, WriteEdgesStrictly, GraphIs;
    EndpointsTaken(db, KeysOf(c.stored));
  }

  /** The CIs the delta leaves open. */
  ghost function Survivors(e: EdgePhase, d: Delta): set<nat> { OpenIds(e.db.cis) - IdsUnder(e.db.cis, Removed(d)) }

  /** Some edge to close, between CIs that stay open, has a parallel that the scan reads first. */
  ghost predicate Misdirected(e: EdgePhase, keys: set<EdgeKey>, ids: set<nat>, first: Scan) {
    exists k :: k in keys && k.fromId in ids && k.toId in ids && FirstMatch(OpenKeys(e.db.edges), first, k) != k
  }

  /** The same of a whole delta, read off the state before anything is removed. */
  ghost predicate GoesAstray(db: Db, d: Delta, order: RowOrder, first: Scan) {
    match Upserts(db, d, order)
    case Abort => false
    case Ok((c, e)) => Misdirected(e, KeysToRemove(c, e, d, order), Survivors(e, d), first)
  }

  ghost predicate KeyedParallel(edges: set<EdgeKey>, keys: set<EdgeKey>, ids: set<nat>) {
    exists j :: j in edges && j.edgeKey != "" && j.(edgeKey := "") in keys && j.fromId in ids && j.toId in ids
  }

  /** Some edge to close, between CIs that stay open, has an open parallel with an edge key. */
  ghost predicate MayGoAstray(db: Db, d: Delta, order: RowOrder) {
    match Upserts(db, d, order)
    case Abort => false
    case Ok((c, e)) => KeyedParallel(OpenKeys(e.db.edges), KeysToRemove(c, e, d, order), Survivors(e, d))
  }

  /** Dropping the first matches and closing the named edges show the same live edges exactly
      when no named live edge has another one read before it. */
  lemma DropsMatch(view: map<EdgeKey, GraphEdge>, ids: set<nat>, first: Scan, keys: set<EdgeKey>)
    requires keys <= view.Keys && forall k :: k in keys ==> k.edgeKey == ""
    ensures Live(view - FirstMatches(view.Keys, first, keys), ids) == Live(view - keys, ids)
            <==> forall k :: k in keys && k.fromId in ids && k.toId in ids ==> FirstMatch(view.Keys, first, k) == k
  {
    var hits := FirstMatches(view.Keys, first, keys);
    var a, b := Live(view - hits, ids), Live(view - keys, ids);
    if forall k :: k in keys && k.fromId in ids && k.toId in ids ==> FirstMatch(view.Keys, first, k) == k {
      forall k | k in view && k.fromId in ids && k.toId in ids ensures k in hits <==> k in keys {
        if k in keys { assert FirstMatch(view.Keys, first, k) in hits; }
      }
      assert a == b;
    }
    if a == b {
      forall k | k in keys && k.fromId in ids && k.toId in ids ensures FirstMatch(view.Keys, first, k) == k {
        assert k !in b;
        assert k in hits;
        var j :| j in keys && FirstMatch(view.Keys, first, j) == k;
        assert j == k;
      }
    }
  }

  lemma RemovedAreOpen(c: CiPhase, e: EdgePhase, d: Delta, order: RowOrder)
    ensures KeysToRemove(c, e, d, order) <= OpenKeys(e.db.edges)
    ensures forall k :: k in KeysToRemove(c, e, d, order) ==> k.edgeKey == ""
  {
    hide ResolveRef, OpenMap;
    assert OpenMap(e.db.edges).Keys == OpenKeys(e.db.edges);
  }

  /** A delta keeps the tables coherent and the past as it was. */
  lemma DeltaKeeps(db: Db, d: Delta, order: RowOrder, first: Scan)
    requires Tables(db) && ApplyDelta(db, d, order, first).Ok?
    ensures var after := ApplyDelta(db, d, order, first).value.0;
            Tables(after) && Stable(db.cis, after.cis, db.now) && Stable(db.edges, after.edges, db.now)
  {
    hide Agree, Tables, Stable, OpenMap, Conclude, Applied;
    var c, e := Stages(db, d, order, first);
    Concluded(db, d, order, first, c, e);
  }

  lemma Concluded(db: Db, d: Delta, order: RowOrder, first: Scan, c: CiPhase, e: EdgePhase)
    requires Tables(db) && Applied(db, d, order, c, e)
    ensures var after := Conclude(c, e, d, order, first).0;
            var keys := KeysToRemove(c, e, d, order);
            && Tables(after) && Stable(db.cis, after.cis, db.now) && Stable(db.edges, after.edges, db.now)
            && OpenMap(after.cis) == OpenMap(e.db.cis) - Removed(d)
            && OpenMap(after.edges) == OpenMap(e.db.edges) - keys
            && CiView(after.cis) == CiView(e.db.cis) - IdsUnder(e.db.cis, Removed(d))
            && EdgeView(after.edges) == EdgeView(e.db.edges) - keys
            && after.graph == Project(db.graph, c.stored, e.stored, FirstMatches(OpenKeys(e.db.edges), first, keys),
                                      IdsUnder(e.db.cis, Removed(d)))
  {
    hide Tables, Stable, OpenMap, OpenKeys, CiView, EdgeView, Agree, Applied, Project, KeysToRemove, IdsUnder, FirstMatches, Removed;
    UpsertsAgree(db, d, order, c, e);
    var keys := KeysToRemove(c, e, d, order);
    CloseCisEffect(e.db, Removed(d));
    var mid := CisRemoved(e, d);
    CloseEdgesEffect(mid, keys);
    StableTrans(db.cis, e.db.cis, mid.cis, db.now);
    StableTrans(db.edges, e.db.edges, CloseEdges(mid, keys).edges, db.now);
    GraphOnly(CloseEdges(mid, keys), Conclude(c, e, d, order, first).0);
  }

  /** The graph is again the projection of the current state exactly when no edge the delta
      closed between two CIs that stay open has a parallel edge that a scan reads before it. */
  lemma DeltaAgrees(db: Db, d: Delta, order: RowOrder, first: Scan)
    requires Tables(db) && Agree(db) && ApplyDelta(db, d, order, first).Ok?
    ensures Agree(ApplyDelta(db, d, order, first).value.0) <==> !GoesAstray(db, d, order, first)
  {
    hide Agree, Tables, Stable, OpenMap, Conclude, Misdirected, Upserts, Survivors;
    var c, e := Stages(db, d, order, first);
    AppliedDiscovers(db, d, order, c, e);
    AgreesIff(db, d, order, first, c, e);
  }

  lemma AgreesIff(db: Db, d: Delta, order: RowOrder, first: Scan, c: CiPhase, e: EdgePhase)
    requires Tables(db) && Agree(db) && Applied(db, d, order, c, e)
    ensures var after := Conclude(c, e, d, order, first).0;
            Agree(after) <==> !Misdirected(e, KeysToRemove(c, e, d, order), Survivors(e, d), first)
  {
    hide Tables, Stable, OpenMap, OpenKeys, CiView, EdgeView, Applied, Project, KeysToRemove, IdsUnder, FirstMatches, Removed,
         Conclude, FirstMatch, VertexView, Live, NoneDangling, KeysOf, Shown, OpenIds;
    var after, keys := Conclude(c, e, d, order, first).0, KeysToRemove(c, e, d, order);
    var ids, hits := IdsUnder(e.db.cis, Removed(d)), FirstMatches(OpenKeys(e.db.edges), first, keys);
    UpsertsAgree(db, d, order, c, e);
    Concluded(db, d, order, first, c, e);
    ProjectKeeps(db.graph, CiView(db.cis), EdgeView(db.edges), c.stored, e.stored, hits, ids);
    RemovedAreOpen(c, e, d, order);
    var open := OpenIds(after.cis);
    assert CiView(after.cis).Keys == open && EdgeView(e.db.edges).Keys == OpenKeys(e.db.edges);
    assert open == Survivors(e, d) by { assert CiView(e.db.cis).Keys == OpenIds(e.db.cis); }
    assert after.graph.edges == Live(EdgeView(e.db.edges) - hits, open);
    DropsMatch(EdgeView(e.db.edges), open, first, keys);
  }

  /** Whatever order the rows are read in, if and only if no such parallel carries an edge key. */
  lemma DeltaAgreesInAnyOrder(db: Db, d: Delta, order: RowOrder)
    requires Tables(db) && Agree(db) && Upserts(db, d, order).Ok?
    ensures (forall first: Scan :: Agree(ApplyDelta(db, d, order, first).value.0)) <==> !MayGoAstray(db, d, order)
  {
    hide Agree, Tables, OpenMap, OpenKeys, Conclude, Upserts, KeysToRemove, Survivors, FirstMatch, Misdirected;
    forall first: Scan ensures Agree(ApplyDelta(db, d, order, first).value.0) <==> !GoesAstray(db, d, order, first) {
      DeltaAgrees(db, d, order, first);
    }
    hide ApplyDelta;
    var (c, e) := Upserts(db, d, order).value;
    var keys, ids := KeysToRemove(c, e, d, order), Survivors(e, d);
    RemovedAreOpen(c, e, d, order);
    if MayGoAstray(db, d, order) {
      var first := KeyedFirst(e, keys, ids);
      assert GoesAstray(db, d, order, first);
    } else {
      forall first: Scan ensures !GoesAstray(db, d, order, first) { Directed(e, keys, ids, first); }
    }
  }

  lemma Directed(e: EdgePhase, keys: set<EdgeKey>, ids: set<nat>, first: Scan)
    requires forall k :: k in keys ==> k.edgeKey == ""
    ensures !KeyedParallel(OpenKeys(e.db.edges), keys, ids) ==> !Misdirected(e, keys, ids, first)
  {
    hide OpenKeys;
  }

  /** A scan that reads the keyed parallel first. */
  lemma KeyedFirst(e: EdgePhase, keys: set<EdgeKey>, ids: set<nat>) returns (first: Scan)
    requires KeyedParallel(OpenKeys(e.db.edges), keys, ids) && forall k :: k in keys ==> k.edgeKey == ""
    ensures Misdirected(e, keys, ids, first)
  {
    hide OpenKeys;
    var j :| j in OpenKeys(e.db.edges) && j.edgeKey != "" && j.(edgeKey := "") in keys && j.fromId in ids && j.toId in ids;
    first := (t, f, u) => j.edgeKey;
    var k := j.(edgeKey := "");
    assert k.(edgeKey := j.edgeKey) == j;
    assert FirstMatch(OpenKeys(e.db.edges), first, k) == j;
  }

  const HERE := CiKey("ec2_instance", "i-1")
  const THERE := CiKey("ec2_instance", "i-2")
  const PLAIN := EdgeKey(CONNECTS_TO, 0, 1, "")
  const KEYED := EdgeKey(CONNECTS_TO, 0, 1, "tcp/443")

  function ParallelCis(): Rows<CiKey, CiData> {
    {Version(0, HERE, CiData(None, map[], 1.0, 0), 0, 0, None), Version(1, THERE, CiData(None, map[], 1.0, 0), 0, 0, None)}
  }

  function ParallelEdge(id: nat, key: EdgeKey): EdgeRow {
    Version(id, key, EdgeData(Declared, 1.0, [Evidence("aws", 0, None)]), 0, 0, None)
  }

  /** Two CIs joined by two open edges of one type, one of them with an edge key. */
  function Parallel(): Db {
    var shown := GraphEdge(Declared, 1.0);
    Db(1, 4, ParallelCis(), {ParallelEdge(2, PLAIN), ParallelEdge(3, KEYED)}, map[], map[], [], {}, map[],
       Graph(map[0 := Vertex(HERE.ctype, HERE.externalId, None), 1 := Vertex(THERE.ctype, THERE.externalId, None)],
             map[PLAIN := shown, KEYED := shown]))
  }

  function RemovePlain(): Delta { Delta("aws", [], [], [], [EdgeRef(CONNECTS_TO, HERE, THERE)]) }

  lemma TwoOpen<K, P>(k: K, j: K, i: nat, n: nat, data: P)
    requires k != j && i != n
    ensures Coherent({Version(i, k, data, 0, 0, None), Version(n, j, data, 0, 0, None)}, 1)
  {
  }

  lemma ParallelTables()
    ensures Tables(Parallel()) && CiView(Parallel().cis) == map[0 := HERE, 1 := THERE]
  {
    TwoOpen(HERE, THERE, 0, 1, CiData(None, map[], 1.0, 0));
    TwoOpen(PLAIN, KEYED, 2, 3, ParallelEdge(2, PLAIN).data);
    hide Coherent, CiView;
    ParallelCiView();
  }

  lemma ParallelCiView()
    requires Coherent(ParallelCis(), 1)
    ensures CiView(ParallelCis()) == map[0 := HERE, 1 := THERE]
  {
    hide Coherent, CiView;
    var a, b := Version(0, HERE, CiData(None, map[], 1.0, 0), 0, 0, None), Version(1, THERE, CiData(None, map[], 1.0, 0), 0, 0, None);
    assert a in ParallelCis() && b in ParallelCis();
    CiViewFromMap(ParallelCis(), 1, map[0 := HERE, 1 := THERE]);
  }

  lemma ParallelView()
    ensures OpenMap(Parallel().edges) == map[PLAIN := ParallelEdge(2, PLAIN), KEYED := ParallelEdge(3, KEYED)]
  {
    ParallelTables();
    hide Coherent, OpenMap;
    OpenMapIs(Parallel().edges, 1, map[PLAIN := ParallelEdge(2, PLAIN), KEYED := ParallelEdge(3, KEYED)]);
  }

  lemma ParallelAgrees()
    ensures Agree(Parallel())
  {
    ParallelTables();
    ParallelView();
    hide Tables, OpenMap, CiView;
    var db := Parallel();
    assert VertexView(db.graph) == CiView(db.cis);
    assert EdgeView(db.edges) == db.graph.edges;
    assert Live(EdgeView(db.edges), CiView(db.cis).Keys) == db.graph.edges;
  }

  lemma ParallelRef(order: RowOrder)
    ensures RefKey(Parallel(), map[], order, EdgeRef(CONNECTS_TO, HERE, THERE)) == Some(PLAIN)
  {
    var a, b := Version(0, HERE, CiData(None, map[], 1.0, 0), 0, 0, None), Version(1, THERE, CiData(None, map[], 1.0, 0), 0, 0, None);
    ParallelTables();
    OpenRow(Parallel().cis, 1, a);
    OpenRow(Parallel().cis, 1, b);
  }

  /** Agreement is really lost: the removed edge stays in the graph, its parallel leaves it. */
  lemma DeltaDisagrees(order: RowOrder)
    ensures var result := ApplyDelta(Parallel(), RemovePlain(), order, (t, f, u) => "tcp/443");
            Agree(Parallel()) && result.Ok? && !Agree(result.value.0)
  {
    hide Agree, Tables, OpenMap, Parallel, CiView, RefKey, OpenKeys, Conclude, Misdirected, Survivors, KeysToRemove;
    ParallelTables();
    ParallelAgrees();
    var db, d := Parallel(), RemovePlain();
    var first: Scan := (t, f, u) => "tcp/443";
    assert DiscoverCis(db, [], "aws") == Ok(CiPhase(db, map[], {}, [], 0, 0, 0));
    DeltaAgrees(db, d, order, first);
    ParallelMisses(order, first);
  }

  lemma ParallelMisses(order: RowOrder, first: Scan)
    requires first(CONNECTS_TO, 0, 1) == "tcp/443"
    ensures var c, e := CiPhase(Parallel(), map[], {}, [], 0, 0, 0), EdgePhase(Parallel(), {}, []);
            Misdirected(e, KeysToRemove(c, e, RemovePlain(), order), Survivors(e, RemovePlain()), first)
  {
    hide Agree, Tables, OpenMap, Parallel, CiView, RefKey, OpenKeys, OpenIds, ParallelEdge;
    var db, d := Parallel(), RemovePlain();
    var c, e := CiPhase(db, map[], {}, [], 0, 0, 0), EdgePhase(db, {}, []);
    ParallelTables();
    ParallelView();
    ParallelRef(order);
    CloseManyNone(db.cis, db.now);
    assert Removed(d) == {};
    assert CisRemoved(e, d) == db;
    assert OpenIds(db.cis) == {0, 1} by { assert CiView(db.cis).Keys == OpenIds(db.cis); }
  }

  /** Exactly what is open after a delta. */
  lemma DeltaExact(db: Db, d: Delta, order: RowOrder, first: Scan)
    requires Tables(db) && ApplyDelta(db, d, order, first).Ok?
    ensures var (after, r) := ApplyDelta(db, d, order, first).value;
            var (c, e) := Upserts(db, d, order).value;
            && OpenKeys(after.cis) == OpenKeys(db.cis) + c.seen - Removed(d)
            && |OpenKeys(after.cis)| == |OpenKeys(db.cis)| + r.cisCreated - r.cisClosed
            && OpenKeys(after.edges) == OpenKeys(db.edges) + TargetsOf(c.db, c.idByKey, order, d.edges) - KeysToRemove(c, e, d, order)
            && |OpenKeys(after.edges)| == |OpenKeys(db.edges) + TargetsOf(c.db, c.idByKey, order, d.edges)| - r.edgesClosed
  {
    hide Agree, Tables, OpenMap, OpenKeys, Applied, Conclude, TargetsOf, Removed, Upserts, KeysToRemove;
    var c, e := Stages(db, d, order, first);
    AppliedDiscovers(db, d, order, c, e);
    ExactDelta(db, d, order, first, c, e);
  }

  lemma AppliedDiscovers(db: Db, d: Delta, order: RowOrder, c: CiPhase, e: EdgePhase)
    requires Applied(db, d, order, c, e)
    ensures DiscoverCis(db, d.cis, d.source) == Ok(c) && WriteEdges(c.db, c.idByKey, order, d.edges) == Ok(e)
    ensures Upserts(db, d, order) == Ok((c, e))
  {
  }

  lemma ExactDelta(db: Db, d: Delta, order: RowOrder, first: Scan, c: CiPhase, e: EdgePhase)
    requires Tables(db) && Applied(db, d, order, c, e)
    ensures var (after, r) := Conclude(c, e, d, order, first);
            && OpenKeys(after.cis) == OpenKeys(db.cis) + c.seen - Removed(d)
            && |OpenKeys(after.cis)| == |OpenKeys(db.cis)| + r.cisCreated - r.cisClosed
            && OpenKeys(after.edges) == OpenKeys(db.edges) + TargetsOf(c.db, c.idByKey, order, d.edges) - KeysToRemove(c, e, d, order)
            && |OpenKeys(after.edges)| == |OpenKeys(db.edges) + TargetsOf(c.db, c.idByKey, order, d.edges)| - r.edgesClosed
  {
    hide Agree, Tables, OpenMap, OpenKeys, Applied, KeysToRemove, FirstMatches, Removed, TargetsOf, CisRemoved, CloseEdges, Project;
    var (after, r) := Conclude(c, e, d, order, first);
    var keys := KeysToRemove(c, e, d, order);
    Concluded(db, d, order, first, c, e);
    UpsertsExact(db, d, order, c, e);
    RemovedAreOpen(c, e, d, order);
    MinusCount(OpenKeys(e.db.cis), Removed(d));
    MinusCount(OpenKeys(e.db.edges), keys);
    assert keys * OpenKeys(e.db.edges) == keys;
  }

  lemma MinusCount<T>(a: set<T>, b: set<T>)
    ensures |a - b| == |a| - |b * a|
  {
    assert a == (a - b) + b * a;
  }

  lemma UpsertsExact(db: Db, d: Delta, order: RowOrder, c: CiPhase, e: EdgePhase)
    requires Tables(db) && Applied(db, d, order, c, e)
    ensures OpenKeys(e.db.cis) == OpenKeys(db.cis) + c.seen
    ensures |OpenKeys(e.db.cis)| == |OpenKeys(db.cis)| + c.created
    ensures OpenKeys(e.db.edges) == OpenKeys(db.edges) + TargetsOf(c.db, c.idByKey, order, d.edges)
  {
    hide Tables, CiView, EdgeView, OpenMap, OpenKeys, Stable, Shown, KeysOf, DiscoverCis, WriteEdges, WriteEdgesStrictly, TargetsOf, EdgeInv;
    WrittenTargets(c.db, c.idByKey, order, d.edges);
    ShownIsView(e, c.db);
    EdgesLeaveCis(c.db, e);
  }
}
