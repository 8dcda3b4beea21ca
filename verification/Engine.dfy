/** The diff engine and the delta as they run: loops over events and rows that update the
    connection, each proved to be its database function
    (services/reconciliation/src/infra_twin/reconciliation/reconcile.py and projection.py). */
module Engine {
  import opened Model
  import opened Versions
  import opened Store
  import opened Merging
  import opened Reconciling
  import opened Deltas
  import opened Repositories

  /* ---------------------------------------------------------------- projection */

  ghost function IdSet(rows: seq<CiRow>): set<nat> { set r | r in rows :: r.id }

  lemma DropEdgeMore(g: Graph, rows: seq<EdgeRow>, r: EdgeRow)
    ensures DropEdges(DropEdges(g, KeySet(rows)), {r.key}) == DropEdges(g, KeySet(rows + [r]))
  {
    KeySetAppend(rows, r);
    assert g.edges - KeySet(rows) - {r.key} == g.edges - (KeySet(rows) + {r.key});
  }

  lemma DropCiMore(g: Graph, rows: seq<CiRow>, r: CiRow)
    ensures DropCis(DropCis(g, IdSet(rows)), {r.id}) == DropCis(g, IdSet(rows + [r]))
  {
    assert IdSet(rows + [r]) == IdSet(rows) + {r.id} by { assert forall x :: x in rows + [r] <==> x in rows || x == r; }
    hide IdSet;
    assert g.vertices - IdSet(rows) - {r.id} == g.vertices - (IdSet(rows) + {r.id});
  }

  lemma DropNone(g: Graph)
    ensures DropEdges(g, KeySet([])) == g && DropCis(g, IdSet([])) == g
  {
    assert g.edges - {} == g.edges && g.vertices - {} == g.vertices;
  }

  /** MERGE the current vertices, then the current edges between vertices that are there. */
  method ProjectCurrent(start: Graph, currentCis: seq<CiRow>, currentEdges: seq<EdgeRow>) returns (g: Graph)
    ensures g == ProjectEdges(ProjectCis(start, currentCis), currentEdges)
  {
    g := start;
    for i := 0 to |currentCis|
      invariant g == ProjectCis(start, currentCis[..i])
    {
      var r := currentCis[i];
      assert currentCis[..i + 1][..i] == currentCis[..i];
      var v := if r.id in g.vertices then g.vertices[r.id] else Vertex(r.key.ctype, r.key.externalId, None);
      v := v.(ctype := r.key.ctype, externalId := r.key.externalId);
      if r.data.name.Some? && r.data.name.value != "" { v := v.(name := r.data.name); }
      g := g.(vertices := g.vertices[r.id := v]);
    }
    assert currentCis[..|currentCis|] == currentCis;
    ghost var mid := g;
    for i := 0 to |currentEdges|
      invariant g == ProjectEdges(mid, currentEdges[..i])
    {
      var r := currentEdges[i];
      assert currentEdges[..i + 1][..i] == currentEdges[..i];
      if r.key.fromId in g.vertices && r.key.toId in g.vertices {
        g := g.(edges := g.edges[r.key := GraphEdge(r.data.source, r.data.confidence)]);
      }
    }
    assert currentEdges[..|currentEdges|] == currentEdges;
  }

  /** Delete the closed edges, then the closed vertices with what is attached to them. */
  method DropClosed(start: Graph, closedCis: seq<CiRow>, closedEdges: seq<EdgeRow>) returns (g: Graph)
    ensures g == DropCis(DropEdges(start, KeySet(closedEdges)), IdSet(closedCis))
  {
    hide KeySet, IdSet;
    g := start;
    DropNone(start);
    for i := 0 to |closedEdges|
      invariant g == DropEdges(start, KeySet(closedEdges[..i]))
    {
      assert closedEdges[..i + 1] == closedEdges[..i] + [closedEdges[i]];
      DropEdgeMore(start, closedEdges[..i], closedEdges[i]);
      g := g.(edges := g.edges - {closedEdges[i].key});
    }
    assert closedEdges[..|closedEdges|] == closedEdges;
    ghost var mid := g;
    DropNone(mid);
    for i := 0 to |closedCis|
      invariant g == DropCis(mid, IdSet(closedCis[..i]))
    {
      assert closedCis[..i + 1] == closedCis[..i] + [closedCis[i]];
      DropCiMore(mid, closedCis[..i], closedCis[i]);
      var id := closedCis[i].id;
      g := Graph(g.vertices - {id}, map k | k in g.edges && k.fromId != id && k.toId != id :: g.edges[k]);
    }
    assert closedCis[..|closedCis|] == closedCis;
  }

  /** The statements against the graph. */
  method ProjectInto(conn: Connection, currentCis: seq<CiRow>, currentEdges: seq<EdgeRow>, closedCis: seq<CiRow>, closedEdges: seq<EdgeRow>)
    modifies conn
    ensures conn.db == old(conn.db).(graph := Project(old(conn.db).graph, currentCis, currentEdges, KeySet(closedEdges), IdSet(closedCis)))
  {
    hide KeySet, IdSet, ProjectCis, ProjectEdges, DropCis, DropEdges;
    var shown := ProjectCurrent(conn.db.graph, currentCis, currentEdges);
    var g := DropClosed(shown, closedCis, closedEdges);
    conn.db := conn.db.(graph := g);
  }

  /* ---------------------------------------------------------------- identities */

  /** One source-key row and one alias row per alias key, each an upsert. */
  method BindIdentity(conn: Connection, source: string, dci: DiscoveredCi, id: nat)
    modifies conn
    ensures conn.db == Bind(old(conn.db), source, dci, id)
  {
    var aliases := conn.db.aliases;
    for i := 0 to |dci.aliasKeys|
      invariant aliases == RegisterAliases(old(conn.db).aliases, dci.aliasKeys[..i], Alias(id, dci.key.ctype, source))
    {
      assert dci.aliasKeys[..i + 1][..i] == dci.aliasKeys[..i];
      aliases := aliases[dci.aliasKeys[i] := Alias(id, dci.key.ctype, source)];
    }
    assert dci.aliasKeys[..|dci.aliasKeys|] == dci.aliasKeys;
    conn.db := conn.db.(sourceKeys := conn.db.sourceKeys[SourceKey(source, dci.key.externalId) := id], aliases := aliases);
  }

  /** The CI that every such alias leads to, if there is one and it is open and of that type. */
  method FindCanonical(cis: CiRepository, dci: DiscoveredCi, source: string) returns (canonical: Option<CiRow>)
    requires Coherent(cis.conn.db.cis, cis.conn.db.now)
    ensures canonical == ResolveCanonical(cis.conn.db, dci, source)
    ensures forall r :: canonical == Some(r) <==>
              && r in cis.conn.db.cis && r.Open() && r.key.ctype == dci.key.ctype
              && (exists a :: Registered(cis.conn.db.aliases, dci, source, a) && cis.conn.db.aliases[a].ciId == r.id)
              && (forall a :: Registered(cis.conn.db.aliases, dci, source, a) ==> cis.conn.db.aliases[a].ciId == r.id)
  {
    var aliases := cis.conn.db.aliases;
    var ids: set<nat> := {};
    for i := 0 to |dci.aliasKeys|
      invariant ids == set k | k in dci.aliasKeys[..i] && k in aliases && aliases[k].ctype == dci.key.ctype
                               && aliases[k].source != source :: aliases[k].ciId
    {
      var k := dci.aliasKeys[i];
      assert dci.aliasKeys[..i + 1] == dci.aliasKeys[..i] + [k];
      if k in aliases && aliases[k].ctype == dci.key.ctype && aliases[k].source != source { ids := ids + {aliases[k].ciId}; }
    }
    assert dci.aliasKeys[..|dci.aliasKeys|] == dci.aliasKeys;
    assert ids == AliasCandidates(aliases, dci, source);
    CanonicalIs(cis.conn.db, dci, source);
    if |ids| != 1 { return None; }
    var id :| id in ids;
    forall other | other in ids ensures other == id { OnlyOne(ids, other, id); }
    canonical := cis.GetCurrentById(id);
    if canonical.Some? && canonical.value.key.ctype != dci.key.ctype { canonical := None; }
  }

  lemma TablesCoherent(db: Db)
    requires Tables(db)
    ensures Coherent(db.cis, db.now) && Coherent(db.edges, db.now)
  {
    hide Coherent;
  }

  /* ---------------------------------------------------------------- discovered CIs */

  lemma {:induction false} DiscoverAborts(db: Db, cis: seq<DiscoveredCi>, source: string, n: nat)
    requires n <= |cis| && DiscoverCis(db, cis[..n], source).Abort?
    ensures DiscoverCis(db, cis, source).Abort?
    decreases |cis|
  {
    hide DiscoverCi;
    if n < |cis| {
      assert cis[..|cis| - 1][..n] == cis[..n];
      DiscoverAborts(db, cis[..|cis| - 1], source, n);
    } else {
      assert cis[..n] == cis;
    }
  }

  /** One event: a native match, else an alias match, else a new CI. */
  method Discover(cis: CiRepository, p: CiPhase, dci: DiscoveredCi, source: string) returns (result: Outcome<CiPhase>)
    requires cis.conn.db == p.db && Tables(p.db)
    modifies cis.conn
    ensures result == DiscoverCi(p, dci, source)
    ensures result.Ok? ==> cis.conn.db == result.value.db
  {
    hide UpsertCi, ResolveCanonical, Tables, Bind, OpenMap, Coherent;
    TablesCoherent(p.db);
    var existing := cis.GetCurrent(dci.key);
    var canonical := if existing.Some? then existing else None;
    if existing.None? { canonical := FindCanonical(cis, dci, source); }
    var key := if canonical.Some? then canonical.value.key else dci.key;
    var up := cis.Upsert(key, dci.name, dci.attributes);
    if up.Abort? { return Abort; }
    var stored := up.value;
    BindIdentity(cis.conn, source, dci, stored.id);
    if existing.None? && canonical.Some? {
      cis.conn.db := cis.conn.db.(merges := cis.conn.db.merges + [Merge(stored.id, source, dci.key.externalId)]);
    }
    assert existing.Some? || canonical.None? ==> cis.conn.db.merges + [] == cis.conn.db.merges;
    var created, updated, same := p.created, p.updated, p.same;
    if canonical.None? {
      created := created + 1;
    } else if canonical.value.validFrom != stored.validFrom {
      updated := updated + 1;
    } else {
      same := same + 1;
    }
    result := Ok(CiPhase(cis.conn.db, p.idByKey[dci.key := stored.id][key := stored.id], p.seen + {key}, p.stored + [stored],
                         created, updated, same));
  }

  lemma PhaseTables(start: Db, p: CiPhase)
    requires CiInv(start, p)
    ensures Tables(p.db)
  {
    hide Tables;
  }

  method DiscoverEach(cis: CiRepository, events: seq<DiscoveredCi>, source: string) returns (result: Outcome<CiPhase>)
    requires Tables(cis.conn.db)
    modifies cis.conn
    ensures result == DiscoverCis(old(cis.conn.db), events, source)
    ensures result.Ok? ==> cis.conn.db == result.value.db
  {
    hide Tables, DiscoverCi, CiInv;
    ghost var start := cis.conn.db;
    var p := CiPhase(cis.conn.db, map[], {}, [], 0, 0, 0);
    for i := 0 to |events|
      invariant cis.conn.db == p.db && DiscoverCis(start, events[..i], source) == Ok(p)
    {
      DiscoverAll(start, events[..i], source);
      PhaseTables(start, p);
      assert events[..i + 1][..i] == events[..i];
      var next := Discover(cis, p, events[i], source);
      if next.Abort? {
        DiscoverAborts(start, events, source, i + 1);
        return Abort;
      }
      p := next.value;
    }
    assert events[..|events|] == events;
    result := Ok(p);
  }

  /* ---------------------------------------------------------------- closing CIs */

  lemma CloseTwice<K, P>(rows: Rows<K, P>, a: set<K>, b: set<K>, now: int)
    ensures CloseMany(CloseMany(rows, a, now), b, now) == CloseMany(rows, a + b, now)
  {
    var mid := CloseMany(rows, a, now);
    forall r | r in rows
      ensures ClosedIf(ClosedIf(r, a, now), b, now) == ClosedIf(r, a + b, now)
      ensures ClosedIf(r, a + b, now) in CloseMany(mid, b, now) && ClosedIf(ClosedIf(r, a, now), b, now) in CloseMany(rows, a + b, now)
    {
      assert ClosedIf(r, a, now) in mid;
    }
  }

  lemma CloseCisTwice(db: Db, a: set<CiKey>, b: set<CiKey>)
    ensures CloseCis(CloseCis(db, a), b) == CloseCis(db, a + b)
  {
    CloseTwice(db.cis, a, b, db.now);
    hide CloseMany;
  }

  lemma CloseEdgesTwice(db: Db, a: set<EdgeKey>, b: set<EdgeKey>)
    ensures CloseEdges(CloseEdges(db, a), b) == CloseEdges(db, a + b)
  {
    CloseTwice(db.edges, a, b, db.now);
    hide CloseMany;
  }

  lemma CloseNone(db: Db)
    ensures CloseCis(db, {}) == db && CloseEdges(db, {}) == db
  {
    CloseManyNone(db.cis, db.now);
    CloseManyNone(db.edges, db.now);
    hide CloseMany;
  }

  ghost function CiKeySet(rows: seq<CiRow>): set<CiKey> { set r | r in rows :: r.key }

  /** Open rows of different keys. */
  ghost predicate OpenRows(cis: Rows<CiKey, CiData>, rows: seq<CiRow>) {
    && (forall r :: r in rows ==> r in cis && r.Open())
    && (forall i, j :: 0 <= i < j < |rows| ==> rows[i].key != rows[j].key)
  }

  /** The open CIs of some types. */
  method OpenOfTypes(cis: CiRepository, types: set<CiType>) returns (rows: seq<CiRow>)
    requires Coherent(cis.conn.db.cis, cis.conn.db.now)
    ensures OpenRows(cis.conn.db.cis, rows)
    ensures forall r :: r in rows <==> r in cis.conn.db.cis && r.Open() && r.key.ctype in types
  {
    rows := Listing(set r | r in cis.conn.db.cis && r.Open() && r.key.ctype in types);
    DistinctKeys(cis.conn.db.cis, cis.conn.db.now, rows);
  }

  lemma DistinctKeys(cis: Rows<CiKey, CiData>, now: int, rows: seq<CiRow>)
    requires Coherent(cis, now) && forall r :: r in rows ==> r in cis && r.Open()
    requires forall i, j :: 0 <= i < j < |rows| ==> rows[i] != rows[j]
    ensures OpenRows(cis, rows)
  {
    hide Coherent;
    forall i, j | 0 <= i < j < |rows| ensures rows[i].key != rows[j].key { OneOpenApart(cis, now, rows[i], rows[j]); }
  }

  lemma CiKeysAppend(rows: seq<CiRow>, r: CiRow)
    ensures CiKeySet(rows + [r]) == CiKeySet(rows) + {r.key}
  {
    assert forall x :: x in rows + [r] <==> x in rows || x == r;
  }

  /** Close the CIs in scope that were not observed and belong to the source. */
  method CloseUnseenCis(cis: CiRepository, p: CiPhase, b: Batch) returns (closed: seq<CiRow>)
    requires cis.conn.db == p.db && Coherent(p.db.cis, p.db.now) && Tables(p.db)
    modifies cis.conn
    ensures cis.conn.db == CloseCis(p.db, CisToClose(p, b))
    ensures OpenRows(p.db.cis, closed) && CiKeySet(closed) == CisToClose(p, b)
  {
    hide Tables, CloseCis, Coherent, CiKeySet, OpenRows, OpenMap, Stable, CiView, IdsUnder, CisToClose;
    var owned := set k | k in p.db.sourceKeys && k.source == b.source :: p.db.sourceKeys[k];
    var rows := OpenOfTypes(cis, b.ciTypes);
    closed := [];
    CloseNone(p.db);
    NoRows(p.db.cis);
    for i := 0 to |rows|
      invariant cis.conn.db == CloseCis(p.db, CiKeySet(closed))
      invariant OpenRows(p.db.cis, closed)
      invariant forall r :: r in closed <==> r in rows[..i] && r.key !in p.seen && r.id in owned
    {
      var current := rows[i];
      assert rows[..i + 1] == rows[..i] + [current];
      if current.key !in p.seen && current.id in owned {
        CloseCisEffect(p.db, CiKeySet(closed));
        TablesCoherent(cis.conn.db);
        var was := cis.Close(current.key);
        CloseCisTwice(p.db, CiKeySet(closed), {current.key});
        CiKeysAppend(closed, current);
        AnotherRow(p.db.cis, rows, i, closed);
        closed := closed + [current];
      }
    }
    assert rows[..|rows|] == rows;
    ClosedUnseen(p, b, rows, closed, owned);
  }

  lemma NoRows(cis: Rows<CiKey, CiData>)
    ensures CiKeySet([]) == {} && OpenRows(cis, [])
  {
  }

  lemma AnotherRow(cis: Rows<CiKey, CiData>, rows: seq<CiRow>, i: nat, closed: seq<CiRow>)
    requires OpenRows(cis, rows) && OpenRows(cis, closed) && i < |rows| && forall r :: r in closed ==> r in rows[..i]
    ensures OpenRows(cis, closed + [rows[i]])
  {
    forall j | 0 <= j < |closed| ensures closed[j].key != rows[i].key {
      assert closed[j] in closed;
      var k :| 0 <= k < i && rows[..i][k] == closed[j];
    }
  }

  lemma ClosedUnseen(p: CiPhase, b: Batch, rows: seq<CiRow>, closed: seq<CiRow>, owned: set<nat>)
    requires Coherent(p.db.cis, p.db.now) && owned == OwnedBy(p.db.sourceKeys, b.source)
    requires forall r :: r in rows <==> r in p.db.cis && r.Open() && r.key.ctype in b.ciTypes
    requires forall r :: r in closed <==> r in rows && r.key !in p.seen && r.id in owned
    ensures CiKeySet(closed) == CisToClose(p, b)
  {
    forall r | r in closed ensures r.key in CisToClose(p, b) { OpenRow(p.db.cis, p.db.now, r); }
    forall k | k in CisToClose(p, b) ensures k in CiKeySet(closed) { OpenMapRow(p.db.cis, k); assert OpenMap(p.db.cis)[k] in closed; }
  }

  lemma {:induction false} CiCount(cis: Rows<CiKey, CiData>, rows: seq<CiRow>)
    requires OpenRows(cis, rows)
    ensures |CiKeySet(rows)| == |rows|
    decreases |rows|
  {
    if rows == [] {
      assert CiKeySet([]) == {};
    } else {
      var init, r := rows[..|rows| - 1], rows[|rows| - 1];
      assert rows == init + [r];
      CiCount(cis, init);
      CiKeysAppend(init, r);
    }
  }

  lemma {:induction false} EdgeCount(rows: seq<EdgeRow>)
    requires forall i, j :: 0 <= i < j < |rows| ==> rows[i].key != rows[j].key
    ensures |KeySet(rows)| == |rows|
    decreases |rows|
  {
    if rows == [] {
      assert KeySet([]) == {};
    } else {
      var init, r := rows[..|rows| - 1], rows[|rows| - 1];
      assert rows == init + [r];
      EdgeCount(init);
      KeySetAppend(init, r);
    }
  }

  lemma ClosedIds(db: Db, closed: seq<CiRow>)
    requires Tables(db) && OpenRows(db.cis, closed)
    ensures IdSet(closed) == IdsUnder(db.cis, CiKeySet(closed))
  {
    hide Tables, CiView, Coherent;
    forall r | r in closed ensures r.id in IdsUnder(db.cis, CiKeySet(closed)) { IdUnderKey(db, r, r.id); }
    forall i | i in IdsUnder(db.cis, CiKeySet(closed)) ensures i in IdSet(closed) {
      var r :| r in closed && r.key == CiView(db.cis)[i];
      IdUnderKey(db, r, i);
    }
  }

  lemma IdUnderKey(db: Db, r: CiRow, i: nat)
    requires Tables(db) && r in db.cis && r.Open()
    ensures r.id in CiView(db.cis) && CiView(db.cis)[r.id] == r.key
    ensures i in CiView(db.cis) && CiView(db.cis)[i] == r.key ==> r.id == i
  {
    TablesCoherent(db);
    hide Tables, CiView, Coherent;
    CiViewIs(db.cis, db.now, r.id, r);
    if i in CiView(db.cis) && CiView(db.cis)[i] == r.key {
      var s :| s in db.cis && s.Open() && s.id == i;
      CiViewIs(db.cis, db.now, i, s);
      OneOpen(db.cis, db.now, r, s);
    }
  }

  /* ---------------------------------------------------------------- observed edges */

  /** The run's cache, then the current CI, then a source key whose CI is still open. */
  method Resolve(cis: CiRepository, idByKey: map<CiKey, nat>, order: RowOrder, ref: CiKey) returns (id: Option<nat>)
    requires Coherent(cis.conn.db.cis, cis.conn.db.now)
    ensures id == ResolveRef(cis.conn.db, idByKey, order, ref)
  {
    if ref in idByKey { return Some(idByKey[ref]); }
    var existing := cis.GetCurrent(ref);
    if existing.Some? { return Some(existing.value.id); }
    var k := SourceKey(order(ref.externalId), ref.externalId);
    if k in cis.conn.db.sourceKeys {
      var canonical := cis.GetCurrentById(cis.conn.db.sourceKeys[k]);
      if canonical.Some? { return Some(canonical.value.id); }
    }
    id := None;
  }

  method Target(cis: CiRepository, idByKey: map<CiKey, nat>, order: RowOrder, de: DiscoveredEdge) returns (key: Option<EdgeKey>)
    requires Coherent(cis.conn.db.cis, cis.conn.db.now)
    ensures key == EdgeTarget(cis.conn.db, idByKey, order, de)
  {
    hide Coherent, ResolveRef;
    var f := Resolve(cis, idByKey, order, de.from);
    var t := Resolve(cis, idByKey, order, de.to);
    key := if f.Some? && t.Some? then Some(EdgeKey(de.etype, f.value, t.value, de.edgeKey)) else None;
  }

  /** Upsert the observed edges; an edge without both endpoints is skipped, or is an error. */
  method WriteEach(cis: CiRepository, edgeRepo: EdgeRepository, c: CiPhase, order: RowOrder, edges: seq<DiscoveredEdge>, strict: bool)
    returns (result: Outcome<EdgePhase>)
    requires cis.conn == edgeRepo.conn && Tables(cis.conn.db)
    requires forall k :: k in c.idByKey ==> c.idByKey[k] in CiView(cis.conn.db.cis)
    modifies cis.conn
    ensures result == if strict then WriteEdgesStrictly(old(cis.conn.db), c.idByKey, order, edges)
                      else WriteEdges(old(cis.conn.db), c.idByKey, order, edges)
    ensures result.Ok? ==> cis.conn.db == result.value.db
  {
    hide Tables, UpsertEdge, EdgeTarget, EdgeInv, CiView, Coherent;
    ghost var start := cis.conn.db;
    var p := EdgePhase(cis.conn.db, {}, []);
    for i := 0 to |edges|
      invariant cis.conn.db == p.db
      invariant Written(start, c.idByKey, order, edges[..i], strict) == Ok(p)
    {
      assert edges[..i + 1][..i] == edges[..i];
      WrittenTables(start, c.idByKey, order, edges[..i], strict);
      TablesCoherent(p.db);
      var key := Target(cis, c.idByKey, order, edges[i]);
      if key.None? {
        if strict {
          WriteAborts(start, c.idByKey, order, edges, strict, i + 1);
          return Abort;
        }
      } else {
        var stored := edgeRepo.Upsert(key.value, edges[i].data);
        if stored.Abort? {
          WriteAborts(start, c.idByKey, order, edges, strict, i + 1);
          return Abort;
        }
        p := EdgePhase(cis.conn.db, p.seen + {key.value}, p.stored + [stored.value]);
      }
    }
    assert edges[..|edges|] == edges;
    result := Ok(p);
  }

  ghost function Written(db: Db, idByKey: map<CiKey, nat>, order: RowOrder, edges: seq<DiscoveredEdge>, strict: bool): Outcome<EdgePhase> {
    if strict then WriteEdgesStrictly(db, idByKey, order, edges) else WriteEdges(db, idByKey, order, edges)
  }

  lemma WrittenTables(db: Db, idByKey: map<CiKey, nat>, order: RowOrder, edges: seq<DiscoveredEdge>, strict: bool)
    requires Tables(db) && forall k :: k in idByKey ==> idByKey[k] in CiView(db.cis)
    ensures Written(db, idByKey, order, edges, strict).Ok? ==> Tables(Written(db, idByKey, order, edges, strict).value.db)
  {
    hide Tables, CiView, WriteEdges, WriteEdgesStrictly;
    StrictWrites(db, idByKey, order, edges);
    WriteAll(db, idByKey, order, edges);
  }

  lemma {:induction false} WriteAborts(db: Db, idByKey: map<CiKey, nat>, order: RowOrder, edges: seq<DiscoveredEdge>, strict: bool, n: nat)
    requires n <= |edges| && Written(db, idByKey, order, edges[..n], strict).Abort?
    ensures Written(db, idByKey, order, edges, strict).Abort?
    decreases |edges|
  {
    hide WriteEdge, WriteEdgeStrictly;
    if n < |edges| {
      assert edges[..|edges| - 1][..n] == edges[..n];
      WriteAborts(db, idByKey, order, edges[..|edges| - 1], strict, n);
    } else {
      assert edges[..n] == edges;
    }
  }

  /** Close the open edges of the given types that were not observed. */
  method CloseUnseenEdges(edgeRepo: EdgeRepository, p: EdgePhase, b: Batch) returns (closed: seq<EdgeRow>)
    requires edgeRepo.conn.db == p.db && Tables(p.db)
    modifies edgeRepo.conn
    ensures edgeRepo.conn.db == CloseEdges(p.db, EdgesToClose(p, b))
    ensures KeySet(closed) == EdgesToClose(p, b) && |closed| == |EdgesToClose(p, b)|
  {
    hide Tables, CloseEdges, Coherent, OpenMap, KeySet, Stable, EdgeView, EdgesToClose;
    TablesCoherent(p.db);
    var rows := edgeRepo.GetCurrent();
    closed := [];
    CloseNone(p.db);
    NoEdgeRows();
    for i := 0 to |rows|
      invariant edgeRepo.conn.db == CloseEdges(p.db, KeySet(closed))
      invariant forall r :: r in closed <==> r in rows[..i] && r.key.etype in b.edgeTypes && r.key !in p.seen
      invariant forall k, j :: 0 <= k < j < |closed| ==> closed[k].key != closed[j].key
    {
      var current := rows[i];
      assert rows[..i + 1] == rows[..i] + [current];
      if current.key.etype in b.edgeTypes && current.key !in p.seen {
        CloseEdgesEffect(p.db, KeySet(closed));
        TablesCoherent(edgeRepo.conn.db);
        var was := edgeRepo.Close(current.key);
        CloseEdgesTwice(p.db, KeySet(closed), {current.key});
        KeySetAppend(closed, current);
        NewKey(rows, i, closed);
        closed := closed + [current];
      }
    }
    assert rows[..|rows|] == rows;
    ClosedUnseenEdges(p, b, rows, closed);
    EdgeCount(closed);
  }

  lemma NoEdgeRows()
    ensures KeySet([]) == {}
  {
  }

  lemma NewKey(rows: seq<EdgeRow>, i: nat, closed: seq<EdgeRow>)
    requires i < |rows| && (forall k, j :: 0 <= k < j < |rows| ==> rows[k].key != rows[j].key)
    requires forall r :: r in closed ==> r in rows[..i]
    ensures forall j :: 0 <= j < |closed| ==> closed[j].key != rows[i].key
  {
    forall j | 0 <= j < |closed| ensures closed[j].key != rows[i].key {
      assert closed[j] in closed;
      var k :| 0 <= k < i && rows[..i][k] == closed[j];
    }
  }

  lemma ClosedUnseenEdges(p: EdgePhase, b: Batch, rows: seq<EdgeRow>, closed: seq<EdgeRow>)
    requires Lists(p.db.edges, OpenMap(p.db.edges).Keys, rows)
    requires forall r :: r in closed <==> r in rows && r.key.etype in b.edgeTypes && r.key !in p.seen
    ensures KeySet(closed) == EdgesToClose(p, b)
  {
    hide OpenMap;
    assert EdgeView(p.db.edges).Keys == OpenMap(p.db.edges).Keys;
    forall k | k in EdgesToClose(p, b) ensures k in KeySet(closed) {
      assert k in KeySet(rows);
      var r :| r in rows && r.key == k;
      assert r in closed;
    }
  }

  /* ---------------------------------------------------------------- the two entry points */

  /** A whole reconcile call; an error rolls the transaction back. */
  method Reconcile(conn: Connection, b: Batch, order: RowOrder) returns (result: Outcome<Result>)
    requires Tables(conn.db)
    modifies conn
    ensures match Reconciling.Reconcile(old(conn.db), b, order)
            case Ok((after, r)) => result == Ok(r) && conn.db == after
            case Abort => result == Abort && conn.db == old(conn.db)
  {
    hide Tables, CiInv, EdgeInv, DiscoverCis, WriteEdges, CloseCis, CloseEdges, Project, CisToClose, EdgesToClose, IdsUnder, CiView, Coherent;
    var start := conn.db;
    var cis := new CiRepository(conn);
    var edgeRepo := new EdgeRepository(conn);
    var discovered := DiscoverEach(cis, b.cis, b.source);
    if discovered.Abort? {
      conn.db := start;
      return Abort;
    }
    var c := discovered.value;
    DiscoverAll(start, b.cis, b.source);
    PhaseTables(start, c);
    TablesCoherent(c.db);
    var closedCis := CloseUnseenCis(cis, c, b);
    ReadyForEdges(start, c, b);
    var written := WriteEach(cis, edgeRepo, c, order, b.edges, false);
    if written.Abort? {
      conn.db := start;
      return Abort;
    }
    var e := written.value;
    WriteAll(CloseCis(c.db, CisToClose(c, b)), c.idByKey, order, b.edges);
    EdgeTables(CloseCis(c.db, CisToClose(c, b)), e);
    var closedEdges := CloseUnseenEdges(edgeRepo, e, b);
    ClosedIds(c.db, closedCis);
    CiCount(c.db.cis, closedCis);
    ProjectInto(conn, c.stored, e.stored, closedCis, closedEdges);
    result := Ok(Result(c.created, c.updated, c.same, |closedCis|, |e.stored|, |closedEdges|));
  }

  lemma ReadyForEdges(start: Db, c: CiPhase, b: Batch)
    requires CiInv(start, c)
    ensures Tables(CloseCis(c.db, CisToClose(c, b)))
    ensures forall k :: k in c.idByKey ==> c.idByKey[k] in CiView(CloseCis(c.db, CisToClose(c, b)).cis)
  {
    hide Tables, CiView, CloseCis, OpenMap, Stable, KeysOf, IdsPersist, OldOrFresh;
    CloseCisEffect(c.db, CisToClose(c, b));
    CacheSurvives(c, CisToClose(c, b));
  }

  /* ---------------------------------------------------------------- the delta */

  /** Close the named CIs; a name that is not open is ignored. */
  method CloseNamedCis(cis: CiRepository, d: Delta) returns (closed: seq<CiRow>)
    requires Tables(cis.conn.db)
    modifies cis.conn
    ensures cis.conn.db == CloseCis(old(cis.conn.db), Removed(d))
    ensures OpenRows(old(cis.conn.db).cis, closed) && CiKeySet(closed) == Removed(d) * OpenKeys(old(cis.conn.db).cis)
  {
    hide Tables, CloseCis, Coherent, OpenMap, OpenKeys;
    ghost var start := cis.conn.db;
    closed := [];
    CloseNone(start);
    assert CiKeySet([]) == {} && Named([]) == {};
    for i := 0 to |d.removedCis|
      invariant cis.conn.db == CloseCis(start, Named(d.removedCis[..i]))
      invariant OpenRows(start.cis, closed) && CiKeySet(closed) == Named(d.removedCis[..i]) * OpenKeys(start.cis)
    {
      var key := d.removedCis[i];
      assert d.removedCis[..i + 1] == d.removedCis[..i] + [key];
      NamedMore(d.removedCis[..i], key);
      CloseCisEffect(start, Named(d.removedCis[..i]));
      TablesCoherent(cis.conn.db);
      var before := cis.GetCurrent(key);
      var was := cis.Close(key);
      CloseCisTwice(start, Named(d.removedCis[..i]), {key});
      if was && before.Some? {
        StillThatRow(start, Named(d.removedCis[..i]), key, before.value);
        CiKeysAppend(closed, before.value);
        closed := closed + [before.value];
      }
    }
    assert d.removedCis[..|d.removedCis|] == d.removedCis;
  }

  ghost function Named(keys: seq<CiKey>): set<CiKey> { set k | k in keys }

  lemma NamedMore(keys: seq<CiKey>, key: CiKey)
    ensures Named(keys + [key]) == Named(keys) + {key}
  {
    assert forall x :: x in keys + [key] <==> x in keys || x == key;
  }

  lemma StillThatRow(db: Db, keys: set<CiKey>, key: CiKey, r: CiRow)
    requires Tables(db) && Current(CloseCis(db, keys).cis, key) == Some(r)
    ensures r in db.cis && r.Open() && r.key == key && key in OpenKeys(db.cis) && key !in keys
  {
    var s := Preimage(db.cis, keys, db.now, r);
  }

  method Named1(cis: CiRepository, idByKey: map<CiKey, nat>, order: RowOrder, ref: EdgeRef) returns (key: Option<EdgeKey>)
    requires Coherent(cis.conn.db.cis, cis.conn.db.now)
    ensures key == RefKey(cis.conn.db, idByKey, order, ref)
  {
    hide Coherent, ResolveRef;
    var f := Resolve(cis, idByKey, order, ref.from);
    var t := Resolve(cis, idByKey, order, ref.to);
    key := if f.Some? && t.Some? then Some(EdgeKey(ref.etype, f.value, t.value, "")) else None;
  }

  /** The first open row of the type between the two CIs, in the order the scan meets them. */
  method FirstOf(edgeRepo: EdgeRepository, key: EdgeKey, first: Scan) returns (matching: Option<EdgeRow>)
    requires Coherent(edgeRepo.conn.db.edges, edgeRepo.conn.db.now)
    ensures key in OpenMap(edgeRepo.conn.db.edges) ==>
              matching.Some? && matching.value.key == FirstMatch(OpenKeys(edgeRepo.conn.db.edges), first, key)
  {
    hide Coherent;
    matching := edgeRepo.Find(key.(edgeKey := first(key.etype, key.fromId, key.toId)));
    if matching.None? { matching := edgeRepo.Find(key); }
  }

  lemma RefCarriesOver(a: Db, b: Db, idByKey: map<CiKey, nat>, order: RowOrder, ref: EdgeRef)
    requires a.cis == b.cis && a.sourceKeys == b.sourceKeys
    ensures RefKey(a, idByKey, order, ref) == RefKey(b, idByKey, order, ref)
  {
  }

  lemma RemovedMore(db: Db, idByKey: map<CiKey, nat>, order: RowOrder, refs: seq<EdgeRef>, ref: EdgeRef)
    ensures var key := RefKey(db, idByKey, order, ref);
            RemovedKeys(db, idByKey, order, refs + [ref]) ==
              RemovedKeys(db, idByKey, order, refs) + (if key.Some? && key.value in OpenMap(db.edges) then {key.value} else {})
  {
    hide RefKey, OpenMap;
    assert forall x :: x in refs + [ref] <==> x in refs || x == ref;
  }

  lemma PlainKeys(db: Db, idByKey: map<CiKey, nat>, order: RowOrder, refs: seq<EdgeRef>)
    ensures forall k :: k in RemovedKeys(db, idByKey, order, refs) ==> k.edgeKey == "" && k in OpenMap(db.edges)
  {
    hide ResolveRef, OpenMap;
  }

  /** Closing other edges first does not change which row a scan meets first. */
  lemma FirstUnaffected(all: set<EdgeKey>, done: set<EdgeKey>, first: Scan, k: EdgeKey)
    requires k in all && k !in done && k.edgeKey == "" && forall j :: j in done ==> j.edgeKey == ""
    ensures FirstMatch(all - done, first, k) == FirstMatch(all, first, k)
  {
  }

  /** Matches of different removed edges differ. */
  lemma FirstMore(all: set<EdgeKey>, done: set<EdgeKey>, first: Scan, k: EdgeKey)
    ensures FirstMatches(all, first, done + {k}) == FirstMatches(all, first, done) + {FirstMatch(all, first, k)}
  {
    hide FirstMatch;
  }

  /** Close the named edges, remembering the first match of each. */
  method CloseNamedEdges(cis: CiRepository, edgeRepo: EdgeRepository, idByKey: map<CiKey, nat>, order: RowOrder, first: Scan, refs: seq<EdgeRef>)
    returns (closed: seq<EdgeRow>)
    requires cis.conn == edgeRepo.conn && Tables(cis.conn.db)
    modifies cis.conn
    ensures var keys := RemovedKeys(old(cis.conn.db), idByKey, order, refs);
            && cis.conn.db == CloseEdges(old(cis.conn.db), keys) && |closed| == |keys|
            && KeySet(closed) == FirstMatches(OpenKeys(old(cis.conn.db).edges), first, keys)
  {
    hide Tables, CloseEdges, Coherent, OpenMap, OpenKeys, RefKey, RemovedKeys, FirstMatch, FirstMatches;
    ghost var start := cis.conn.db;
    ghost var done: set<EdgeKey> := {};
    closed := [];
    CloseNone(start);
    NothingNamed(start, idByKey, order, first);
    for i := 0 to |refs|
      invariant cis.conn.db == CloseEdges(start, done) && done == RemovedKeys(start, idByKey, order, refs[..i])
      invariant KeySet(closed) == FirstMatches(OpenKeys(start.edges), first, done) && |closed| == |done|
    {
      assert refs[..i + 1] == refs[..i] + [refs[i]];
      RemovedMore(start, idByKey, order, refs[..i], refs[i]);
      PlainKeys(start, idByKey, order, refs[..i]);
      CloseEdgesEffect(start, done);
      TablesCoherent(cis.conn.db);
      CloseFrame(start, done);
      RefCarriesOver(start, cis.conn.db, idByKey, order, refs[i]);
      var key := Named1(cis, idByKey, order, refs[i]);
      if key.Some? {
        PlainRef(start, idByKey, order, refs[i]);
        var matching := FirstOf(edgeRepo, key.value, first);
        var was := edgeRepo.Close(key.value);
        if was && matching.Some? {
          FirstUnaffected(OpenKeys(start.edges), done, first, key.value);
          FirstMore(OpenKeys(start.edges), done, first, key.value);
          KeySetAppend(closed, matching.value);
          CloseEdgesTwice(start, done, {key.value});
          closed, done := closed + [matching.value], done + {key.value};
        } else {
          ClosedAlready(start, done, key.value);
        }
      }
    }
    assert refs[..|refs|] == refs;
  }

  lemma NothingNamed(db: Db, idByKey: map<CiKey, nat>, order: RowOrder, first: Scan)
    ensures RemovedKeys(db, idByKey, order, []) == {} && KeySet([]) == FirstMatches(OpenKeys(db.edges), first, {}) == {}
  {
    hide RefKey, OpenMap, FirstMatch;
  }

  lemma PlainRef(db: Db, idByKey: map<CiKey, nat>, order: RowOrder, ref: EdgeRef)
    ensures RefKey(db, idByKey, order, ref).Some? ==> RefKey(db, idByKey, order, ref).value.edgeKey == ""
  {
    hide ResolveRef;
  }

  /** Closing an edge that is not open changes nothing. */
  lemma ClosedAlready(db: Db, done: set<EdgeKey>, key: EdgeKey)
    requires Tables(db) && key !in OpenMap(CloseEdges(db, done).edges)
    ensures CloseEdges(CloseEdges(db, done), {key}) == CloseEdges(db, done)
    ensures key in OpenMap(db.edges) ==> key in done
  {
    CloseEdgesEffect(db, done);
    var mid := CloseEdges(db, done);
    forall r | r in mid.edges && r.Open() ensures r.key != key { OpenRow(mid.edges, mid.now, r); }
    hide Tables, Coherent, OpenMap, CloseMany, EdgeView, Stable;
    CloseManyAbsent(mid.edges, mid.now, key);
  }

  /** A whole delta; an error rolls the transaction back. */
  method ApplyDelta(conn: Connection, d: Delta, order: RowOrder, first: Scan) returns (result: Outcome<DeltaResult>)
    requires Tables(conn.db)
    modifies conn
    ensures match Deltas.ApplyDelta(old(conn.db), d, order, first)
            case Ok((after, r)) => result == Ok(r) && conn.db == after
            case Abort => result == Abort && conn.db == old(conn.db)
  {
    hide Tables, CiInv, EdgeInv, DiscoverCis, WriteEdges, WriteEdgesStrictly, CloseCis, CloseEdges, Project, IdsUnder, CiView, Coherent,
         RemovedKeys, FirstMatches, Removed, OpenKeys, OpenMap;
    var start := conn.db;
    var cis := new CiRepository(conn);
    var edgeRepo := new EdgeRepository(conn);
    var discovered := DiscoverEach(cis, d.cis, d.source);
    if discovered.Abort? {
      conn.db := start;
      return Abort;
    }
    var c := discovered.value;
    DiscoverAll(start, d.cis, d.source);
    DeltaReady(start, c);
    var written := WriteEach(cis, edgeRepo, c, order, d.edges, true);
    if written.Abort? {
      conn.db := start;
      return Abort;
    }
    var e := written.value;
    WrittenTables(c.db, c.idByKey, order, d.edges, true);
    var closedCis := CloseNamedCis(cis, d);
    CloseCisEffect(e.db, Removed(d));
    var closedEdges := CloseNamedEdges(cis, edgeRepo, c.idByKey, order, first, d.removedEdges);
    ClosedIds(e.db, closedCis);
    CiCount(e.db.cis, closedCis);
    UnderOpen(e.db, Removed(d));
    EdgesStay(e.db, Removed(d));
    ProjectInto(conn, c.stored, e.stored, closedCis, closedEdges);
    result := Ok(DeltaResult(c.created, c.updated, c.same, |closedCis|, |e.stored|, |closedEdges|));
  }

  lemma EdgesStay(db: Db, keys: set<CiKey>)
    ensures CloseCis(db, keys).edges == db.edges
  {
  }

  lemma UnderOpen(db: Db, keys: set<CiKey>)
    requires Tables(db)
    ensures IdsUnder(db.cis, keys * OpenKeys(db.cis)) == IdsUnder(db.cis, keys)
  {
    TablesCoherent(db);
    hide Tables, Coherent, CiView;
    forall i | i in CiView(db.cis) ensures CiView(db.cis)[i] in OpenKeys(db.cis) {
      var r :| r in db.cis && r.Open() && r.id == i;
      CiViewIs(db.cis, db.now, i, r);
    }
  }

  lemma DeltaReady(start: Db, c: CiPhase)
    requires CiInv(start, c)
    ensures Tables(c.db) && forall k :: k in c.idByKey ==> c.idByKey[k] in CiView(c.db.cis)
  {
    hide Tables, CiView, OpenMap, Stable, KeysOf, IdsPersist, OldOrFresh;
  }
}
