/** The database of one tenant: the bitemporal tables, the identity maps and the projected graph
    (migrations/0001_init.sql, packages/db/src/infra_twin/db/repositories.py,
    services/reconciliation/src/infra_twin/reconciliation/projection.py). The functions say what
    one repository call does to the database; they are total, Abort is a raised error. */
module Store {
  import opened Model
  import opened Observations
  import opened Versions

  datatype CiKey = CiKey(ctype: CiType, externalId: string)

  datatype CiData = CiData(name: Option<string>, attributes: map<string, string>, confidence: real, firstSeen: int)

  type CiRow = Version<CiKey, CiData>

  datatype EdgeKey = EdgeKey(etype: EdgeType, fromId: nat, toId: nat, edgeKey: string)

  type EdgeRow = Version<EdgeKey, EdgeData>

  datatype SourceKey = SourceKey(source: string, nativeId: string)

  datatype Alias = Alias(ciId: nat, ctype: CiType, source: string)

  /** One row of ci_merges; the merge id is its position. */
  datatype Merge = Merge(canonical: nat, source: string, externalId: string)

  datatype Status = Pending | Accepted(mergeId: nat) | Dismissed

  datatype Candidate = Candidate(ciA: nat, ciB: nat, status: Status)

  datatype Vertex = Vertex(ctype: CiType, externalId: string, name: Option<string>)

  datatype GraphEdge = GraphEdge(source: EdgeSource, confidence: real)

  datatype Graph = Graph(vertices: map<nat, Vertex>, edges: map<EdgeKey, GraphEdge>)

  /** `now` is the transaction time; ids below `nextId` are taken, so a new id is fresh. */
  datatype Db = Db(now: int, nextId: nat, cis: Rows<CiKey, CiData>, edges: Rows<EdgeKey, EdgeData>,
                   sourceKeys: map<SourceKey, nat>, aliases: map<string, Alias>, merges: seq<Merge>,
                   unmerged: set<nat>, candidates: map<nat, Candidate>, graph: Graph)

  datatype Outcome<+T> = Ok(value: T) | Abort

  /* ---------------------------------------------------------------- invariants */

  ghost predicate Tables(db: Db) {
    && Coherent(db.cis, db.now) && Coherent(db.edges, db.now)
    && (forall r :: r in db.cis ==> r.id < db.nextId)
    && (forall r :: r in db.edges ==> r.id < db.nextId && r.key.fromId < db.nextId && r.key.toId < db.nextId)
  }

  /** The open CIs: id to key. */
  ghost function CiView(cis: Rows<CiKey, CiData>): (v: map<nat, CiKey>)
    ensures v.Keys == OpenIds(cis)
  {
    map i | i in OpenIds(cis) :: CurrentById(cis, i).value.key
  }

  function Seen(r: EdgeRow): GraphEdge { GraphEdge(r.data.source, r.data.confidence) }

  /** The open edges: key to what the graph shows of them. */
  ghost function EdgeView(edges: Rows<EdgeKey, EdgeData>): (v: map<EdgeKey, GraphEdge>)
    ensures v.Keys == OpenKeys(edges)
  {
    map k | k in OpenMap(edges) :: Seen(OpenMap(edges)[k])
  }

  /** Edges whose endpoints are both among the ids. */
  ghost function Live(edges: map<EdgeKey, GraphEdge>, ids: set<nat>): map<EdgeKey, GraphEdge> {
    map k | k in edges && k.fromId in ids && k.toId in ids :: edges[k]
  }

  function VertexView(g: Graph): map<nat, CiKey> {
    map i | i in g.vertices :: CiKey(g.vertices[i].ctype, g.vertices[i].externalId)
  }

  /** The graph is the projection of the current state. */
  ghost predicate GraphIs(g: Graph, cis: map<nat, CiKey>, edges: map<EdgeKey, GraphEdge>) {
    VertexView(g) == cis && g.edges == Live(edges, cis.Keys)
  }

  ghost predicate Agree(db: Db) { GraphIs(db.graph, CiView(db.cis), EdgeView(db.edges)) }

  /** A transaction starts strictly after every stored instant. */
  function Begin(db: Db, t: int): Db { db.(now := t) }

  lemma BeginTables(db: Db, t: int)
    requires Tables(db) && db.now <= t
    ensures Tables(Begin(db, t))
  {
  }

  /* ---------------------------------------------------------------- CIRepository */

  predicate CiChanged(r: CiRow, name: Option<string>, attributes: map<string, string>) {
    r.data.name != name || r.data.attributes != attributes || Differ(r.data.confidence, 1.0)
  }

  function NewCi(db: Db, key: CiKey, name: Option<string>, attributes: map<string, string>): CiRow {
    Version(db.nextId, key, CiData(name, attributes, 1.0, db.now), db.now, db.now, None)
  }

  function CiUpdate(r: CiRow, name: Option<string>, attributes: map<string, string>): CiData {
    CiData(name, attributes, 1.0, r.data.firstSeen)
  }

  /** Insert, version or touch. A second version of one id in one transaction breaks the primary key. */
  ghost function UpsertCi(db: Db, key: CiKey, name: Option<string>, attributes: map<string, string>)
    : Outcome<(Db, CiRow)>
  {
    match Current(db.cis, key)
    case None =>
      var r := NewCi(db, key, name, attributes);
      Ok((db.(cis := Insert(db.cis, r), nextId := db.nextId + 1), r))
    case Some(r) =>
      if !CiChanged(r, name, attributes) then
        Ok((db.(cis := Touch(db.cis, r, db.now)), r.(lastSeen := db.now)))
      else if r.validFrom == db.now then Abort
      else
        var d := CiUpdate(r, name, attributes);
        Ok((db.(cis := Supersede(db.cis, r, d, db.now)), NewVersion(r, d, db.now)))
  }

  lemma CiViewIs(cis: Rows<CiKey, CiData>, now: int, id: nat, r: CiRow)
    requires Coherent(cis, now) && r in cis && r.Open() && r.id == id
    ensures id in CiView(cis) && CiView(cis)[id] == r.key
  {
    OpenRow(cis, now, r);
  }

  /** Views depend on the open rows only. */
  lemma CiViewFromMap(cis: Rows<CiKey, CiData>, now: int, v: map<nat, CiKey>)
    requires Coherent(cis, now)
    requires forall i :: i in v ==> exists r :: r in cis && r.Open() && r.id == i && r.key == v[i]
    requires forall r :: r in cis && r.Open() ==> r.id in v
    ensures CiView(cis) == v
  {
    hide Coherent;
    forall i | i in v ensures i in CiView(cis) && CiView(cis)[i] == v[i] {
      var r :| r in cis && r.Open() && r.id == i && r.key == v[i];
      CiViewIs(cis, now, i, r);
    }
  }

  lemma CiViewPut(before: Rows<CiKey, CiData>, after: Rows<CiKey, CiData>, now: int, r: CiRow)
    requires Coherent(before, now) && Coherent(after, now)
    requires r in after && OpenMap(after) == OpenMap(before)[r.key := r] && r.Open()
    requires r.key in OpenMap(before) ==> OpenMap(before)[r.key].id == r.id
    ensures CiView(after) == CiView(before)[r.id := r.key]
  {
    hide Coherent;
    var v := CiView(before)[r.id := r.key];
    forall i | i in v ensures exists s :: s in after && s.Open() && s.id == i && s.key == v[i] {
      if i != r.id {
        var s :| s in before && s.Open() && s.id == i;
        OpenRow(before, now, s);
        CiViewIs(before, now, i, s);
        OpenMapRow(after, s.key);
        assert OpenMap(after)[s.key] == s;
      }
    }
    forall s | s in after && s.Open() ensures s.id in v {
      OpenRow(after, now, s);
      if s != r { OpenMapRow(before, s.key); }
    }
    CiViewFromMap(after, now, v);
  }

  /** One row written under a key; a first sight draws the next id. */
  ghost predicate CiPut(db: Db, after: Db, key: CiKey, r: CiRow) {
    && Puts(db.cis, after.cis, db.now, r) && after == db.(cis := after.cis, nextId := after.nextId)
    && r.key == key && r.lastSeen == db.now
    && (if key in OpenMap(db.cis)
        then r.id == OpenMap(db.cis)[key].id && r.data.firstSeen == OpenMap(db.cis)[key].data.firstSeen && after.nextId == db.nextId
        else r.id == db.nextId && r.data.firstSeen == db.now && after.nextId == db.nextId + 1)
    && (forall s :: s in after.cis ==> s.id < after.nextId)
  }

  lemma NewCiPut(db: Db, key: CiKey, name: Option<string>, attributes: map<string, string>)
    requires Coherent(db.cis, db.now) && (forall r :: r in db.cis ==> r.id < db.nextId) && Current(db.cis, key).None?
    ensures var r := NewCi(db, key, name, attributes);
            CiPut(db, db.(cis := Insert(db.cis, r), nextId := db.nextId + 1), key, r)
  {
    InsertPuts(db.cis, db.now, NewCi(db, key, name, attributes));
    hide Puts, Coherent;
  }

  lemma TouchedCiPut(db: Db, c: CiRow)
    requires Coherent(db.cis, db.now) && (forall r :: r in db.cis ==> r.id < db.nextId) && c in db.cis && c.Open()
    ensures CiPut(db, db.(cis := Touch(db.cis, c, db.now)), c.key, c.(lastSeen := db.now))
  {
    OpenRow(db.cis, db.now, c);
    TouchPuts(db.cis, db.now, c);
    hide Puts, Coherent, OpenMap;
  }

  lemma VersionedCiPut(db: Db, c: CiRow, d: CiData)
    requires Coherent(db.cis, db.now) && (forall r :: r in db.cis ==> r.id < db.nextId) && c in db.cis && c.Open()
    requires c.validFrom < db.now && d.firstSeen == c.data.firstSeen
    ensures CiPut(db, db.(cis := Supersede(db.cis, c, d, db.now)), c.key, NewVersion(c, d, db.now))
  {
    OpenRow(db.cis, db.now, c);
    SupersedePuts(db.cis, db.now, c, d);
    hide Puts, Coherent, OpenMap;
  }

  lemma UpsertCiPuts(db: Db, key: CiKey, name: Option<string>, attributes: map<string, string>)
    requires Coherent(db.cis, db.now) && forall r :: r in db.cis ==> r.id < db.nextId
    ensures UpsertCi(db, key, name, attributes).Ok? ==>
      var (after, r) := UpsertCi(db, key, name, attributes).value;
      CiPut(db, after, key, r) && r.data.name == name && r.data.attributes == attributes
  {
    hide CiPut;
    match Current(db.cis, key) {
      case None =>
        NewCiPut(db, key, name, attributes);
      case Some(c) =>
        OpenStarted(db.cis, db.now, c);
        hide Coherent;
        if !CiChanged(c, name, attributes) {
          TouchedCiPut(db, c);
        } else if c.validFrom != db.now {
          VersionedCiPut(db, c, CiUpdate(c, name, attributes));
        }
    }
  }

  /** What every successful CI upsert does. */
  lemma UpsertCiEffect(db: Db, key: CiKey, name: Option<string>, attributes: map<string, string>)
    requires Tables(db)
    ensures UpsertCi(db, key, name, attributes).Ok? ==>
      var (after, r) := UpsertCi(db, key, name, attributes).value;
      && Tables(after) && after == db.(cis := after.cis, nextId := after.nextId)
      && r in after.cis && r.Open() && r.key == key
      && r.data.name == name && r.data.attributes == attributes && r.lastSeen == db.now
      && OpenMap(after.cis) == OpenMap(db.cis)[key := r]
      && CiView(after.cis) == CiView(db.cis)[r.id := key]
      && Stable(db.cis, after.cis, db.now)
      && (if key in OpenMap(db.cis)
          then r.id == OpenMap(db.cis)[key].id && r.data.firstSeen == OpenMap(db.cis)[key].data.firstSeen && after.nextId == db.nextId
          else r.id == db.nextId && r.data.firstSeen == db.now && after.nextId == db.nextId + 1)
  {
    UpsertCiPuts(db, key, name, attributes);
    hide UpsertCi, OpenMap, CiView, Stable, Puts;
    if UpsertCi(db, key, name, attributes).Ok? {
      var (after, r) := UpsertCi(db, key, name, attributes).value;
      PutIsSeen(db, after, key, r);
      PutKeepsTables(db, after, key, r);
      hide Tables;
    }
  }

  /** A first sight takes a new id; another one keeps the id, and writes a version of this instant
      unless name and attributes are the same and the confidence is, up to 0.000001, the certain
      one: then the row is only touched. */
  lemma UpsertCiIs(db: Db, key: CiKey, name: Option<string>, attributes: map<string, string>)
    requires UpsertCi(db, key, name, attributes).Ok?
    ensures var r := UpsertCi(db, key, name, attributes).value.1;
            && r.key == key && r.data.name == name && r.data.attributes == attributes && r.lastSeen == db.now
            && (key !in OpenMap(db.cis) ==>
                  && r.id == db.nextId && r.validFrom == r.data.firstSeen == db.now && r.data.confidence == 1.0)
            && (key in OpenMap(db.cis) ==>
                  var c := OpenMap(db.cis)[key];
                  && r.id == c.id && r.data.firstSeen == c.data.firstSeen
                  && if c.data.name == name && c.data.attributes == attributes && -0.000001 <= c.data.confidence - 1.0 <= 0.000001
                     then r == c.(lastSeen := db.now)
                     else r.validFrom == db.now != c.validFrom && r.data.confidence == 1.0)
  {
    IsCurrentCi(db, key);
    hide OpenMap, Current;
  }

  lemma IsCurrentCi(db: Db, key: CiKey)
    ensures key in OpenMap(db.cis) <==> Current(db.cis, key).Some?
    ensures key in OpenMap(db.cis) ==> OpenMap(db.cis)[key] == Current(db.cis, key).value
  {
  }

  lemma PutIsSeen(db: Db, after: Db, key: CiKey, r: CiRow)
    requires Coherent(db.cis, db.now) && CiPut(db, after, key, r)
    ensures r in after.cis && r.Open() && OpenMap(after.cis) == OpenMap(db.cis)[key := r] && Stable(db.cis, after.cis, db.now)
    ensures CiView(after.cis) == CiView(db.cis)[r.id := key]
  {
    hide Coherent, OpenMap, CiView, Stable;
    CiViewPut(db.cis, after.cis, db.now, r);
  }

  lemma PutKeepsTables(db: Db, after: Db, key: CiKey, r: CiRow)
    requires Tables(db) && CiPut(db, after, key, r)
    ensures Tables(after)
  {
    hide Coherent, OpenMap, Stable;
  }

  /* ---------------------------------------------------------------- EdgeRepository */

  function NewEdge(db: Db, key: EdgeKey, data: EdgeData): EdgeRow {
    Version(db.nextId, key, data, db.now, db.now, None)
  }

  /** Equal up to the tolerance of the comparison. */
  predicate SameDeclared(stored: EdgeData, incoming: EdgeData) {
    && stored.source == incoming.source && stored.evidence == incoming.evidence
    && !Differ(stored.confidence, incoming.confidence)
  }

  ghost function UpsertEdge(db: Db, key: EdgeKey, data: EdgeData): Outcome<(Db, EdgeRow)> {
    if data.evidence == [] then Abort
    else
      match Current(db.edges, key)
      case None =>
        var r := NewEdge(db, key, FirstSight(data));
        Ok((db.(edges := Insert(db.edges, r), nextId := db.nextId + 1), r))
      case Some(r) =>
        match UpsertChange(r.data, data)
        case Rejected => Abort
        case Unchanged => Ok((db, r))
        case Written(d) =>
          if r.validFrom == db.now then Abort
          else Ok((db.(edges := Supersede(db.edges, r, d, db.now)), NewVersion(r, d, db.now)))
  }

  lemma EdgeViewPut(before: Rows<EdgeKey, EdgeData>, after: Rows<EdgeKey, EdgeData>, r: EdgeRow)
    requires OpenMap(after) == OpenMap(before)[r.key := r]
    ensures EdgeView(after) == EdgeView(before)[r.key := Seen(r)]
  {
  }

  lemma UpsertEdgePuts(db: Db, key: EdgeKey, data: EdgeData)
    requires Coherent(db.edges, db.now) && forall r :: r in db.edges ==> r.id < db.nextId
    ensures UpsertEdge(db, key, data).Ok? ==>
      var (after, r) := UpsertEdge(db, key, data).value;
      && Puts(db.edges, after.edges, db.now, r) && after == db.(edges := after.edges, nextId := after.nextId)
      && r.key == key && db.nextId <= after.nextId
      && (data.source == Declared ==> SameDeclared(r.data, data))
      && (forall s :: s in after.edges ==> s.id < after.nextId && (s.key == key || exists t :: t in db.edges && t.key == s.key))
  {
    hide Puts;
    if UpsertEdge(db, key, data).Ok? {
      match Current(db.edges, key) {
        case None =>
          InsertPuts(db.edges, db.now, NewEdge(db, key, FirstSight(data)));
        case Some(c) =>
          OpenStarted(db.edges, db.now, c);
          hide Coherent;
          match UpsertChange(c.data, data) {
            case Unchanged => SamePuts(db.edges, db.now, c);
            case Written(d) => SupersedePuts(db.edges, db.now, c, d);
          }
      }
    }
  }

  /** What every successful edge upsert does. */
  lemma UpsertEdgeEffect(db: Db, key: EdgeKey, data: EdgeData)
    requires Tables(db) && key.fromId < db.nextId && key.toId < db.nextId
    ensures UpsertEdge(db, key, data).Ok? ==>
      var (after, r) := UpsertEdge(db, key, data).value;
      && Tables(after) && after == db.(edges := after.edges, nextId := after.nextId)
      && r in after.edges && r.Open() && r.key == key
      && OpenMap(after.edges) == OpenMap(db.edges)[key := r]
      && EdgeView(after.edges) == EdgeView(db.edges)[key := Seen(r)]
      && Stable(db.edges, after.edges, db.now)
      && db.nextId <= after.nextId
      && (data.source == Declared ==> SameDeclared(r.data, data))
  {
    UpsertEdgePuts(db, key, data);
    hide UpsertEdge, Coherent, OpenMap, EdgeView, Stable;
    if UpsertEdge(db, key, data).Ok? {
      var (after, r) := UpsertEdge(db, key, data).value;
      EdgeViewPut(db.edges, after.edges, r);
    }
  }

  /** A first sight takes a new id; another one keeps the id, and writes a version of this instant
      unless source and evidence are the same and the confidence is, up to 0.000001; what is not a
      re-observation of an inferred edge is stored as it comes. */
  lemma UpsertEdgeIs(db: Db, key: EdgeKey, data: EdgeData)
    requires UpsertEdge(db, key, data).Ok?
    ensures var (after, r) := UpsertEdge(db, key, data).value;
            && r.key == key && data.evidence != []
            && (key !in OpenMap(db.edges) ==> r.id == db.nextId && r.validFrom == db.now && r.data == FirstSight(data))
            && (key in OpenMap(db.edges) ==>
                  var c := OpenMap(db.edges)[key];
                  && r.id == c.id
                  && (c.data.source == Inferred && data.source == Inferred ==>
                        r.validFrom == db.now != c.validFrom)
                  && (c.data.source == Declared || data.source == Declared ==>
                        if c.data.source == data.source && c.data.evidence == data.evidence
                           && -0.000001 <= c.data.confidence - data.confidence <= 0.000001
                        then r == c && after == db else r.validFrom == db.now && r.data == data))
  {
    IsCurrent(db, key);
    hide OpenMap, Current, PriorCount, CombinedRows, Decimal;
  }

  lemma IsCurrent(db: Db, key: EdgeKey)
    ensures key in OpenMap(db.edges) <==> Current(db.edges, key).Some?
    ensures key in OpenMap(db.edges) ==> OpenMap(db.edges)[key] == Current(db.edges, key).value
  {
  }

  /* ---------------------------------------------------------------- closing */

  function CloseCis(db: Db, keys: set<CiKey>): Db { db.(cis := CloseMany(db.cis, keys, db.now)) }

  function CloseEdges(db: Db, keys: set<EdgeKey>): Db { db.(edges := CloseMany(db.edges, keys, db.now)) }

  /** The ids of the open CIs under some keys. */
  ghost function IdsUnder(cis: Rows<CiKey, CiData>, keys: set<CiKey>): set<nat> {
    set i | i in CiView(cis) && CiView(cis)[i] in keys
  }

  lemma CloseCisEffect(db: Db, keys: set<CiKey>)
    requires Tables(db)
    ensures Tables(CloseCis(db, keys)) && Stable(db.cis, CloseCis(db, keys).cis, db.now)
    ensures OpenMap(CloseCis(db, keys).cis) == OpenMap(db.cis) - keys
    ensures CiView(CloseCis(db, keys).cis) == CiView(db.cis) - IdsUnder(db.cis, keys)
  {
    CloseManyCoherent(db.cis, keys, db.now);
    CloseManyOpen(db.cis, keys, db.now);
    CloseManyStable(db.cis, keys, db.now);
    hide Coherent;
    var after := CloseMany(db.cis, keys, db.now);
    var v := CiView(db.cis) - IdsUnder(db.cis, keys);
    forall i | i in v ensures exists r :: r in after && r.Open() && r.id == i && r.key == v[i] {
      var r :| r in db.cis && r.Open() && r.id == i;
      CiViewIs(db.cis, db.now, i, r);
      OpenRow(db.cis, db.now, r);
      OpenMapRow(after, r.key);
      assert OpenMap(after)[r.key] == r;
    }
    forall r | r in after && r.Open() ensures r.id in v {
      OpenRow(after, db.now, r);
      OpenMapRow(db.cis, r.key);
      CiViewIs(db.cis, db.now, r.id, r);
    }
    CiViewFromMap(after, db.now, v);
  }

  lemma CloseEdgesEffect(db: Db, keys: set<EdgeKey>)
    requires Tables(db)
    ensures Tables(CloseEdges(db, keys)) && Stable(db.edges, CloseEdges(db, keys).edges, db.now)
    ensures OpenMap(CloseEdges(db, keys).edges) == OpenMap(db.edges) - keys
    ensures EdgeView(CloseEdges(db, keys).edges) == EdgeView(db.edges) - keys
  {
    CloseManyCoherent(db.edges, keys, db.now);
    CloseManyOpen(db.edges, keys, db.now);
    CloseManyStable(db.edges, keys, db.now);
    CloseManyIds(db.edges, keys, db.now);
    hide Coherent, Stable, CloseMany, OpenMap, EdgeView;
    EdgeViewMinus(db.edges, CloseMany(db.edges, keys, db.now), keys);
  }

  lemma EdgeViewMinus(before: Rows<EdgeKey, EdgeData>, after: Rows<EdgeKey, EdgeData>, keys: set<EdgeKey>)
    requires OpenMap(after) == OpenMap(before) - keys
    ensures EdgeView(after) == EdgeView(before) - keys
  {
    hide OpenMap;
  }

  /** Closing keeps every row's id and key. */
  lemma CloseManyIds<K, P>(rows: Rows<K, P>, keys: set<K>, now: int)
    ensures forall r :: r in CloseMany(rows, keys, now) ==> exists s :: s in rows && s.id == r.id && s.key == r.key
  {
  }

  /* ---------------------------------------------------------------- projection */

  /** MERGE the vertex and set its properties; a name is set only when there is one. */
  function ProjectCi(g: Graph, r: CiRow): Graph {
    var kept := if r.id in g.vertices then g.vertices[r.id].name else None;
    var name := if r.data.name.Some? && r.data.name.value != "" then r.data.name else kept;
    g.(vertices := g.vertices[r.id := Vertex(r.key.ctype, r.key.externalId, name)])
  }

  function ProjectCis(g: Graph, rows: seq<CiRow>): Graph {
    if rows == [] then g else ProjectCi(ProjectCis(g, rows[..|rows| - 1]), rows[|rows| - 1])
  }

  /** MATCH both endpoints, MERGE the edge between them: nothing happens without both. */
  function ProjectEdge(g: Graph, r: EdgeRow): Graph {
    if r.key.fromId in g.vertices && r.key.toId in g.vertices then g.(edges := g.edges[r.key := Seen(r)]) else g
  }

  function ProjectEdges(g: Graph, rows: seq<EdgeRow>): Graph {
    if rows == [] then g else ProjectEdge(ProjectEdges(g, rows[..|rows| - 1]), rows[|rows| - 1])
  }

  function DropEdges(g: Graph, keys: set<EdgeKey>): Graph { g.(edges := g.edges - keys) }

  /** DETACH DELETE. */
  function DropCis(g: Graph, ids: set<nat>): Graph {
    Graph(g.vertices - ids, map k | k in g.edges && k.fromId !in ids && k.toId !in ids :: g.edges[k])
  }

  function Project(g: Graph, cis: seq<CiRow>, edges: seq<EdgeRow>, closedEdges: set<EdgeKey>, closedCis: set<nat>): Graph {
    DropCis(DropEdges(ProjectEdges(ProjectCis(g, cis), edges), closedEdges), closedCis)
  }

  /** Last row wins. */
  function KeysOf(rows: seq<CiRow>): map<nat, CiKey> {
    if rows == [] then map[] else KeysOf(rows[..|rows| - 1])[rows[|rows| - 1].id := rows[|rows| - 1].key]
  }

  function Shown(rows: seq<EdgeRow>): map<EdgeKey, GraphEdge> {
    if rows == [] then map[] else Shown(rows[..|rows| - 1])[rows[|rows| - 1].key := Seen(rows[|rows| - 1])]
  }

  lemma KeysOfAppend(rows: seq<CiRow>, r: CiRow)
    ensures KeysOf(rows + [r]) == KeysOf(rows)[r.id := r.key]
  {
    assert (rows + [r])[..|rows + [r]| - 1] == rows;
  }

  lemma ShownAppend(rows: seq<EdgeRow>, r: EdgeRow)
    ensures Shown(rows + [r]) == Shown(rows)[r.key := Seen(r)]
  {
    assert (rows + [r])[..|rows + [r]| - 1] == rows;
  }

  lemma ProjectCiView(g: Graph, r: CiRow)
    ensures VertexView(ProjectCi(g, r)) == VertexView(g)[r.id := r.key]
    ensures ProjectCi(g, r).edges == g.edges && ProjectCi(g, r).vertices.Keys == g.vertices.Keys + {r.id}
  {
  }

  lemma {:induction false} ProjectCisView(g: Graph, rows: seq<CiRow>)
    ensures VertexView(ProjectCis(g, rows)) == VertexView(g) + KeysOf(rows)
    ensures ProjectCis(g, rows).edges == g.edges
    ensures ProjectCis(g, rows).vertices.Keys == g.vertices.Keys + KeysOf(rows).Keys
    decreases |rows|
  {
    hide ProjectCi, VertexView;
    if rows != [] {
      var init, r := rows[..|rows| - 1], rows[|rows| - 1];
      ProjectCisView(g, init);
      ProjectCiView(ProjectCis(g, init), r);
    }
  }

  /** Only edges with both endpoints among the vertices appear. */
  lemma {:induction false} ProjectEdgesView(g: Graph, rows: seq<EdgeRow>)
    ensures ProjectEdges(g, rows) == g.(edges := g.edges + Live(Shown(rows), g.vertices.Keys))
    decreases |rows|
  {
    if rows != [] {
      var init, r := rows[..|rows| - 1], rows[|rows| - 1];
      ProjectEdgesView(g, init);
      LiveOne(g, Shown(init), r);
    } else {
      assert g.edges + Live(map[], g.vertices.Keys) == g.edges;
    }
  }

  lemma LiveOne(g: Graph, shown: map<EdgeKey, GraphEdge>, r: EdgeRow)
    ensures var ids := g.vertices.Keys;
            ProjectEdge(g.(edges := g.edges + Live(shown, ids)), r)
            == g.(edges := g.edges + Live(shown[r.key := Seen(r)], ids))
  {
    var ids := g.vertices.Keys;
    var live := Live(shown[r.key := Seen(r)], ids);
    if r.key.fromId in ids && r.key.toId in ids {
      assert live == Live(shown, ids)[r.key := Seen(r)];
    } else {
      assert live == Live(shown, ids);
    }
  }

  /** No edge ends at a CI that is being projected for the first time. */
  ghost predicate NoneDangling(cis: map<nat, CiKey>, edges: map<EdgeKey, GraphEdge>, more: map<nat, CiKey>) {
    forall k :: k in edges ==> (k.fromId in more ==> k.fromId in cis) && (k.toId in more ==> k.toId in cis)
  }

  lemma LivePlus(edges: map<EdgeKey, GraphEdge>, shown: map<EdgeKey, GraphEdge>, cis: map<nat, CiKey>, more: map<nat, CiKey>)
    requires NoneDangling(cis, edges, more)
    ensures Live(edges, cis.Keys) + Live(shown, (cis + more).Keys) == Live(edges + shown, (cis + more).Keys)
  {
  }

  lemma LiveMinus(edges: map<EdgeKey, GraphEdge>, keys: set<EdgeKey>, cis: map<nat, CiKey>, ids: set<nat>)
    ensures Live(edges, cis.Keys) - keys == Live(edges - keys, cis.Keys)
    ensures Live(edges, (cis - ids).Keys) ==
            map k | k in Live(edges, cis.Keys) && k.fromId !in ids && k.toId !in ids :: Live(edges, cis.Keys)[k]
  {
  }

  /** Projecting what a transaction touched keeps the graph the projection of the current state. */
  lemma ProjectKeeps(g: Graph, cis: map<nat, CiKey>, edges: map<EdgeKey, GraphEdge>, currentCis: seq<CiRow>,
                     currentEdges: seq<EdgeRow>, closedEdges: set<EdgeKey>, closedCis: set<nat>)
    requires GraphIs(g, cis, edges)
    requires NoneDangling(cis, edges, KeysOf(currentCis))
    ensures GraphIs(Project(g, currentCis, currentEdges, closedEdges, closedCis),
                    cis + KeysOf(currentCis) - closedCis, edges + Shown(currentEdges) - closedEdges)
  {
    var all := cis + KeysOf(currentCis);
    var g1 := ProjectCis(g, currentCis);
    ProjectCisView(g, currentCis);
    assert g1.vertices.Keys == VertexView(g1).Keys;
    ProjectEdgesView(g1, currentEdges);
    LivePlus(edges, Shown(currentEdges), cis, KeysOf(currentCis));
    var g2 := ProjectEdges(g1, currentEdges);
    assert GraphIs(g2, all, edges + Shown(currentEdges));
    hide ProjectCis, ProjectEdges, KeysOf, Shown;
    DropKeeps(g2, all, edges + Shown(currentEdges), closedEdges, closedCis);
  }

  lemma DropKeeps(g: Graph, cis: map<nat, CiKey>, edges: map<EdgeKey, GraphEdge>, closedEdges: set<EdgeKey>, closedCis: set<nat>)
    requires GraphIs(g, cis, edges)
    ensures GraphIs(DropCis(DropEdges(g, closedEdges), closedCis), cis - closedCis, edges - closedEdges)
  {
    LiveMinus(edges, closedEdges, cis, closedCis);
    LiveMinus(edges - closedEdges, closedEdges, cis, closedCis);
    assert VertexView(DropCis(DropEdges(g, closedEdges), closedCis)) == cis - closedCis;
  }

  /** A vertex keeps a name once it has one: a later version without a name does not clear it. */
  lemma NameNeverCleared(g: Graph, cis: seq<CiRow>, edges: seq<EdgeRow>, closedEdges: set<EdgeKey>, closedCis: set<nat>, i: nat)
    requires i in g.vertices && g.vertices[i].name.Some?
    ensures var after := Project(g, cis, edges, closedEdges, closedCis);
            i in after.vertices ==> after.vertices[i].name.Some?
  {
    NamesSurvive(g, cis, i);
    ProjectEdgesView(ProjectCis(g, cis), edges);
    hide ProjectCis, ProjectEdges;
  }

  lemma {:induction false} NamesSurvive(g: Graph, cis: seq<CiRow>, i: nat)
    requires i in g.vertices && g.vertices[i].name.Some?
    ensures i in ProjectCis(g, cis).vertices && ProjectCis(g, cis).vertices[i].name.Some?
    decreases |cis|
  {
    if cis != [] { NamesSurvive(g, cis[..|cis| - 1], i); }
  }

  /** The open rows among some, last one wins. */
  function ByKey(rows: seq<EdgeRow>): map<EdgeKey, EdgeRow> {
    if rows == [] then map[] else ByKey(rows[..|rows| - 1])[rows[|rows| - 1].key := rows[|rows| - 1]]
  }

  lemma ByKeyAppend(rows: seq<EdgeRow>, r: EdgeRow)
    ensures ByKey(rows + [r]) == ByKey(rows)[r.key := r]
  {
    assert (rows + [r])[..|rows + [r]| - 1] == rows;
  }

  lemma {:induction false} ShownIsByKey(rows: seq<EdgeRow>)
    ensures Shown(rows) == map k | k in ByKey(rows) :: Seen(ByKey(rows)[k])
    decreases |rows|
  {
    if rows != [] { ShownIsByKey(rows[..|rows| - 1]); }
  }

  /** Reading the view off a current state written as changes to another. */
  lemma ViewOfChange(before: Rows<EdgeKey, EdgeData>, after: Rows<EdgeKey, EdgeData>, rows: seq<EdgeRow>, closed: set<EdgeKey>)
    requires OpenMap(after) == OpenMap(before) + ByKey(rows) - closed
    ensures EdgeView(after) == EdgeView(before) + Shown(rows) - closed
  {
    ShownIsByKey(rows);
    hide OpenMap;
  }
}
