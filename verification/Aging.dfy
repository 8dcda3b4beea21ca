/** The inferred-edge aging sweep as a function of the database
    (services/reconciliation/src/infra_twin/reconciliation/aging.py). `wall` is the caller's
    clock, from which ages are computed; versions carry the transaction time. */
module Aging {
  import opened Model
  import opened Confidence
  import opened Observations
  import opened Lifecycle
  import opened Versions
  import opened Store
  import opened Merging

  const DECAY_DETAIL := "decayed"

  datatype AgingResult = AgingResult(decayed: nat, closed: nat, untouched: nat)

  datatype AgePhase = AgePhase(db: Db, decayed: seq<EdgeRow>, closed: set<EdgeKey>, result: AgingResult)

  function ActionOf(r: EdgeRow, wall: int): Action { AgeAction(r.data, wall, DECAY_DETAIL) }

  /** One iteration of the loop over the open edges. */
  function AgeRow(p: AgePhase, e: EdgeRow, wall: int): Outcome<AgePhase> {
    match ActionOf(e, wall)
    case Skip => Ok(p)
    case Untouched => Ok(p.(result := p.result.(untouched := p.result.untouched + 1)))
    case Close =>
      Ok(AgePhase(CloseEdges(p.db, {e.key}), p.decayed, p.closed + {e.key}, p.result.(closed := p.result.closed + 1)))
    case Decay(d) =>
      if e.validFrom == p.db.now then Abort
      else Ok(AgePhase(p.db.(edges := Supersede(p.db.edges, e, d, p.db.now)), p.decayed + [NewVersion(e, d, p.db.now)],
                       p.closed, p.result.(decayed := p.result.decayed + 1)))
  }

  function AgeRows(db: Db, rows: seq<EdgeRow>, wall: int): Outcome<AgePhase> {
    if rows == [] then Ok(AgePhase(db, [], {}, AgingResult(0, 0, 0)))
    else
      match AgeRows(db, rows[..|rows| - 1], wall)
      case Abort => Abort
      case Ok(p) => AgeRow(p, rows[|rows| - 1], wall)
  }

  /** The sweep over the open edges in the order they were read. */
  function AgeEdges(db: Db, rows: seq<EdgeRow>, wall: int): Outcome<(Db, AgingResult)> {
    match AgeRows(db, rows, wall)
    case Abort => Abort
    case Ok(p) => Ok((p.db.(graph := Project(p.db.graph, [], p.decayed, p.closed, {})), p.result))
  }

  /* ---------------------------------------------------------------- the loop */

  /** What the sweep makes of the open row of a key. */
  ghost predicate Aged(before: map<EdgeKey, EdgeRow>, after: map<EdgeKey, EdgeRow>, done: set<EdgeKey>, wall: int, now: int) {
    && after.Keys <= before.Keys
    && forall k :: k in before ==>
         match (if k in done then ActionOf(before[k], wall) else Untouched)
         case Close => k !in after
         case Decay(d) => k in after && after[k] == NewVersion(before[k], d, now)
         case _ => k in after && after[k] == before[k]
  }

  function InferredCount(rows: seq<EdgeRow>): nat {
    if rows == [] then 0 else InferredCount(rows[..|rows| - 1]) + (if rows[|rows| - 1].data.source == Inferred then 1 else 0)
  }

  /** The open edges that a sweep has rewritten. */
  ghost function Rewritten(before: map<EdgeKey, EdgeRow>, after: map<EdgeKey, EdgeRow>): set<EdgeKey> {
    set k | k in before && k in after && after[k] != before[k]
  }

  /** What the counters count: rewritten edges and edges that are no longer open. */
  ghost predicate Counted(before: map<EdgeKey, EdgeRow>, after: map<EdgeKey, EdgeRow>, r: AgingResult) {
    r.decayed == |Rewritten(before, after)| && r.closed + |after.Keys| == |before.Keys|
  }

  lemma CountedRewrite(before: map<EdgeKey, EdgeRow>, mid: map<EdgeKey, EdgeRow>, after: map<EdgeKey, EdgeRow>, k: EdgeKey, n: EdgeRow,
                       r: AgingResult, s: AgingResult)
    requires Counted(before, mid, r) && k in before && k in mid && mid[k] == before[k] != n && after == mid[k := n]
    requires s.decayed == r.decayed + 1 && s.closed == r.closed
    ensures Counted(before, after, s)
  {
    assert Rewritten(before, after) == Rewritten(before, mid) + {k};
    assert after.Keys == mid.Keys;
  }

  lemma CountedSame(before: map<EdgeKey, EdgeRow>, after: map<EdgeKey, EdgeRow>, r: AgingResult, s: AgingResult)
    requires Counted(before, after, r) && s.decayed == r.decayed && s.closed == r.closed
    ensures Counted(before, after, s)
  {
  }

  lemma CountedClose(before: map<EdgeKey, EdgeRow>, mid: map<EdgeKey, EdgeRow>, after: map<EdgeKey, EdgeRow>, k: EdgeKey,
                     r: AgingResult, s: AgingResult)
    requires Counted(before, mid, r) && k in before && k in mid && mid[k] == before[k] && after == mid - {k}
    requires s.decayed == r.decayed && s.closed == r.closed + 1
    ensures Counted(before, after, s)
  {
    assert Rewritten(before, after) == Rewritten(before, mid);
    assert mid.Keys == after.Keys + {k};
  }

  ghost predicate AgeInv(start: Db, rows: seq<EdgeRow>, p: AgePhase, wall: int) {
    && Tables(p.db) && p.db == start.(edges := p.db.edges)
    && Aged(OpenMap(start.edges), OpenMap(p.db.edges), KeySet(rows), wall, start.now)
    && EdgeView(p.db.edges) == EdgeView(start.edges) + Shown(p.decayed) - p.closed
    && p.closed <= KeySet(rows)
    && Stable(start.edges, p.db.edges, start.now)
    && p.result.decayed + p.result.closed + p.result.untouched == InferredCount(rows)
    && Counted(OpenMap(start.edges), OpenMap(p.db.edges), p.result)
  }

  lemma InferredAppend(rows: seq<EdgeRow>, e: EdgeRow)
    ensures InferredCount(rows + [e]) == InferredCount(rows) + (if e.data.source == Inferred then 1 else 0)
  {
    assert (rows + [e])[..|rows + [e]| - 1] == rows;
  }

  lemma AgedStep(before: map<EdgeKey, EdgeRow>, mid: map<EdgeKey, EdgeRow>, after: map<EdgeKey, EdgeRow>, done: set<EdgeKey>,
                 e: EdgeRow, wall: int, now: int)
    requires Aged(before, mid, done, wall, now) && e.key !in done && e.key in before && before[e.key] == e
    requires match ActionOf(e, wall)
             case Close => after == mid - {e.key}
             case Decay(d) => after == mid[e.key := NewVersion(e, d, now)]
             case _ => after == mid
    ensures Aged(before, after, done + {e.key}, wall, now)
  {
    hide ActionOf, NewVersion;
  }

  lemma SkipMeansDeclared(e: EdgeRow, wall: int)
    ensures ActionOf(e, wall).Skip? <==> e.data.source != Inferred
  {
    hide DecayedConfidence, AlreadyDecayed;
  }

  lemma RowStillOpen(start: Db, rows: seq<EdgeRow>, p: AgePhase, e: EdgeRow, wall: int)
    requires AgeInv(start, rows, p, wall) && e.key !in KeySet(rows)
    requires e.key in OpenMap(start.edges) && OpenMap(start.edges)[e.key] == e
    ensures e.key in OpenMap(p.db.edges) && OpenMap(p.db.edges)[e.key] == e && e in p.db.edges && e.Open()
  {
    OpenMapRow(start.edges, e.key);
    OpenMapRow(p.db.edges, e.key);
    hide Tables, OpenMap, Stable, EdgeView, Shown;
  }

  lemma DecayTables(db: Db, e: EdgeRow, d: EdgeData)
    requires Tables(db) && e in db.edges && e.Open() && e.validFrom < db.now
    ensures var after := db.(edges := Supersede(db.edges, e, d, db.now));
            && Tables(after) && Stable(db.edges, after.edges, db.now)
            && OpenMap(after.edges) == OpenMap(db.edges)[e.key := NewVersion(e, d, db.now)]
            && EdgeView(after.edges) == EdgeView(db.edges)[e.key := Store.Seen(NewVersion(e, d, db.now))]
  {
    SupersedePuts(db.edges, db.now, e, d);
    hide Coherent, OpenMap, EdgeView, Stable;
    EdgeViewPut(db.edges, Supersede(db.edges, e, d, db.now), NewVersion(e, d, db.now));
  }

  lemma AgeStep(start: Db, rows: seq<EdgeRow>, p: AgePhase, e: EdgeRow, wall: int)
    requires AgeInv(start, rows, p, wall) && e.key !in KeySet(rows)
    requires e.key in OpenMap(start.edges) && OpenMap(start.edges)[e.key] == e
    requires AgeRow(p, e, wall).Ok?
    ensures AgeInv(start, rows + [e], AgeRow(p, e, wall).value, wall)
  {
    RowStillOpen(start, rows, p, e, wall);
    SkipMeansDeclared(e, wall);
    InferredAppend(rows, e);
    KeySetAppend(rows, e);
    var q := AgeRow(p, e, wall).value;
    match ActionOf(e, wall) {
      case Skip => SameStep(start, rows, p, q, e, wall);
      case Untouched => SameStep(start, rows, p, q, e, wall);
      case Close => CloseStep(start, rows, p, e, wall);
      case Decay(d) => DecayOne(start, rows, p, e, d, wall);
    }
  }

  lemma SameStep(start: Db, rows: seq<EdgeRow>, p: AgePhase, q: AgePhase, e: EdgeRow, wall: int)
    requires AgeInv(start, rows, p, wall) && q == p.(result := q.result) && e.key !in KeySet(rows)
    requires e.key in OpenMap(start.edges) && OpenMap(start.edges)[e.key] == e && KeySet(rows + [e]) == KeySet(rows) + {e.key}
    requires ActionOf(e, wall).Skip? || ActionOf(e, wall).Untouched?
    requires q.result.decayed + q.result.closed + q.result.untouched == InferredCount(rows + [e])
    requires q.result.decayed == p.result.decayed && q.result.closed == p.result.closed
    ensures AgeInv(start, rows + [e], q, wall)
  {
    hide Tables, OpenMap, Stable, EdgeView, Shown, ActionOf, InferredCount, KeySet, Counted, Aged;
    CountedSame(OpenMap(start.edges), OpenMap(p.db.edges), p.result, q.result);
    AgedStep(OpenMap(start.edges), OpenMap(p.db.edges), OpenMap(p.db.edges), KeySet(rows), e, wall, start.now);
  }

  lemma CloseStep(start: Db, rows: seq<EdgeRow>, p: AgePhase, e: EdgeRow, wall: int)
    requires AgeInv(start, rows, p, wall) && ActionOf(e, wall).Close? && e.key !in KeySet(rows) && AgeRow(p, e, wall).Ok?
    requires e.key in OpenMap(p.db.edges) && OpenMap(p.db.edges)[e.key] == e
    requires e.key in OpenMap(start.edges) && OpenMap(start.edges)[e.key] == e && KeySet(rows + [e]) == KeySet(rows) + {e.key}
    requires InferredCount(rows + [e]) == InferredCount(rows) + 1
    ensures AgeInv(start, rows + [e], AgeRow(p, e, wall).value, wall)
  {
    hide Tables, OpenMap, Stable, EdgeView, Shown, ActionOf, InferredCount, KeySet, CloseEdges, Aged, Counted;
    CloseEdgesEffect(p.db, {e.key});
    CloseFrame(p.db, {e.key});
    var after := CloseEdges(p.db, {e.key});
    ClosedTables(start, rows, p.db, after, e, wall);
    ClosedView(start, rows, p, after, e.key);
    CountedClose(OpenMap(start.edges), OpenMap(p.db.edges), OpenMap(after.edges), e.key, p.result, AgeRow(p, e, wall).value.result);
  }

  lemma ClosedView(start: Db, rows: seq<EdgeRow>, p: AgePhase, after: Db, k: EdgeKey)
    requires EdgeView(p.db.edges) == EdgeView(start.edges) + Shown(p.decayed) - p.closed && p.closed <= KeySet(rows)
    requires EdgeView(after.edges) == EdgeView(p.db.edges) - {k}
    ensures EdgeView(after.edges) == EdgeView(start.edges) + Shown(p.decayed) - (p.closed + {k})
    ensures p.closed + {k} <= KeySet(rows) + {k}
  {
    hide EdgeView, Shown, KeySet;
    MinusTwice(EdgeView(start.edges) + Shown(p.decayed), p.closed, {k});
  }

  lemma ClosedTables(start: Db, rows: seq<EdgeRow>, mid: Db, after: Db, e: EdgeRow, wall: int)
    requires Aged(OpenMap(start.edges), OpenMap(mid.edges), KeySet(rows), wall, start.now) && ActionOf(e, wall).Close?
    requires e.key !in KeySet(rows) && e.key in OpenMap(start.edges) && OpenMap(start.edges)[e.key] == e
    requires OpenMap(after.edges) == OpenMap(mid.edges) - {e.key}
    requires Stable(start.edges, mid.edges, start.now) && Stable(mid.edges, after.edges, start.now)
    ensures Aged(OpenMap(start.edges), OpenMap(after.edges), KeySet(rows) + {e.key}, wall, start.now)
    ensures Stable(start.edges, after.edges, start.now)
  {
    hide OpenMap, Stable, ActionOf, KeySet, Aged;
    AgedStep(OpenMap(start.edges), OpenMap(mid.edges), OpenMap(after.edges), KeySet(rows), e, wall, start.now);
    StableTrans(start.edges, mid.edges, after.edges, start.now);
  }

  lemma MinusTwice<K, V>(m: map<K, V>, a: set<K>, b: set<K>)
    ensures m - a - b == m - (a + b)
  {
  }

  lemma DecayOne(start: Db, rows: seq<EdgeRow>, p: AgePhase, e: EdgeRow, d: EdgeData, wall: int)
    requires AgeInv(start, rows, p, wall) && ActionOf(e, wall) == Decay(d) && e.key !in KeySet(rows) && AgeRow(p, e, wall).Ok?
    requires e.key in OpenMap(start.edges) && OpenMap(start.edges)[e.key] == e && KeySet(rows + [e]) == KeySet(rows) + {e.key}
    requires e in p.db.edges && e.Open() && e.key in OpenMap(p.db.edges) && OpenMap(p.db.edges)[e.key] == e
    requires InferredCount(rows + [e]) == InferredCount(rows) + 1
    ensures AgeInv(start, rows + [e], AgeRow(p, e, wall).value, wall)
  {
    hide Tables, OpenMap, Stable, EdgeView, Shown, ActionOf, InferredCount, KeySet, Supersede, Aged, Counted;
    var n := NewVersion(e, d, p.db.now);
    var q := AgeRow(p, e, wall).value;
    NotYetTouched(p.db, e);
    DecayTables(p.db, e, d);
    ShownAppend(p.decayed, n);
    AgedStep(OpenMap(start.edges), OpenMap(p.db.edges), OpenMap(q.db.edges), KeySet(rows), e, wall, start.now);
    StableTrans(start.edges, p.db.edges, q.db.edges, start.now);
    PutAside(EdgeView(start.edges), Shown(p.decayed), p.closed, e.key, Store.Seen(n));
    CountedRewrite(OpenMap(start.edges), OpenMap(p.db.edges), OpenMap(q.db.edges), e.key, n, p.result, q.result);
  }

  lemma NotYetTouched(db: Db, e: EdgeRow)
    requires Tables(db) && e in db.edges && e.validFrom != db.now
    ensures e.validFrom < db.now
  {
  }

  lemma PutAside<K, V>(m: map<K, V>, shown: map<K, V>, closed: set<K>, k: K, v: V)
    requires k !in closed
    ensures (m + shown - closed)[k := v] == m + shown[k := v] - closed
  {
  }

  lemma {:induction false} AgeAll(db: Db, rows: seq<EdgeRow>, wall: int)
    requires Tables(db) && AgeRows(db, rows, wall).Ok?
    requires forall r :: r in rows ==> r.key in OpenMap(db.edges) && OpenMap(db.edges)[r.key] == r
    requires forall i, j :: 0 <= i < j < |rows| ==> rows[i].key != rows[j].key
    ensures AgeInv(db, rows, AgeRows(db, rows, wall).value, wall)
    decreases |rows|
  {
    hide Tables, OpenMap, AgeInv, AgeRow, KeySet;
    if rows == [] {
      NothingAged(db, wall);
    } else {
      var init, e := rows[..|rows| - 1], rows[|rows| - 1];
      AgeAll(db, init, wall);
      assert rows == init + [e];
      NotListed(init, e);
      AgeStep(db, init, AgeRows(db, init, wall).value, e, wall);
    }
  }

  lemma NotListed(init: seq<EdgeRow>, e: EdgeRow)
    requires forall i, j :: 0 <= i < j < |init + [e]| ==> (init + [e])[i].key != (init + [e])[j].key
    ensures e.key !in KeySet(init)
  {
    forall r | r in init ensures r.key != e.key {
      var i :| 0 <= i < |init| && init[i] == r;
      assert (init + [e])[i] == r && (init + [e])[|init|] == e;
    }
  }

  lemma NothingAged(db: Db, wall: int)
    requires Tables(db)
    ensures AgeInv(db, [], AgePhase(db, [], {}, AgingResult(0, 0, 0)), wall)
  {
    hide Tables, OpenMap, FactsAt, EdgeView;
    assert EdgeView(db.edges) + map[] - {} == EdgeView(db.edges);
    assert Rewritten(OpenMap(db.edges), OpenMap(db.edges)) == {};
  }

  /* ---------------------------------------------------------------- what a sweep guarantees */

  /** The rows of a sweep: every open edge once, in some order. */
  ghost predicate ListsAll(db: Db, rows: seq<EdgeRow>) { Lists(db.edges, OpenMap(db.edges).Keys, rows) }

  /** A sweep decides each open edge on its own, counts every inferred one once, and keeps the
      tables coherent, the graph the projection of the current state, and the past as it was. */
  lemma AgeKeeps(db: Db, rows: seq<EdgeRow>, wall: int)
    requires Tables(db) && ListsAll(db, rows) && AgeEdges(db, rows, wall).Ok?
    ensures var (after, r) := AgeEdges(db, rows, wall).value;
            && Tables(after) && (Agree(db) ==> Agree(after)) && after == db.(edges := after.edges, graph := after.graph)
            && Aged(OpenMap(db.edges), OpenMap(after.edges), OpenMap(db.edges).Keys, wall, db.now)
            && r.decayed + r.closed + r.untouched == InferredCount(rows)
            && Counted(OpenMap(db.edges), OpenMap(after.edges), r)
            && Stable(db.edges, after.edges, db.now)
  {
    hide Tables, OpenMap, EdgeView, CiView, Project, GraphIs, Stable, AgeRows, Aged, Counted, InferredCount, Shown, KeySet, Agree, AgeInv;
    AgeAll(db, rows, wall);
    AgeSeals(db, rows, AgeRows(db, rows, wall).value, wall);
  }

  lemma AgeSeals(db: Db, rows: seq<EdgeRow>, p: AgePhase, wall: int)
    requires Tables(db) && AgeInv(db, rows, p, wall)
    ensures var after := p.db.(graph := Project(p.db.graph, [], p.decayed, p.closed, {}));
            && Tables(after) && (Agree(db) ==> Agree(after)) && after == db.(edges := p.db.edges, graph := after.graph)
            && Aged(OpenMap(db.edges), OpenMap(after.edges), KeySet(rows), wall, db.now)
            && p.result.decayed + p.result.closed + p.result.untouched == InferredCount(rows)
            && Counted(OpenMap(db.edges), OpenMap(after.edges), p.result)
            && Stable(db.edges, after.edges, db.now)
  {
    hide Tables, OpenMap, EdgeView, CiView, Project, GraphIs, Stable, Aged, Counted, InferredCount, Shown, KeySet;
    var after := p.db.(graph := Project(p.db.graph, [], p.decayed, p.closed, {}));
    if Agree(db) { AgeProjects(db.graph, CiView(db.cis), EdgeView(db.edges), p.decayed, p.closed); }
    GraphTables(p.db, after);
  }

  lemma AgeProjects(g: Graph, cis: map<nat, CiKey>, edges: map<EdgeKey, GraphEdge>, decayed: seq<EdgeRow>, closed: set<EdgeKey>)
    requires GraphIs(g, cis, edges)
    ensures GraphIs(Project(g, [], decayed, closed, {}), cis, edges + Shown(decayed) - closed)
  {
    hide GraphIs, Project, Shown;
    assert KeysOf([]) == map[] && cis + map[] - {} == cis;
    ProjectKeeps(g, cis, edges, [], decayed, closed, {});
  }

  lemma GraphTables(db: Db, after: Db)
    requires Tables(db) && after == db.(graph := after.graph)
    ensures Tables(after)
  {
  }

  /** Edge by edge: declared edges and edges without a marker are untouched, no confidence rises,
      a lowered one stays at or above the floor, and no marked inferred edge past its time to
      live stays open. */
  lemma AgedEdge(before: map<EdgeKey, EdgeRow>, after: map<EdgeKey, EdgeRow>, wall: int, now: int, k: EdgeKey)
    requires Aged(before, after, before.Keys, wall, now) && k in before
    ensures var d := before[k].data;
            && (d.source == Declared || LastObservedAt(d.evidence).None? ==> k in after && after[k] == before[k])
            && (k in after ==> after[k].data.confidence <= d.confidence && after[k].data.source == d.source
                               && LastObservedAt(after[k].data.evidence) == LastObservedAt(d.evidence))
            && (k in after && after[k].data.confidence < d.confidence ==> after[k].data.confidence >= 0.2)
            && (d.source == Inferred && LastObservedAt(d.evidence).Some? ==>
                  (k !in after <==> wall - LastObservedAt(d.evidence).value > 30 * 86400))
  {
    var d := before[k].data;
    var a := ActionOf(before[k], wall);
    DecayStep(d, wall, DECAY_DETAIL);
    SkipMeansDeclared(before[k], wall);
    hide DecayedConfidence, AlreadyDecayed;
  }

  /** An inferred edge with a marker between seven and thirty days old that is above 0.2 and has no
      decay note of this clock is weakened along the curve, under its id, from now on, with one more
      note; every other open edge stays as it is. */
  lemma WeakenedEdge(before: map<EdgeKey, EdgeRow>, after: map<EdgeKey, EdgeRow>, wall: int, now: int, k: EdgeKey)
    requires Aged(before, after, before.Keys, wall, now) && k in before && k in after && before[k].key == k
    ensures var d := before[k].data;
            var due := && d.source == Inferred && LastObservedAt(d.evidence).Some?
                       && 7 * 86400 < wall - LastObservedAt(d.evidence).value <= 30 * 86400 && d.confidence > 0.2
                       && forall e :: e in d.evidence && e.observedAt == wall ==> e.source != "inferred-edge-decay";
            && (!due ==> after[k] == before[k])
            && (due ==>
                  && after[k].id == before[k].id && after[k].key == k && after[k].validFrom == now && after[k].Open()
                  && DecayedConfidence(d.confidence, wall - LastObservedAt(d.evidence).value) == Some(after[k].data.confidence)
                  && |after[k].data.evidence| == |d.evidence| + 1 && after[k].data.evidence[..|d.evidence|] == d.evidence
                  && after[k].data.evidence[|d.evidence|].source == "inferred-edge-decay"
                  && after[k].data.evidence[|d.evidence|].observedAt == wall)
  {
    AgeExact(before[k].data, wall, DECAY_DETAIL);
    DecayNote(before[k].data, wall, DECAY_DETAIL);
    hide AgeAction, LastObservedAt, DecayedConfidence;
  }

  lemma DecayNote(d: EdgeData, now: int, detail: string)
    ensures AgeAction(d, now, detail).Decay? ==>
              AgeAction(d, now, detail).data.evidence == d.evidence + [Evidence("inferred-edge-decay", now, Some(detail))]
  {
    hide DecayedConfidence, LastObservedAt, AlreadyDecayed;
  }

  /** An inferred sight of an open inferred edge, as the table records it. */
  lemma ReobservedRow(db: Db, key: EdgeKey, data: EdgeData, n: nat)
    requires Tables(db) && UpsertEdge(db, key, data).Ok? && key in OpenMap(db.edges) && n >= 1
    requires WellObserved(OpenMap(db.edges)[key].data, n) && InferredSight(data)
    ensures var (before, r) := (OpenMap(db.edges)[key], UpsertEdge(db, key, data).value.1);
            && r.id == before.id && r.validFrom == db.now && WellObserved(r.data, n + 1) && OneMarker(r.data.evidence)
            && r.data.confidence == Curve(n + 1) && Keeps(before.data, data, r.data)
  {
    hide Tables, WellObserved, OneMarker, Keeps, UpsertChange, Curve;
    var c := OpenMap(db.edges)[key];
    SeenStep(c.data, n, data);
    SeenKeeps(c.data, n, data);
    IsCurrent(db, key);
    hide OpenMap, Current;
  }

  /** After a sweep every open edge would be left alone by another sweep on the same clock. */
  lemma NothingLeft(before: map<EdgeKey, EdgeRow>, after: map<EdgeKey, EdgeRow>, wall: int, now: int, k: EdgeKey)
    requires Aged(before, after, before.Keys, wall, now) && k in after
    ensures ActionOf(after[k], wall).Skip? || ActionOf(after[k], wall).Untouched?
  {
    AgeIdempotent(before[k].data, wall, DECAY_DETAIL, DECAY_DETAIL);
    hide AgeAction;
  }

  /** A second sweep on the same clock, in any later transaction, changes nothing. */
  lemma SecondSweep(db: Db, rows: seq<EdgeRow>, wall: int, t: int, rows2: seq<EdgeRow>)
    requires Tables(db) && Agree(db) && ListsAll(db, rows) && AgeEdges(db, rows, wall).Ok? && t > db.now
    requires ListsAll(AgeEdges(db, rows, wall).value.0, rows2)
    ensures var later := Begin(AgeEdges(db, rows, wall).value.0, t);
            AgeEdges(later, rows2, wall).Ok? && AgeEdges(later, rows2, wall).value.0 == later
            && AgeEdges(later, rows2, wall).value.1.decayed == 0 && AgeEdges(later, rows2, wall).value.1.closed == 0
  {
    AgeKeeps(db, rows, wall);
    hide Tables, OpenMap, Aged, Agree;
    var after := AgeEdges(db, rows, wall).value.0;
    var later := Begin(after, t);
    hide AgeEdges;
    forall r | r in rows2 ensures ActionOf(r, wall).Skip? || ActionOf(r, wall).Untouched? {
      NothingLeft(OpenMap(db.edges), OpenMap(after.edges), wall, db.now, r.key);
    }
    IdleSweep(later, rows2, wall);
  }

  lemma {:induction false} IdleRows(db: Db, rows: seq<EdgeRow>, wall: int)
    requires forall r :: r in rows ==> ActionOf(r, wall).Skip? || ActionOf(r, wall).Untouched?
    ensures AgeRows(db, rows, wall).Ok?
    ensures var p := AgeRows(db, rows, wall).value;
            p.db == db && p.decayed == [] && p.closed == {} && p.result.decayed == 0 && p.result.closed == 0
    decreases |rows|
  {
    hide ActionOf;
    if rows != [] { IdleRows(db, rows[..|rows| - 1], wall); }
  }

  lemma IdleSweep(db: Db, rows: seq<EdgeRow>, wall: int)
    requires forall r :: r in rows ==> ActionOf(r, wall).Skip? || ActionOf(r, wall).Untouched?
    ensures AgeEdges(db, rows, wall).Ok? && AgeEdges(db, rows, wall).value.0 == db
    ensures AgeEdges(db, rows, wall).value.1.decayed == 0 && AgeEdges(db, rows, wall).value.1.closed == 0
  {
    IdleRows(db, rows, wall);
    var g := db.graph;
    assert DropCis(DropEdges(g, {}), {}) == g by {
      assert g.edges - {} == g.edges && g.vertices - {} == g.vertices;
    }
  }
}
