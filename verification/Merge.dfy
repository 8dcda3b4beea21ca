/** Accepting a fuzzy merge candidate and reversing a merge, as functions of the database
    (services/reconciliation/src/infra_twin/reconciliation/candidates.py and unmerge.py). */
module Merging {
  import opened Model
  import opened Observations
  import opened Versions
  import opened Store

  const GENERATION_SOURCE := "fuzzy-candidate"
  const MERGE_EVIDENCE := "merge-candidate"
  const UNMERGE_EVIDENCE := "unmerge"

  datatype Refusal = NotFound | AlreadyResolved | AlreadyReversed | AmbiguousIdentity | SplitIntoItself | Aborted

  datatype Answer<+T> = Done(value: T) | Refused(why: Refusal)

  /* ---------------------------------------------------------------- choosing the canonical CI */

  predicate TextLess(a: string, b: string) {
    b != "" && (a == "" || a[0] < b[0] || (a[0] == b[0] && TextLess(a[1..], b[1..])))
  }

  /** The smaller external id is canonical; the smaller id breaks a tie. */
  predicate FirstIsCanonical(a: CiRow, b: CiRow) {
    TextLess(a.key.externalId, b.key.externalId)
    || (!TextLess(b.key.externalId, a.key.externalId) && a.id <= b.id)
  }

  /* ---------------------------------------------------------------- moving identities */

  function MoveKeys(m: map<SourceKey, nat>, from: nat, to: nat): map<SourceKey, nat> {
    map k | k in m :: if m[k] == from then to else m[k]
  }

  function MoveAliases(m: map<string, Alias>, from: nat, to: nat): map<string, Alias> {
    map k | k in m :: if m[k].ciId == from then m[k].(ciId := to) else m[k]
  }

  function KeysBoundTo(m: map<SourceKey, nat>, id: nat): set<SourceKey> { set k | k in m && m[k] == id }

  predicate SourceKeyLess(a: SourceKey, b: SourceKey) {
    TextLess(a.source, b.source) || (a.source == b.source && TextLess(a.nativeId, b.nativeId))
  }

  /* ---------------------------------------------------------------- moving edges */

  function MovedKey(k: EdgeKey, from: nat, to: nat): EdgeKey {
    k.(fromId := if k.fromId == from then to else k.fromId, toId := if k.toId == from then to else k.toId)
  }

  predicate Touches(k: EdgeKey, id: nat) { k.fromId == id || k.toId == id }

  function WithNote(d: EdgeData, note: Evidence): EdgeData { d.(evidence := d.evidence + [note]) }

  /** Close one edge and upsert it at the moved endpoints. */
  ghost function MoveEdge(db: Db, e: EdgeRow, from: nat, to: nat, note: Evidence): Outcome<(Db, EdgeRow)> {
    UpsertEdge(CloseEdges(db, {e.key}), MovedKey(e.key, from, to), WithNote(e.data, note))
  }

  /** The loop, over the rows in the order they were read. */
  ghost function MoveEdges(db: Db, rows: seq<EdgeRow>, from: nat, to: nat, note: Evidence): Outcome<(Db, seq<EdgeRow>)> {
    if rows == [] then Ok((db, []))
    else
      match MoveEdges(db, rows[..|rows| - 1], from, to, note)
      case Abort => Abort
      case Ok((mid, moved)) =>
        match MoveEdge(mid, rows[|rows| - 1], from, to, note)
        case Abort => Abort
        case Ok((after, r)) => Ok((after, moved + [r]))
  }

  ghost function KeySet(rows: seq<EdgeRow>): set<EdgeKey> { set r | r in rows :: r.key }

  lemma KeySetAppend(rows: seq<EdgeRow>, r: EdgeRow)
    ensures KeySet(rows + [r]) == KeySet(rows) + {r.key}
  {
    assert forall x :: x in rows + [r] <==> x in rows || x == r;
  }

  /** All rows leave `from`, and no row ends up where another one starts. */
  ghost predicate Movable(rows: seq<EdgeRow>, from: nat, to: nat) {
    from != to && forall r :: r in rows ==> Touches(r.key, from)
  }

  lemma MovedAway(k: EdgeKey, from: nat, to: nat)
    requires from != to
    ensures !Touches(MovedKey(k, from, to), from)
  {
  }

  ghost predicate MoveInv(start: Db, rows: seq<EdgeRow>, after: Db, moved: seq<EdgeRow>) {
    && Tables(after) && after == start.(edges := after.edges, nextId := after.nextId) && start.nextId <= after.nextId
    && OpenMap(after.edges) == OpenMap(start.edges) + ByKey(moved) - KeySet(rows)
    && Stable(start.edges, after.edges, start.now)
    && |moved| == |rows|
  }

  /** What one move does to the current edges. */
  lemma MoveOne(db: Db, e: EdgeRow, from: nat, to: nat, note: Evidence)
    requires Tables(db) && to < db.nextId && MoveEdge(db, e, from, to, note).Ok?
    requires e.key.fromId < db.nextId && e.key.toId < db.nextId
    ensures var (after, r) := MoveEdge(db, e, from, to, note).value;
            && Tables(after) && after == db.(edges := after.edges, nextId := after.nextId) && db.nextId <= after.nextId
            && r.key == MovedKey(e.key, from, to)
            && OpenMap(after.edges) == (OpenMap(db.edges) - {e.key})[r.key := r]
            && Stable(db.edges, after.edges, db.now)
  {
    hide Tables, OpenMap, Stable, EdgeView, UpsertEdge, CloseEdges;
    var mid := CloseEdges(db, {e.key});
    CloseEdgesEffect(db, {e.key});
    CloseFrame(db, {e.key});
    UpsertEdgeEffect(mid, MovedKey(e.key, from, to), WithNote(e.data, note));
    var (after, r) := MoveEdge(db, e, from, to, note).value;
    StableTrans(db.edges, mid.edges, after.edges, db.now);
  }

  lemma CloseFrame(db: Db, keys: set<EdgeKey>)
    ensures CloseEdges(db, keys) == db.(edges := CloseEdges(db, keys).edges)
  {
  }

  lemma MoveStep(start: Db, rows: seq<EdgeRow>, mid: Db, moved: seq<EdgeRow>, e: EdgeRow, after: Db, r: EdgeRow, from: nat)
    requires MoveInv(start, rows, mid, moved)
    requires Tables(after) && after == mid.(edges := after.edges, nextId := after.nextId) && mid.nextId <= after.nextId
    requires OpenMap(after.edges) == (OpenMap(mid.edges) - {e.key})[r.key := r]
    requires Stable(mid.edges, after.edges, start.now)
    requires !Touches(r.key, from) && Touches(e.key, from) && forall x :: x in rows ==> Touches(x.key, from)
    ensures MoveInv(start, rows + [e], after, moved + [r])
  {
    hide Tables, Stable, OpenMap;
    ByKeyAppend(moved, r);
    KeySetAppend(rows, e);
    StableTrans(start.edges, mid.edges, after.edges, start.now);
    hide ByKey, KeySet;
    NotAmong(rows, r.key, from);
    PutAfterRemoving(OpenMap(start.edges), ByKey(moved), KeySet(rows), e.key, r.key, r);
  }

  lemma PutAfterRemoving<K, V>(m: map<K, V>, added: map<K, V>, removed: set<K>, k: K, n: K, v: V)
    requires n != k && n !in removed
    ensures (m + added - removed - {k})[n := v] == m + added[n := v] - (removed + {k})
  {
  }

  lemma NotAmong(rows: seq<EdgeRow>, k: EdgeKey, from: nat)
    requires !Touches(k, from) && forall x :: x in rows ==> Touches(x.key, from)
    ensures k !in KeySet(rows)
  {
  }

  /** The rows come from the table and the target is a known CI. */
  ghost predicate Known(db: Db, rows: seq<EdgeRow>, to: nat) {
    to < db.nextId && forall r :: r in rows ==> r.key.fromId < db.nextId && r.key.toId < db.nextId
  }

  lemma {:induction false} MoveAll(db: Db, rows: seq<EdgeRow>, from: nat, to: nat, note: Evidence)
    requires Tables(db) && Known(db, rows, to) && Movable(rows, from, to)
    requires MoveEdges(db, rows, from, to, note).Ok?
    ensures MoveInv(db, rows, MoveEdges(db, rows, from, to, note).value.0, MoveEdges(db, rows, from, to, note).value.1)
    decreases |rows|
  {
    hide Tables, MoveInv, MoveEdge, OpenMap, Stable;
    if rows == [] {
      NothingMoved(db);
    } else {
      var init, e := rows[..|rows| - 1], rows[|rows| - 1];
      MoveAll(db, init, from, to, note);
      var (mid, moved) := MoveEdges(db, init, from, to, note).value;
      MidKnown(db, init, mid, moved);
      MoveOne(mid, e, from, to, note);
      var (after, r) := MoveEdge(mid, e, from, to, note).value;
      MovedAway(e.key, from, to);
      MoveStep(db, init, mid, moved, e, after, r, from);
      assert rows == init + [e];
    }
  }

  lemma MidKnown(db: Db, rows: seq<EdgeRow>, mid: Db, moved: seq<EdgeRow>)
    requires MoveInv(db, rows, mid, moved)
    ensures Tables(mid) && mid.now == db.now && db.nextId <= mid.nextId
  {
    hide Tables, OpenMap, Stable;
  }

  lemma NothingMoved(db: Db)
    requires Tables(db)
    ensures MoveInv(db, [], db, [])
  {
    hide Tables, FactsAt;
    assert OpenMap(db.edges) + map[] - {} == OpenMap(db.edges);
  }

  /* ---------------------------------------------------------------- accept */

  /** What an acceptance works with: the two CIs and the identity that makes it reversible. */
  datatype Plan = Plan(canonical: CiRow, merged: CiRow, key: SourceKey, synthesized: bool)

  /** The rows an edge loop visits: the open rows of some keys, in some order. */
  ghost predicate Lists(edges: Rows<EdgeKey, EdgeData>, keys: set<EdgeKey>, rows: seq<EdgeRow>) {
    && KeySet(rows) == keys && keys <= OpenMap(edges).Keys
    && (forall r :: r in rows ==> r.key in OpenMap(edges) && r == OpenMap(edges)[r.key])
    && (forall i, j :: 0 <= i < j < |rows| ==> rows[i].key != rows[j].key)
  }

  /** Declared open edges attached to the merged CI, but for those that would collapse. */
  ghost function EdgesToMerge(edges: Rows<EdgeKey, EdgeData>, merged: nat, canonical: nat): set<EdgeKey> {
    set k | k in OpenMap(edges) && OpenMap(edges)[k].data.source == Declared && Touches(k, merged)
            && MovedKey(k, merged, canonical).fromId != MovedKey(k, merged, canonical).toId
  }

  ghost function SmallestKey(keys: set<SourceKey>): (k: SourceKey)
    requires keys != {}
    ensures k in keys
  {
    if k :| k in keys && forall j :: j in keys ==> j == k || SourceKeyLess(k, j) then k
    else var k :| k in keys; k
  }

  ghost function PlanMerge(db: Db, id: nat): Answer<Plan> {
    if id !in db.candidates then Refused(NotFound)
    else if db.candidates[id].status != Pending then Refused(AlreadyResolved)
    else
      match (CurrentById(db.cis, db.candidates[id].ciA), CurrentById(db.cis, db.candidates[id].ciB))
      case (Some(a), Some(b)) =>
        var (canonical, merged) := if FirstIsCanonical(a, b) then (a, b) else (b, a);
        var keys := KeysBoundTo(db.sourceKeys, merged.id);
        var key := if keys == {} then SourceKey(GENERATION_SOURCE, merged.key.externalId) else SmallestKey(keys);
        if key.nativeId == canonical.key.externalId then Refused(AmbiguousIdentity)
        else Done(Plan(canonical, merged, key, keys == {}))
      case _ => Refused(NotFound)
  }

  function MergeNote(p: Plan, id: nat, at: int): Evidence {
    Evidence(MERGE_EVIDENCE, at, Some("re-pointed from merged CI " + Decimal(p.merged.id) + " to canonical CI "
      + Decimal(p.canonical.id) + " via accepted fuzzy candidate " + Decimal(id)))
  }

  /** Both CIs' identities now lead to the canonical one. */
  function MoveIdentities(db: Db, p: Plan): Db {
    var bound := if p.synthesized then db.sourceKeys[p.key := p.merged.id] else db.sourceKeys;
    db.(sourceKeys := MoveKeys(bound, p.merged.id, p.canonical.id),
        aliases := MoveAliases(db.aliases, p.merged.id, p.canonical.id))
  }

  /** Close the merged CI, record the merge, resolve the candidate, project. */
  ghost function SealMerge(db: Db, p: Plan, id: nat, c: Candidate, rows: seq<EdgeRow>, moved: seq<EdgeRow>): Db {
    CloseCis(db, {p.merged.key}).(
      merges := db.merges + [Merge(p.canonical.id, p.key.source, p.key.nativeId)],
      candidates := db.candidates[id := c.(status := Accepted(|db.merges|))],
      graph := Project(db.graph, [p.canonical], moved, KeySet(rows), {p.merged.id}))
  }

  ghost function AcceptCandidate(db: Db, id: nat, rows: seq<EdgeRow>): Answer<Db> {
    match PlanMerge(db, id)
    case Refused(why) => Refused(why)
    case Done(p) =>
      match MoveEdges(MoveIdentities(db, p), rows, p.merged.id, p.canonical.id, MergeNote(p, id, db.now))
      case Abort => Refused(Aborted)
      case Ok((mid, moved)) => Done(SealMerge(mid, p, id, db.candidates[id], rows, moved))
  }

  /** A candidate is about two CIs (CHECK ci_id_a < ci_id_b). */
  ghost predicate Distinct(db: Db, id: nat) { id in db.candidates ==> db.candidates[id].ciA != db.candidates[id].ciB }

  lemma PlanFacts(db: Db, id: nat)
    requires Tables(db) && Distinct(db, id) && PlanMerge(db, id).Done?
    ensures var p := PlanMerge(db, id).value;
            && id in db.candidates && p.canonical in db.cis && p.canonical.Open() && p.merged in db.cis && p.merged.Open()
            && p.canonical.id != p.merged.id && p.canonical.key != p.merged.key
            && p.canonical.id in CiView(db.cis) && CiView(db.cis)[p.canonical.id] == p.canonical.key
            && p.merged.id in CiView(db.cis) && IdsUnder(db.cis, {p.merged.key}) == {p.merged.id}
            && p.canonical.id < db.nextId && p.merged.id < db.nextId && p.key.nativeId != p.canonical.key.externalId
            && (if p.synthesized then KeysBoundTo(db.sourceKeys, p.merged.id) == {}
                else p.key in KeysBoundTo(db.sourceKeys, p.merged.id))
  {
    var p := PlanMerge(db, id).value;
    CiViewIs(db.cis, db.now, p.canonical.id, p.canonical);
    CiViewIs(db.cis, db.now, p.merged.id, p.merged);
    UnderOne(db, p.merged);
    if p.canonical.key == p.merged.key { OneOpen(db.cis, db.now, p.canonical, p.merged); }
  }

  lemma UnderOne(db: Db, r: CiRow)
    requires Tables(db) && r in db.cis && r.Open()
    ensures IdsUnder(db.cis, {r.key}) == {r.id}
  {
    CiViewIs(db.cis, db.now, r.id, r);
    forall i | i in IdsUnder(db.cis, {r.key}) ensures i == r.id {
      var s :| s in db.cis && s.Open() && s.id == i;
      CiViewIs(db.cis, db.now, i, s);
      OneOpen(db.cis, db.now, r, s);
    }
  }

  lemma ListedKnown(db: Db, keys: set<EdgeKey>, rows: seq<EdgeRow>, to: nat)
    requires Tables(db) && Lists(db.edges, keys, rows) && to < db.nextId
    ensures Known(db, rows, to)
  {
    forall r | r in rows ensures r.key.fromId < db.nextId && r.key.toId < db.nextId {
      OpenMapRow(db.edges, r.key);
    }
  }

  lemma IdentitiesOnly(db: Db, p: Plan)
    requires Tables(db)
    ensures Tables(MoveIdentities(db, p))
    ensures MoveIdentities(db, p) == db.(sourceKeys := MoveIdentities(db, p).sourceKeys, aliases := MoveIdentities(db, p).aliases)
  {
  }

  ghost predicate ListsMerge(db: Db, id: nat, rows: seq<EdgeRow>) {
    PlanMerge(db, id).Done? ==>
      var p := PlanMerge(db, id).value; Lists(db.edges, EdgesToMerge(db.edges, p.merged.id, p.canonical.id), rows)
  }

  /** The stages of a successful acceptance. */
  ghost predicate Accepting(db: Db, id: nat, rows: seq<EdgeRow>, p: Plan, mid: Db, moved: seq<EdgeRow>) {
    && PlanMerge(db, id) == Done(p)
    && MoveEdges(MoveIdentities(db, p), rows, p.merged.id, p.canonical.id, MergeNote(p, id, db.now)) == Ok((mid, moved))
    && MoveInv(MoveIdentities(db, p), rows, mid, moved)
    && id in db.candidates
    && AcceptCandidate(db, id, rows) == Done(SealMerge(mid, p, id, db.candidates[id], rows, moved))
  }

  lemma AcceptStages(db: Db, id: nat, rows: seq<EdgeRow>) returns (p: Plan, mid: Db, moved: seq<EdgeRow>)
    requires Tables(db) && Distinct(db, id) && AcceptCandidate(db, id, rows).Done?
    requires ListsMerge(db, id, rows)
    ensures Accepting(db, id, rows, p, mid, moved)
  {
    hide Tables, PlanMerge, MoveEdges, MoveInv, SealMerge, OpenMap, MergeNote, MoveIdentities;
    p := PlanMerge(db, id).value;
    PlanFacts(db, id);
    IdentitiesOnly(db, p);
    var start := MoveIdentities(db, p);
    ListedKnown(start, EdgesToMerge(db.edges, p.merged.id, p.canonical.id), rows, p.canonical.id);
    var result := MoveEdges(start, rows, p.merged.id, p.canonical.id, MergeNote(p, id, db.now)).value;
    mid, moved := result.0, result.1;
    assert Movable(rows, p.merged.id, p.canonical.id) by {
      forall r | r in rows ensures Touches(r.key, p.merged.id) { assert r.key in KeySet(rows); }
    }
    MoveAll(start, rows, p.merged.id, p.canonical.id, MergeNote(p, id, db.now));
  }

  /** An acceptance keeps the tables coherent, the graph the projection of the current state and
      the past as it was; it resolves the candidate and closes just the merged CI. */
  lemma AcceptKeeps(db: Db, id: nat, rows: seq<EdgeRow>)
    requires Tables(db) && Distinct(db, id) && ListsMerge(db, id, rows)
    requires AcceptCandidate(db, id, rows).Done?
    ensures var after := AcceptCandidate(db, id, rows).value;
            && Tables(after) && (Agree(db) ==> Agree(after)) && db.nextId <= after.nextId
            && Stable(db.cis, after.cis, db.now) && Stable(db.edges, after.edges, db.now)
            && CiView(after.cis) == CiView(db.cis) - {PlanMerge(db, id).value.merged.id}
            && id in db.candidates && after.candidates == db.candidates[id := db.candidates[id].(status := Accepted(|db.merges|))]
            && PlanMerge(after, id) == Refused(AlreadyResolved)
  {
    hide Tables, PlanMerge, MoveEdges, MoveInv, OpenMap, MergeNote, MoveIdentities, Agree, CiView, Lists, EdgesToMerge, Distinct, AcceptCandidate, ListsMerge, Stable;
    var p, mid, moved := AcceptStages(db, id, rows);
    AcceptAgrees(db, id, rows, p, mid, moved);
    ResolvedOnce(AcceptCandidate(db, id, rows).value, id);
  }

  lemma ResolvedOnce(db: Db, id: nat)
    requires id in db.candidates && db.candidates[id].status != Pending
    ensures PlanMerge(db, id) == Refused(AlreadyResolved)
  {
  }

  lemma KeysOfOne(r: CiRow)
    ensures KeysOf([r]) == map[r.id := r.key]
  {
    assert [r][..0] == [];
  }

  /** Projecting an edge move: closed rows out, moved rows in, some CIs in and out. */
  lemma MoveAgrees(start: Db, rows: seq<EdgeRow>, after: Db, moved: seq<EdgeRow>, cis: map<nat, CiKey>, current: CiRow,
                   closed: set<nat>)
    requires Tables(start) && MoveInv(start, rows, after, moved)
    requires GraphIs(start.graph, cis, EdgeView(start.edges))
    requires current.id in cis || forall k :: k in EdgeView(start.edges) ==> !Touches(k, current.id)
    ensures GraphIs(Project(start.graph, [current], moved, KeySet(rows), closed),
                    cis[current.id := current.key] - closed, EdgeView(after.edges))
  {
    hide Tables, Stable, OpenMap, GraphIs, EdgeView, Project, NoneDangling, KeysOf, Shown, ByKey, KeySet;
    KeysOfOne(current);
    ViewOfChange(start.edges, after.edges, moved, KeySet(rows));
    OneDangling(cis, EdgeView(start.edges), current);
    ProjectKeeps(start.graph, cis, EdgeView(start.edges), [current], moved, KeySet(rows), closed);
    PutOne(cis, current.id, current.key);
  }

  lemma PutOne<K, V>(m: map<K, V>, k: K, v: V)
    ensures m + map[k := v] == m[k := v]
  {
  }

  lemma OneDangling(cis: map<nat, CiKey>, edges: map<EdgeKey, GraphEdge>, current: CiRow)
    requires current.id in cis || forall k :: k in edges ==> !Touches(k, current.id)
    ensures NoneDangling(cis, edges, map[current.id := current.key])
  {
  }

  lemma AcceptAgrees(db: Db, id: nat, rows: seq<EdgeRow>, p: Plan, mid: Db, moved: seq<EdgeRow>)
    requires Tables(db) && Distinct(db, id) && Accepting(db, id, rows, p, mid, moved)
    ensures var after := SealMerge(mid, p, id, db.candidates[id], rows, moved);
            && Tables(after) && (Agree(db) ==> Agree(after)) && db.nextId <= after.nextId
            && Stable(db.cis, after.cis, db.now) && Stable(db.edges, after.edges, db.now)
            && CiView(after.cis) == CiView(db.cis) - {p.merged.id}
            && after.candidates == db.candidates[id := db.candidates[id].(status := Accepted(|db.merges|))]
  {
    hide Tables, PlanMerge, MoveEdges, OpenMap, MergeNote, EdgeView, CiView, Project, GraphIs, MoveIdentities, Stable;
    var start := MoveIdentities(db, p);
    PlanFacts(db, id);
    IdentitiesOnly(db, p);
    if Agree(db) { MoveAgrees(start, rows, mid, moved, CiView(db.cis), p.canonical, {p.merged.id}); }
    MoveFrame(start, rows, mid, moved);
    hide MoveInv;
    CloseCisEffect(mid, {p.merged.key});
    var after := SealMerge(mid, p, id, db.candidates[id], rows, moved);
    SealFrame(mid, p, id, db.candidates[id], rows, moved);
    assert CiView(db.cis)[p.canonical.id := p.canonical.key] == CiView(db.cis);
  }

  lemma MoveFrame(start: Db, rows: seq<EdgeRow>, after: Db, moved: seq<EdgeRow>)
    requires MoveInv(start, rows, after, moved)
    ensures Tables(after) && after == start.(edges := after.edges, nextId := after.nextId) && start.nextId <= after.nextId
    ensures Stable(start.edges, after.edges, start.now)
  {
    hide Tables, OpenMap, Stable;
  }

  lemma SealFrame(db: Db, p: Plan, id: nat, c: Candidate, rows: seq<EdgeRow>, moved: seq<EdgeRow>)
    requires Tables(CloseCis(db, {p.merged.key}))
    ensures var after := SealMerge(db, p, id, c, rows, moved);
            && Tables(after) && after.cis == CloseCis(db, {p.merged.key}).cis && after.edges == db.edges
  {
  }

  /* ---------------------------------------------------------------- the candidates themselves */

  function Dismiss(db: Db, id: nat): Answer<Db> {
    if id !in db.candidates then Refused(NotFound)
    else if db.candidates[id].status != Pending then Refused(AlreadyResolved)
    else Done(db.(candidates := db.candidates[id := db.candidates[id].(status := Dismissed)]))
  }

  /** INSERT the pair, smaller id first; a pair that is already there keeps its status. */
  function Offer(db: Db, x: nat, y: nat): Db {
    var (a, b) := if x <= y then (x, y) else (y, x);
    if a == b || exists i :: i in db.candidates && db.candidates[i].ciA == a && db.candidates[i].ciB == b then db
    else db.(candidates := db.candidates[db.nextId := Candidate(a, b, Pending)], nextId := db.nextId + 1)
  }

  predicate SamePair(c: Candidate, d: Candidate) { c.ciA == d.ciA && c.ciB == d.ciB }

  /** Every candidate is an ordered pair of two CIs, and a pair is listed once. */
  ghost predicate Paired(db: Db) {
    && (forall i :: i in db.candidates ==> i < db.nextId && db.candidates[i].ciA < db.candidates[i].ciB)
    && (forall i, j :: i in db.candidates && j in db.candidates && SamePair(db.candidates[i], db.candidates[j]) ==> i == j)
  }

  /** Only recorded merges are reversed. */
  ghost predicate Recorded(db: Db) { forall m :: m in db.unmerged ==> m < |db.merges| }

  lemma RecordedKept(before: Db, after: Db)
    requires Recorded(before) && |before.merges| <= |after.merges|
    requires forall m :: m in after.unmerged ==> m in before.unmerged || m < |after.merges|
    ensures Recorded(after)
  {
  }

  /** A resolved candidate is never touched again. */
  ghost predicate ResolvedStay(before: map<nat, Candidate>, after: map<nat, Candidate>) {
    forall i :: i in before && before[i].status != Pending ==> i in after && after[i] == before[i]
  }

  lemma OfferKeeps(db: Db, x: nat, y: nat)
    requires Tables(db) && Paired(db)
    ensures Tables(Offer(db, x, y)) && Paired(Offer(db, x, y)) && ResolvedStay(db.candidates, Offer(db, x, y).candidates)
    ensures Offer(db, x, y) == db.(candidates := Offer(db, x, y).candidates, nextId := Offer(db, x, y).nextId)
  {
    hide Coherent;
  }

  lemma ResolveKeeps(db: Db, after: Db, id: nat, status: Status)
    requires Paired(db) && id in db.candidates && db.candidates[id].status == Pending && db.nextId <= after.nextId
    requires after.candidates == db.candidates[id := db.candidates[id].(status := status)]
    ensures Paired(after) && ResolvedStay(db.candidates, after.candidates)
  {
  }

  lemma DismissKeeps(db: Db, id: nat)
    requires Tables(db) && Paired(db) && Dismiss(db, id).Done?
    ensures var after := Dismiss(db, id).value;
            && Tables(after) && Paired(after) && ResolvedStay(db.candidates, after.candidates)
            && after == db.(candidates := after.candidates) && PlanMerge(after, id) == Refused(AlreadyResolved)
  {
    ResolveKeeps(db, Dismiss(db, id).value, id, Dismissed);
    hide Coherent, Paired;
  }

  /* ---------------------------------------------------------------- unmerge */

  predicate Contains(s: string, t: string) {
    exists i: nat :: i <= |s| && OccursAt(s, t, i)
  }

  predicate OccursAt(s: string, t: string, i: nat) { i + |t| <= |s| && s[i..i + |t|] == t }

  predicate Mentions(e: Evidence, source: string, externalId: string) {
    e.source == source || (e.detail.Some? && Contains(e.detail.value, externalId))
  }

  /** Some evidence comes from the restored source or names the restored identity. */
  predicate Provenance(evidence: seq<Evidence>, source: string, externalId: string) {
    exists e :: e in evidence && Mentions(e, source, externalId)
  }

  ghost function EdgesToRestore(edges: Rows<EdgeKey, EdgeData>, canonical: nat, m: Merge): set<EdgeKey> {
    set k | k in OpenMap(edges) && OpenMap(edges)[k].data.source == Declared && Touches(k, canonical)
            && Provenance(OpenMap(edges)[k].data.evidence, m.source, m.externalId)
  }

  function UnmergeNote(canonical: nat, restored: nat, mergeId: nat, at: int): Evidence {
    Evidence(UNMERGE_EVIDENCE, at, Some("re-pointed from " + Decimal(canonical) + " to " + Decimal(restored)
      + " via unmerge of " + Decimal(mergeId)))
  }

  function RestoreKeys(keys: map<SourceKey, nat>, m: Merge, restored: nat): map<SourceKey, nat> {
    var k := SourceKey(m.source, m.externalId);
    if k in keys then keys[k := restored] else keys
  }

  function RestoreAliases(aliases: map<string, Alias>, m: Merge, restored: nat): map<string, Alias> {
    map k | k in aliases ::
      if aliases[k].ciId == m.canonical && aliases[k].source == m.source then aliases[k].(ciId := restored) else aliases[k]
  }

  /** The split-off CI, inserted or found, with its identities. */
  ghost function PlanUnmerge(db: Db, mergeId: nat): Answer<(Db, CiRow)> {
    if mergeId >= |db.merges| then Refused(NotFound)
    else if mergeId in db.unmerged then Refused(AlreadyReversed)
    else
      var m := db.merges[mergeId];
      match CurrentById(db.cis, m.canonical)
      case None => Refused(NotFound)
      case Some(c) =>
        match UpsertCi(db, CiKey(c.key.ctype, m.externalId), None, map[])
        case Abort => Refused(Aborted)
        case Ok((split, r)) =>
          if r.id == m.canonical then Refused(SplitIntoItself)
          else Done((split.(sourceKeys := RestoreKeys(split.sourceKeys, m, r.id),
                            aliases := RestoreAliases(split.aliases, m, r.id)), r))
  }

  ghost function SealUnmerge(db: Db, mergeId: nat, r: CiRow, rows: seq<EdgeRow>, moved: seq<EdgeRow>): Db {
    db.(unmerged := db.unmerged + {mergeId}, graph := Project(db.graph, [r], moved, KeySet(rows), {}))
  }

  ghost function Unmerge(db: Db, mergeId: nat, rows: seq<EdgeRow>): Answer<Db> {
    match PlanUnmerge(db, mergeId)
    case Refused(why) => Refused(why)
    case Done((split, r)) =>
      var c := db.merges[mergeId].canonical;
      match MoveEdges(split, rows, c, r.id, UnmergeNote(c, r.id, mergeId, db.now))
      case Abort => Refused(Aborted)
      case Ok((mid, moved)) => Done(SealUnmerge(mid, mergeId, r, rows, moved))
  }

  ghost predicate ListsRestore(db: Db, mergeId: nat, rows: seq<EdgeRow>) {
    PlanUnmerge(db, mergeId).Done? ==>
      Lists(db.edges, EdgesToRestore(db.edges, db.merges[mergeId].canonical, db.merges[mergeId]), rows)
  }

  lemma SplitFacts(db: Db, mergeId: nat)
    requires Tables(db) && PlanUnmerge(db, mergeId).Done?
    ensures var (split, r) := PlanUnmerge(db, mergeId).value;
            && mergeId < |db.merges| && mergeId !in db.unmerged
            && Tables(split) && split == db.(cis := split.cis, nextId := split.nextId, sourceKeys := split.sourceKeys, aliases := split.aliases)
            && db.nextId <= split.nextId && r.id < split.nextId && r.id != db.merges[mergeId].canonical
            && CiView(split.cis) == CiView(db.cis)[r.id := r.key]
            && Stable(db.cis, split.cis, db.now)
            && db.merges[mergeId].canonical in CiView(db.cis)
            && (r.id in CiView(db.cis) || r.id == db.nextId)
  {
    hide CiView, Stable, OpenMap, UpsertCi, Tables;
    var m := db.merges[mergeId];
    var c := CurrentById(db.cis, m.canonical).value;
    var key := CiKey(c.key.ctype, m.externalId);
    CanonicalOpen(db, m.canonical);
    UpsertCiEffect(db, key, None, map[]);
    var (split, r) := PlanUnmerge(db, mergeId).value;
    var up := UpsertCi(db, key, None, map[]).value.0;
    if key in OpenMap(db.cis) { KeyIdOpen(db, key); }
    SplitTables(up, r, split);
  }

  lemma CanonicalOpen(db: Db, id: nat)
    requires Tables(db) && CurrentById(db.cis, id).Some?
    ensures id in CiView(db.cis)
  {
    var c := CurrentById(db.cis, id).value;
    CiViewIs(db.cis, db.now, id, c);
  }

  lemma SplitTables(up: Db, r: CiRow, split: Db)
    requires Tables(up) && r in up.cis && split == up.(sourceKeys := split.sourceKeys, aliases := split.aliases)
    ensures Tables(split) && r.id < split.nextId
  {
  }

  lemma KeyIdOpen(db: Db, key: CiKey)
    requires Tables(db) && key in OpenMap(db.cis)
    ensures OpenMap(db.cis)[key].id in CiView(db.cis)
  {
    OpenMapRow(db.cis, key);
    CiViewIs(db.cis, db.now, OpenMap(db.cis)[key].id, OpenMap(db.cis)[key]);
  }

  ghost predicate Unmerging(db: Db, mergeId: nat, rows: seq<EdgeRow>, split: Db, r: CiRow, mid: Db, moved: seq<EdgeRow>) {
    && PlanUnmerge(db, mergeId) == Done((split, r)) && mergeId < |db.merges|
    && MoveEdges(split, rows, db.merges[mergeId].canonical, r.id,
                 UnmergeNote(db.merges[mergeId].canonical, r.id, mergeId, db.now)) == Ok((mid, moved))
    && MoveInv(split, rows, mid, moved)
    && Unmerge(db, mergeId, rows) == Done(SealUnmerge(mid, mergeId, r, rows, moved))
  }

  lemma UnmergeStages(db: Db, mergeId: nat, rows: seq<EdgeRow>) returns (split: Db, r: CiRow, mid: Db, moved: seq<EdgeRow>)
    requires Tables(db) && ListsRestore(db, mergeId, rows) && Unmerge(db, mergeId, rows).Done?
    ensures Unmerging(db, mergeId, rows, split, r, mid, moved)
  {
    hide Tables, MoveEdges, MoveInv, SealUnmerge, OpenMap, UnmergeNote, CiView, Stable, Lists;
    SplitFacts(db, mergeId);
    hide PlanUnmerge;
    split, r := PlanUnmerge(db, mergeId).value.0, PlanUnmerge(db, mergeId).value.1;
    var c := db.merges[mergeId].canonical;
    RestoreListed(db, mergeId, rows, split);
    ListedKnown(split, KeySet(rows), rows, r.id);
    var result := MoveEdges(split, rows, c, r.id, UnmergeNote(c, r.id, mergeId, db.now)).value;
    mid, moved := result.0, result.1;
    MoveAll(split, rows, c, r.id, UnmergeNote(c, r.id, mergeId, db.now));
  }

  lemma RestoreListed(db: Db, mergeId: nat, rows: seq<EdgeRow>, split: Db)
    requires mergeId < |db.merges| && split.edges == db.edges
    requires Lists(db.edges, EdgesToRestore(db.edges, db.merges[mergeId].canonical, db.merges[mergeId]), rows)
    ensures Lists(split.edges, KeySet(rows), rows)
    ensures forall x :: x in rows ==> Touches(x.key, db.merges[mergeId].canonical)
  {
    hide OpenMap;
    forall x | x in rows ensures Touches(x.key, db.merges[mergeId].canonical) { assert x.key in KeySet(rows); }
  }

  /** A reversal keeps the tables coherent, the graph the projection of the current state and the
      past as it was, and cannot be repeated. */
  lemma UnmergeKeeps(db: Db, mergeId: nat, rows: seq<EdgeRow>)
    requires Tables(db) && ListsRestore(db, mergeId, rows) && Unmerge(db, mergeId, rows).Done?
    ensures var after := Unmerge(db, mergeId, rows).value;
            && Tables(after) && (Agree(db) ==> Agree(after)) && db.nextId <= after.nextId && after.candidates == db.candidates
            && Stable(db.cis, after.cis, db.now) && Stable(db.edges, after.edges, db.now)
            && PlanUnmerge(after, mergeId) == Refused(AlreadyReversed)
  {
    hide Tables, MoveEdges, MoveInv, OpenMap, UnmergeNote, CiView, Agree, PlanUnmerge, Unmerge, Stable, ListsRestore;
    var split, r, mid, moved := UnmergeStages(db, mergeId, rows);
    UnmergeAgrees(db, mergeId, rows, split, r, mid, moved);
  }

  lemma UnmergeAgrees(db: Db, mergeId: nat, rows: seq<EdgeRow>, split: Db, r: CiRow, mid: Db, moved: seq<EdgeRow>)
    requires Tables(db) && Unmerging(db, mergeId, rows, split, r, mid, moved)
    ensures var after := SealUnmerge(mid, mergeId, r, rows, moved);
            && Tables(after) && (Agree(db) ==> Agree(after)) && db.nextId <= after.nextId && after.candidates == db.candidates
            && Stable(db.cis, after.cis, db.now) && Stable(db.edges, after.edges, db.now)
            && PlanUnmerge(after, mergeId) == Refused(AlreadyReversed)
  {
    hide Tables, MoveEdges, OpenMap, UnmergeNote, EdgeView, CiView, Project, GraphIs, Stable, Unmerge;
    SplitFacts(db, mergeId);
    SplitFresh(db, r);
    var after := SealUnmerge(mid, mergeId, r, rows, moved);
    assert PlanUnmerge(after, mergeId) == Refused(AlreadyReversed) by { MoveFrame(split, rows, mid, moved); }
    hide PlanUnmerge;
    if Agree(db) { MoveAgrees(split, rows, mid, moved, CiView(db.cis), r, {}); }
    MoveFrame(split, rows, mid, moved);
    hide MoveInv;
    assert CiView(db.cis)[r.id := r.key] - {} == CiView(db.cis)[r.id := r.key];
    UnmergeTables(mid, mergeId, r, rows, moved);
  }

  lemma UnmergeTables(mid: Db, mergeId: nat, r: CiRow, rows: seq<EdgeRow>, moved: seq<EdgeRow>)
    requires Tables(mid)
    ensures Tables(SealUnmerge(mid, mergeId, r, rows, moved))
  {
  }

  lemma SplitFresh(db: Db, r: CiRow)
    requires Tables(db) && (r.id in CiView(db.cis) || r.id == db.nextId)
    ensures r.id in CiView(db.cis) || forall k :: k in EdgeView(db.edges) ==> !Touches(k, r.id)
  {
    hide CiView;
    forall k | k in EdgeView(db.edges) ensures k.fromId < db.nextId && k.toId < db.nextId {
      OpenMapRow(db.edges, k);
    }
  }
}
