/** Accepting and reversing merges, and the aging sweep, as they run: loops that update the
    connection, each proved to be its database function
    (services/reconciliation/src/infra_twin/reconciliation/candidates.py, unmerge.py, aging.py). */
module Operations {
  import opened Model
  import opened Confidence
  import opened Observations
  import opened Versions
  import opened Store
  import opened Merging
  import opened Repositories
  import opened Aging
  import opened Engine

  /* ---------------------------------------------------------------- the order of texts */

  lemma {:induction false} TextTotal(a: string, b: string)
    ensures TextLess(a, b) || TextLess(b, a) || a == b
    ensures !(TextLess(a, b) && TextLess(b, a))
    ensures !TextLess(a, a)
    decreases |a|
  {
    if a != "" && b != "" {
      TextTotal(a[1..], b[1..]);
      TextTotal(a[1..], a[1..]);
      assert a == [a[0]] + a[1..] && b == [b[0]] + b[1..];
    } else if a != "" {
      TextTotal(a[1..], a[1..]);
    }
  }

  lemma {:induction false} TextTransitive(a: string, b: string, c: string)
    requires TextLess(a, b) && TextLess(b, c)
    ensures TextLess(a, c)
    decreases |a|
  {
    if a != "" && a[0] == b[0] == c[0] { TextTransitive(a[1..], b[1..], c[1..]); }
  }

  lemma KeyTotal(a: SourceKey, b: SourceKey)
    ensures SourceKeyLess(a, b) || SourceKeyLess(b, a) || a == b
    ensures !(SourceKeyLess(a, b) && SourceKeyLess(b, a))
  {
    TextTotal(a.source, b.source);
    TextTotal(a.nativeId, b.nativeId);
  }

  lemma KeyTransitive(a: SourceKey, b: SourceKey, c: SourceKey)
    requires SourceKeyLess(a, b) && SourceKeyLess(b, c)
    ensures SourceKeyLess(a, c)
  {
    if TextLess(a.source, b.source) && TextLess(b.source, c.source) { TextTransitive(a.source, b.source, c.source); }
    if TextLess(a.nativeId, b.nativeId) && TextLess(b.nativeId, c.nativeId) { TextTransitive(a.nativeId, b.nativeId, c.nativeId); }
  }

  predicate Smallest(keys: set<SourceKey>, k: SourceKey) { k in keys && forall j :: j in keys ==> j == k || SourceKeyLess(k, j) }

  lemma {:induction false} SmallestExists(keys: set<SourceKey>)
    requires keys != {}
    ensures exists k :: Smallest(keys, k)
    decreases |keys|
  {
    hide SourceKeyLess;
    var x :| x in keys;
    var rest := keys - {x};
    if rest == {} {
      assert keys == {x} by { assert keys <= rest + {x}; }
      assert Smallest(keys, x);
    } else {
      SmallestExists(rest);
      var m :| Smallest(rest, m);
      KeyTotal(x, m);
      if SourceKeyLess(x, m) {
        forall j | j in keys ensures j == x || SourceKeyLess(x, j) {
          if j != x && j != m {
            assert j in rest;
            KeyTransitive(x, m, j);
          }
        }
        assert Smallest(keys, x);
      } else {
        assert Smallest(keys, m);
      }
    }
  }

  lemma SmallestIs(keys: set<SourceKey>, k: SourceKey)
    requires Smallest(keys, k)
    ensures SmallestKey(keys) == k
  {
    forall j | Smallest(keys, j) ensures j == k { KeyTotal(j, k); }
    hide SourceKeyLess;
    assert k in keys && forall j :: j in keys ==> j == k || SourceKeyLess(k, j);
    assert Smallest(keys, SmallestKey(keys));
  }

  /** Which CI survives does not depend on the order the candidate lists them in. */
  lemma CanonicalIsSymmetric(a: CiRow, b: CiRow)
    requires a.id != b.id
    ensures FirstIsCanonical(a, b) != FirstIsCanonical(b, a)
  {
    TextTotal(a.key.externalId, b.key.externalId);
  }

  /* ---------------------------------------------------------------- moving edges */

  method Filter(rows: seq<EdgeRow>, keep: EdgeRow -> bool) returns (kept: seq<EdgeRow>)
    requires forall i, j :: 0 <= i < j < |rows| ==> rows[i].key != rows[j].key
    ensures forall r :: r in kept <==> r in rows && keep(r)
    ensures forall i, j :: 0 <= i < j < |kept| ==> kept[i].key != kept[j].key
  {
    kept := [];
    for i := 0 to |rows|
      invariant forall r :: r in kept <==> r in rows[..i] && keep(r)
      invariant forall k, j :: 0 <= k < j < |kept| ==> kept[k].key != kept[j].key
    {
      assert rows[..i + 1] == rows[..i] + [rows[i]];
      if keep(rows[i]) {
        NewKey(rows, i, kept);
        kept := kept + [rows[i]];
      }
    }
    assert rows[..|rows|] == rows;
  }

  lemma FilterLists(edges: Rows<EdgeKey, EdgeData>, rows: seq<EdgeRow>, kept: seq<EdgeRow>, keys: set<EdgeKey>)
    requires Lists(edges, OpenMap(edges).Keys, rows) && keys <= OpenMap(edges).Keys
    requires forall r :: r in kept <==> r in rows && r.key in keys
    requires forall i, j :: 0 <= i < j < |kept| ==> kept[i].key != kept[j].key
    ensures Lists(edges, keys, kept)
  {
    hide OpenMap;
    forall k | k in keys ensures k in KeySet(kept) {
      assert k in KeySet(rows);
      var r :| r in rows && r.key == k;
      assert r in kept;
    }
  }

  lemma {:induction false} MoveAborts(db: Db, rows: seq<EdgeRow>, from: nat, to: nat, note: Evidence, n: nat)
    requires n <= |rows| && MoveEdges(db, rows[..n], from, to, note).Abort?
    ensures MoveEdges(db, rows, from, to, note).Abort?
    decreases |rows|
  {
    hide MoveEdge;
    if n < |rows| {
      assert rows[..|rows| - 1][..n] == rows[..n];
      MoveAborts(db, rows[..|rows| - 1], from, to, note, n);
    } else {
      assert rows[..n] == rows;
    }
  }

  lemma MovedTables(db: Db, rows: seq<EdgeRow>, n: nat, from: nat, to: nat, note: Evidence)
    requires Tables(db) && Known(db, rows, to) && Movable(rows, from, to) && n <= |rows|
    requires MoveEdges(db, rows[..n], from, to, note).Ok?
    ensures Tables(MoveEdges(db, rows[..n], from, to, note).value.0)
  {
    hide Tables, MoveEdges;
    MoveAll(db, rows[..n], from, to, note);
    MidKnown(db, rows[..n], MoveEdges(db, rows[..n], from, to, note).value.0, MoveEdges(db, rows[..n], from, to, note).value.1);
  }

  /** Close each edge and reopen it at its new endpoints. */
  method MoveEach(edgeRepo: EdgeRepository, rows: seq<EdgeRow>, from: nat, to: nat, note: Evidence) returns (result: Outcome<seq<EdgeRow>>)
    requires Tables(edgeRepo.conn.db) && Known(edgeRepo.conn.db, rows, to) && Movable(rows, from, to)
    modifies edgeRepo.conn
    ensures match MoveEdges(old(edgeRepo.conn.db), rows, from, to, note)
            case Ok((after, moved)) => result == Ok(moved) && edgeRepo.conn.db == after
            case Abort => result == Abort
  {
    hide Tables, UpsertEdge, CloseEdges, Known, Movable, Coherent, OpenMap, EdgeView, Stable;
    ghost var start := edgeRepo.conn.db;
    var moved: seq<EdgeRow> := [];
    for i := 0 to |rows|
      invariant MoveEdges(start, rows[..i], from, to, note) == Ok((edgeRepo.conn.db, moved))
    {
      var e := rows[i];
      assert rows[..i + 1][..i] == rows[..i];
      MovedTables(start, rows, i, from, to, note);
      TablesCoherent(edgeRepo.conn.db);
      CloseEdgesEffect(edgeRepo.conn.db, {e.key});
      var was := edgeRepo.Close(e.key);
      var newFrom := if e.key.fromId == from then to else e.key.fromId;
      var newTo := if e.key.toId == from then to else e.key.toId;
      var reopened := edgeRepo.Upsert(EdgeKey(e.key.etype, newFrom, newTo, e.key.edgeKey),
                                      EdgeData(e.data.source, e.data.confidence, e.data.evidence + [note]));
      if reopened.Abort? {
        MoveAborts(start, rows, from, to, note, i + 1);
        return Abort;
      }
      moved := moved + [reopened.value];
    }
    assert rows[..|rows|] == rows;
    result := Ok(moved);
  }

  /* ---------------------------------------------------------------- accept */

  /** The smallest identity bound to a CI, if it has one. */
  method FirstKey(sourceKeys: map<SourceKey, nat>, id: nat) returns (key: Option<SourceKey>)
    ensures var keys := KeysBoundTo(sourceKeys, id); key == if keys == {} then None else Some(SmallestKey(keys))
  {
    var keys := set k | k in sourceKeys && sourceKeys[k] == id;
    if keys == {} { return None; }
    SmallestExists(keys);
    var k :| k in keys && Smallest(keys, k);
    SmallestIs(keys, k);
    key := Some(k);
  }

  /** Check the candidate and choose what is merged into what; nothing is written. */
  method Prepare(conn: Connection, id: nat) returns (plan: Answer<Plan>)
    requires Coherent(conn.db.cis, conn.db.now)
    ensures plan == PlanMerge(conn.db, id)
  {
    hide Coherent, TextLess, SmallestKey, OpenMap;
    if id !in conn.db.candidates { return Refused(NotFound); }
    var candidate := conn.db.candidates[id];
    if candidate.status != Pending { return Refused(AlreadyResolved); }
    var cis := new CiRepository(conn);
    var a := cis.GetCurrentById(candidate.ciA);
    var b := cis.GetCurrentById(candidate.ciB);
    if a.None? || b.None? { return Refused(NotFound); }
    var canonical, merged := a.value, b.value;
    if !FirstIsCanonical(a.value, b.value) { canonical, merged := b.value, a.value; }
    var bound := FirstKey(conn.db.sourceKeys, merged.id);
    var key := if bound.Some? then bound.value else SourceKey(GENERATION_SOURCE, merged.key.externalId);
    if key.nativeId == canonical.key.externalId { return Refused(AmbiguousIdentity); }
    plan := Done(Plan(canonical, merged, key, bound.None?));
  }

  /** A whole acceptance; a refusal rolls the transaction back. */
  method AcceptCandidate(conn: Connection, id: nat) returns (result: Answer<nat>, ghost rows: seq<EdgeRow>)
    requires Tables(conn.db) && Distinct(conn.db, id)
    modifies conn
    ensures ListsMerge(old(conn.db), id, rows)
    ensures match Merging.AcceptCandidate(old(conn.db), id, rows)
            case Done(after) => result == Done(|old(conn.db).merges|) && conn.db == after
            case Refused(why) => result == Refused(why) && conn.db == old(conn.db)
  {
    hide Tables, Coherent, PlanMerge, MoveEdges, OpenMap, Lists, EdgesToMerge, Distinct, CloseMany, Project, MergeNote, CiView;
    var start := conn.db;
    rows := [];
    TablesCoherent(start);
    var plan := Prepare(conn, id);
    if plan.Refused? { return Refused(plan.why), []; }
    var p := plan.value;
    PlanFacts(start, id);
    if p.synthesized { conn.db := conn.db.(sourceKeys := conn.db.sourceKeys[p.key := p.merged.id]); }
    var keys, aliases := conn.db.sourceKeys, conn.db.aliases;
    conn.db := conn.db.(sourceKeys := map k | k in keys :: if keys[k] == p.merged.id then p.canonical.id else keys[k],
                        aliases := map k | k in aliases ::
                          if aliases[k].ciId == p.merged.id then aliases[k].(ciId := p.canonical.id) else aliases[k]);
    IdentitiesOnly(start, p);
    TablesCoherent(conn.db);
    var edgeRepo := new EdgeRepository(conn);
    var all := edgeRepo.GetCurrent();
    var repointed := Filter(all, (e: EdgeRow) => e.data.source == Declared && Touches(e.key, p.merged.id)
                       && MovedKey(e.key, p.merged.id, p.canonical.id).fromId != MovedKey(e.key, p.merged.id, p.canonical.id).toId);
    rows := repointed;
    MergeLists(start.edges, all, repointed, p.merged.id, p.canonical.id);
    ListedKnown(conn.db, EdgesToMerge(start.edges, p.merged.id, p.canonical.id), repointed, p.canonical.id);
    var moved := MoveEach(edgeRepo, repointed, p.merged.id, p.canonical.id, MergeNote(p, id, start.now));
    if moved.Abort? {
      conn.db := start;
      return Refused(Aborted), repointed;
    }
    MoveAll(MoveIdentities(start, p), repointed, p.merged.id, p.canonical.id, MergeNote(p, id, start.now));
    MovedFrame(MoveIdentities(start, p), repointed, conn.db, moved.value);
    TablesCoherent(conn.db);
    var cis := new CiRepository(conn);
    var was := cis.Close(p.merged.key);
    var mergeId := |conn.db.merges|;
    conn.db := conn.db.(merges := conn.db.merges + [Merge(p.canonical.id, p.key.source, p.key.nativeId)]);
    conn.db := conn.db.(candidates := conn.db.candidates[id := conn.db.candidates[id].(status := Accepted(mergeId))]);
    OneId(p.merged);
    ProjectInto(conn, [p.canonical], moved.value, [p.merged], repointed);
    result := Done(mergeId);
  }

  lemma OneId(r: CiRow)
    ensures IdSet([r]) == {r.id}
  {
  }

  lemma MovedFrame(start: Db, rows: seq<EdgeRow>, after: Db, moved: seq<EdgeRow>)
    requires MoveInv(start, rows, after, moved)
    ensures Tables(after) && after == start.(edges := after.edges, nextId := after.nextId)
  {
    hide Tables, OpenMap, Stable, ByKey, KeySet;
  }

  lemma MergeLists(edges: Rows<EdgeKey, EdgeData>, all: seq<EdgeRow>, kept: seq<EdgeRow>, merged: nat, canonical: nat)
    requires Lists(edges, OpenMap(edges).Keys, all)
    requires forall r :: r in kept <==> (r in all && r.data.source == Declared && Touches(r.key, merged)
               && MovedKey(r.key, merged, canonical).fromId != MovedKey(r.key, merged, canonical).toId)
    requires forall i, j :: 0 <= i < j < |kept| ==> kept[i].key != kept[j].key
    ensures Lists(edges, EdgesToMerge(edges, merged, canonical), kept)
    ensures merged != canonical ==> Movable(kept, merged, canonical)
  {
    hide OpenMap;
    FilterLists(edges, all, kept, EdgesToMerge(edges, merged, canonical));
  }

  /** Dismiss a pending candidate: nothing else changes. */
  method DismissCandidate(conn: Connection, id: nat) returns (result: Answer<Candidate>)
    modifies conn
    ensures match Dismiss(old(conn.db), id)
            case Done(after) => conn.db == after && result == Done(after.candidates[id])
            case Refused(why) => result == Refused(why) && conn.db == old(conn.db)
  {
    if id !in conn.db.candidates { return Refused(NotFound); }
    var candidate := conn.db.candidates[id];
    if candidate.status != Pending { return Refused(AlreadyResolved); }
    var dismissed := candidate.(status := Dismissed);
    conn.db := conn.db.(candidates := conn.db.candidates[id := dismissed]);
    result := Done(dismissed);
  }

  /* ---------------------------------------------------------------- unmerge */

  /** Check the merge and insert or find the CI to split off, with its identities. */
  method Split(conn: Connection, mergeId: nat) returns (result: Answer<CiRow>)
    requires Tables(conn.db)
    modifies conn
    ensures match PlanUnmerge(old(conn.db), mergeId)
            case Done((after, r)) => result == Done(r) && conn.db == after
            case Refused(why) => result == Refused(why)
  {
    TablesCoherent(conn.db);
    hide Tables, Coherent, UpsertCi, OpenMap;
    if mergeId >= |conn.db.merges| { return Refused(NotFound); }
    if mergeId in conn.db.unmerged { return Refused(AlreadyReversed); }
    var m := conn.db.merges[mergeId];
    var cis := new CiRepository(conn);
    var canonical := cis.GetCurrentById(m.canonical);
    if canonical.None? { return Refused(NotFound); }
    var restored := cis.Upsert(CiKey(canonical.value.key.ctype, m.externalId), None, map[]);
    if restored.Abort? { return Refused(Aborted); }
    var r := restored.value;
    if r.id == m.canonical { return Refused(SplitIntoItself); }
    var bound := SourceKey(m.source, m.externalId);
    if bound in conn.db.sourceKeys { conn.db := conn.db.(sourceKeys := conn.db.sourceKeys[bound := r.id]); }
    var aliases := conn.db.aliases;
    conn.db := conn.db.(aliases := map k | k in aliases ::
      if aliases[k].ciId == m.canonical && aliases[k].source == m.source then aliases[k].(ciId := r.id) else aliases[k]);
    result := Done(r);
  }

  /** A whole reversal; a refusal rolls the transaction back. */
  method Unmerge(conn: Connection, mergeId: nat) returns (result: Answer<nat>, ghost rows: seq<EdgeRow>)
    requires Tables(conn.db)
    modifies conn
    ensures ListsRestore(old(conn.db), mergeId, rows)
    ensures match Merging.Unmerge(old(conn.db), mergeId, rows)
            case Done(after) => conn.db == after && PlanUnmerge(old(conn.db), mergeId).Done?
                                && result == Done(PlanUnmerge(old(conn.db), mergeId).value.1.id)
            case Refused(why) => result == Refused(why) && conn.db == old(conn.db)
  {
    hide Tables, Coherent, PlanUnmerge, MoveEdges, OpenMap, Lists, EdgesToRestore, Project, UnmergeNote, CiView, Provenance, Stable;
    var start := conn.db;
    rows := [];
    var split := Split(conn, mergeId);
    if split.Refused? {
      conn.db := start;
      return Refused(split.why), [];
    }
    var r := split.value;
    SplitFacts(start, mergeId);
    var m := start.merges[mergeId];
    ghost var mid := conn.db;
    TablesCoherent(mid);
    var edgeRepo := new EdgeRepository(conn);
    var all := edgeRepo.GetCurrent();
    var repointed := Filter(all, (e: EdgeRow) => e.data.source == Declared && Touches(e.key, m.canonical)
                                                 && Provenance(e.data.evidence, m.source, m.externalId));
    rows := repointed;
    RestoreLists(start.edges, all, repointed, m, r.id);
    ListedKnown(mid, EdgesToRestore(start.edges, m.canonical, m), repointed, r.id);
    var moved := MoveEach(edgeRepo, repointed, m.canonical, r.id, UnmergeNote(m.canonical, r.id, mergeId, start.now));
    if moved.Abort? {
      conn.db := start;
      return Refused(Aborted), repointed;
    }
    conn.db := conn.db.(unmerged := conn.db.unmerged + {mergeId});
    NoIds();
    ProjectInto(conn, [r], moved.value, [], repointed);
    result := Done(r.id);
  }

  lemma NoIds()
    ensures IdSet([]) == {}
  {
  }

  lemma RestoreLists(edges: Rows<EdgeKey, EdgeData>, all: seq<EdgeRow>, kept: seq<EdgeRow>, m: Merge, restored: nat)
    requires Lists(edges, OpenMap(edges).Keys, all)
    requires forall r :: r in kept <==> (r in all && r.data.source == Declared && Touches(r.key, m.canonical)
               && Provenance(r.data.evidence, m.source, m.externalId))
    requires forall i, j :: 0 <= i < j < |kept| ==> kept[i].key != kept[j].key
    ensures Lists(edges, EdgesToRestore(edges, m.canonical, m), kept)
    ensures restored != m.canonical ==> Movable(kept, m.canonical, restored)
  {
    hide OpenMap, Provenance;
    FilterLists(edges, all, kept, EdgesToRestore(edges, m.canonical, m));
  }

  /* ---------------------------------------------------------------- aging */

  lemma {:induction false} AgeAborts(db: Db, rows: seq<EdgeRow>, wall: int, n: nat)
    requires n <= |rows| && AgeRows(db, rows[..n], wall).Abort?
    ensures AgeRows(db, rows, wall).Abort?
    decreases |rows|
  {
    hide AgeRow;
    if n < |rows| {
      assert rows[..|rows| - 1][..n] == rows[..n];
      AgeAborts(db, rows[..|rows| - 1], wall, n);
    } else {
      assert rows[..n] == rows;
    }
  }

  lemma AgedSoFar(db: Db, rows: seq<EdgeRow>, wall: int, n: nat)
    requires Tables(db) && ListsAll(db, rows) && n < |rows| && AgeRows(db, rows[..n], wall).Ok?
    ensures var p := AgeRows(db, rows[..n], wall).value;
            Tables(p.db) && p.db.now == db.now && rows[n] in p.db.edges && rows[n].Open()
  {
    hide Tables, OpenMap, AgeInv, AgeRows;
    var p := AgeRows(db, rows[..n], wall).value;
    forall r | r in rows[..n] ensures r in rows { }
    AgeAll(db, rows[..n], wall);
    assert rows[..n + 1] == rows[..n] + [rows[n]];
    NotListed(rows[..n], rows[n]);
    assert rows[n] in rows;
    RowStillOpen(db, rows[..n], p, rows[n], wall);
    AgeTables(db, rows[..n], p, wall);
  }

  lemma AgeTables(db: Db, rows: seq<EdgeRow>, p: AgePhase, wall: int)
    requires AgeInv(db, rows, p, wall)
    ensures Tables(p.db) && p.db.now == db.now
  {
    hide Tables, OpenMap, Aged, EdgeView, Stable, Shown, InferredCount, KeySet;
  }

  /** One open edge: skip it, count it, close it, or write it with a lower confidence. */
  method AgeOne(edgeRepo: EdgeRepository, edge: EdgeRow, closed: seq<EdgeRow>, p: AgePhase, wall: int)
    returns (result: Outcome<AgePhase>, nowClosed: seq<EdgeRow>)
    requires edgeRepo.conn.db == p.db && Coherent(p.db.edges, p.db.now) && edge in p.db.edges && edge.Open()
    requires p.closed == KeySet(closed)
    modifies edgeRepo.conn
    ensures result == AgeRow(p, edge, wall)
    ensures result.Ok? ==> edgeRepo.conn.db == result.value.db && result.value.closed == KeySet(nowClosed)
  {
    hide Coherent, OpenMap, CloseMany, KeySet;
    nowClosed := closed;
    var counts := p.result;
    if edge.data.source != Inferred { return Ok(p), closed; }
    var untouched := Ok(p.(result := counts.(untouched := counts.untouched + 1)));
    var last := LastObservedAt(edge.data.evidence);
    if last.None? { return untouched, closed; }
    var age := wall - last.value;
    if age < 0 { return untouched, closed; }
    if age > EDGE_TTL {
      var was := edgeRepo.Close(edge.key);
      KeySetAppend(closed, edge);
      nowClosed := closed + [edge];
      result := Ok(AgePhase(edgeRepo.conn.db, p.decayed, p.closed + {edge.key}, counts.(closed := counts.closed + 1)));
    } else if age > FRESHNESS_WINDOW {
      if Lifecycle.AlreadyDecayed(edge.data.evidence, wall) { return untouched, closed; }
      var confidence := DecayedConfidence(edge.data.confidence, age).value;
      if confidence >= edge.data.confidence { return untouched, closed; }
      var next := edgeRepo.WriteDecayedVersion(edge, confidence, Evidence(DECAY_SOURCE, wall, Some(DECAY_DETAIL)));
      if next.Abort? { return Abort, closed; }
      result := Ok(AgePhase(edgeRepo.conn.db, p.decayed + [next.value], p.closed, counts.(decayed := counts.decayed + 1)));
    } else {
      result := untouched;
    }
  }

  /** The sweep over the open edges; an error rolls the transaction back. */
  method AgeInferredEdges(conn: Connection, wall: int) returns (result: Outcome<AgingResult>, ghost rows: seq<EdgeRow>)
    requires Tables(conn.db)
    modifies conn
    ensures ListsAll(old(conn.db), rows)
    ensures match AgeEdges(old(conn.db), rows, wall)
            case Ok((after, r)) => result == Ok(r) && conn.db == after
            case Abort => result == Abort && conn.db == old(conn.db)
  {
    hide Tables, Coherent, OpenMap, AgeRow, Project, Lists, KeySet;
    var start := conn.db;
    TablesCoherent(start);
    var edgeRepo := new EdgeRepository(conn);
    var current := edgeRepo.GetCurrent();
    rows := current;
    NoKeys();
    var p := AgePhase(start, [], {}, AgingResult(0, 0, 0));
    var closed: seq<EdgeRow> := [];
    for i := 0 to |current|
      invariant AgeRows(start, current[..i], wall) == Ok(p) && conn.db == p.db && p.closed == KeySet(closed)
    {
      assert current[..i + 1][..i] == current[..i];
      AgedSoFar(start, current, wall, i);
      TablesCoherent(p.db);
      var next: Outcome<AgePhase>;
      next, closed := AgeOne(edgeRepo, current[i], closed, p, wall);
      if next.Abort? {
        AgeAborts(start, current, wall, i + 1);
        conn.db := start;
        return Abort, current;
      }
      p := next.value;
    }
    assert current[..|current|] == current;
    NoIds();
    ProjectInto(conn, [], p.decayed, [], closed);
    result := Ok(p.result);
  }

  lemma NoKeys()
    ensures KeySet([]) == {}
  {
  }
}
