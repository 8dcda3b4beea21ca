/** Accepting a candidate and reversing that merge
    (services/reconciliation/src/infra_twin/reconciliation/candidates.py and unmerge.py):
    when the pair of operations gives back what was there, up to the new id of the restored CI. */
module RoundTrip {
  import opened Model
  import opened Observations
  import opened Versions
  import opened Store
  import opened Merging

  ghost function DataView(edges: Rows<EdgeKey, EdgeData>): map<EdgeKey, EdgeData> {
    map k | k in OpenMap(edges) :: OpenMap(edges)[k].data
  }

  ghost function DeclaredKeys(edges: map<EdgeKey, EdgeData>): set<EdgeKey> {
    set k | k in edges && edges[k].source == Declared
  }

  /* ---------------------------------------------------------------- moves without collision */

  /** Moving is one-to-one on keys that do not touch the target. */
  lemma MovedInjective(a: EdgeKey, b: EdgeKey, from: nat, to: nat)
    requires !Touches(a, to) && !Touches(b, to) && MovedKey(a, from, to) == MovedKey(b, from, to)
    ensures a == b
  {
  }

  /** Declared rows that do not touch the target, whose moved keys are free. */
  ghost predicate Free(db: Db, rows: seq<EdgeRow>, from: nat, to: nat) {
    && (forall r :: r in rows ==> r.data.source == Declared && !Touches(r.key, to) && Touches(r.key, from)
                                  && MovedKey(r.key, from, to) !in OpenMap(db.edges))
    && (forall i, j :: 0 <= i < j < |rows| ==> rows[i].key != rows[j].key)
  }

  ghost predicate MovedData(rows: seq<EdgeRow>, moved: seq<EdgeRow>, from: nat, to: nat, note: Evidence) {
    && |moved| == |rows|
    && forall i :: 0 <= i < |rows| ==> moved[i].key == MovedKey(rows[i].key, from, to) && moved[i].data == WithNote(rows[i].data, note)
  }

  lemma {:induction false} ByKeyOf(rows: seq<EdgeRow>)
    requires forall i, j :: 0 <= i < j < |rows| ==> rows[i].key != rows[j].key
    ensures forall i :: 0 <= i < |rows| ==> rows[i].key in ByKey(rows) && ByKey(rows)[rows[i].key] == rows[i]
    ensures forall k :: k in ByKey(rows) ==> exists i :: 0 <= i < |rows| && rows[i].key == k
    decreases |rows|
  {
    if rows != [] {
      var init, last := rows[..|rows| - 1], rows[|rows| - 1];
      ByKeyOf(init);
      forall i | 0 <= i < |rows| ensures rows[i].key in ByKey(rows) && ByKey(rows)[rows[i].key] == rows[i] {
        if i < |init| { assert init[i] == rows[i]; }
      }
      forall k | k in ByKey(rows) ensures exists i :: 0 <= i < |rows| && rows[i].key == k {
        if k != last.key {
          var i :| 0 <= i < |init| && init[i].key == k;
          assert rows[i].key == k;
        } else {
          assert rows[|rows| - 1].key == k;
        }
      }
    }
  }

  /** A move to a free key always succeeds. */
  lemma FreshMove(mid: Db, e: EdgeRow, from: nat, to: nat, note: Evidence)
    requires Tables(mid) && e.data.source == Declared && MovedKey(e.key, from, to) !in OpenMap(mid.edges)
    ensures MoveEdge(mid, e, from, to, note).Ok?
    ensures var (after, r) := MoveEdge(mid, e, from, to, note).value;
            r.key == MovedKey(e.key, from, to) && r.data == WithNote(e.data, note)
  {
    hide Tables;
    CloseEdgesEffect(mid, {e.key});
    var closed := CloseEdges(mid, {e.key});
    hide OpenMap, CloseEdges;
    FreshUpsert(closed, MovedKey(e.key, from, to), WithNote(e.data, note));
  }

  lemma FreshUpsert(db: Db, key: EdgeKey, data: EdgeData)
    requires key !in OpenMap(db.edges) && data.source == Declared && data.evidence != []
    ensures UpsertEdge(db, key, data).Ok?
    ensures UpsertEdge(db, key, data).value.1.key == key && UpsertEdge(db, key, data).value.1.data == data
  {
  }

  /** Declared edges whose moved keys are free can always be moved, and keep their data but for the note. */
  lemma {:induction false} MovesKeepData(db: Db, rows: seq<EdgeRow>, from: nat, to: nat, note: Evidence)
    requires Tables(db) && Known(db, rows, to) && from != to && Free(db, rows, from, to)
    ensures MoveEdges(db, rows, from, to, note).Ok?
    ensures MovedData(rows, MoveEdges(db, rows, from, to, note).value.1, from, to, note)
    decreases |rows|
  {
    hide Tables, MoveEdge, Free, Known, MovedData, MoveInv;
    if rows == [] {
      NoneMoved(from, to, note);
    } else {
      var init, e := rows[..|rows| - 1], rows[|rows| - 1];
      assert rows == init + [e];
      FreeInit(db, init, e, from, to);
      MovesKeepData(db, init, from, to, note);
      MoveAll(db, init, from, to, note);
      var (mid, moved) := MoveEdges(db, init, from, to, note).value;
      MovedKeyFree(db, init, e, mid, moved, from, to, note);
      MidKnown(db, init, mid, moved);
      FreshMove(mid, e, from, to, note);
      MovedAppend(init, moved, e, MoveEdge(mid, e, from, to, note).value.1, from, to, note);
    }
  }

  lemma NoneMoved(from: nat, to: nat, note: Evidence)
    ensures MovedData([], [], from, to, note)
  {
  }

  lemma FreeInit(db: Db, init: seq<EdgeRow>, e: EdgeRow, from: nat, to: nat)
    requires Free(db, init + [e], from, to) && Known(db, init + [e], to) && from != to
    ensures Free(db, init, from, to) && Known(db, init, to) && Movable(init, from, to) && e.data.source == Declared
  {
    hide OpenMap;
    var rows := init + [e];
    assert rows[|init|] == e;
    forall r | r in init ensures r in rows { }
    forall i, j | 0 <= i < j < |init| ensures init[i].key != init[j].key { assert rows[i] == init[i] && rows[j] == init[j]; }
  }

  lemma MovedAppend(init: seq<EdgeRow>, moved: seq<EdgeRow>, e: EdgeRow, r: EdgeRow, from: nat, to: nat, note: Evidence)
    requires MovedData(init, moved, from, to, note) && r.key == MovedKey(e.key, from, to) && r.data == WithNote(e.data, note)
    ensures MovedData(init + [e], moved + [r], from, to, note)
  {
  }

  lemma MovedKeyFree(db: Db, init: seq<EdgeRow>, e: EdgeRow, mid: Db, moved: seq<EdgeRow>, from: nat, to: nat, note: Evidence)
    requires MoveInv(db, init, mid, moved) && MovedData(init, moved, from, to, note) && Free(db, init + [e], from, to)
    ensures MovedKey(e.key, from, to) !in OpenMap(mid.edges)
  {
    hide Tables, OpenMap, Stable;
    var n := MovedKey(e.key, from, to);
    var rows := init + [e];
    assert e == rows[|rows| - 1] && e in rows;
    forall i, j | 0 <= i < j < |moved| ensures moved[i].key != moved[j].key {
      assert rows[i] == init[i] && rows[j] == init[j] && rows[i] in rows && rows[j] in rows;
      if moved[i].key == moved[j].key { MovedInjective(rows[i].key, rows[j].key, from, to); }
    }
    ByKeyOf(moved);
    if n in ByKey(moved) {
      var i :| 0 <= i < |moved| && moved[i].key == n;
      assert rows[i] == init[i] && rows[i] in rows;
      MovedInjective(rows[i].key, e.key, from, to);
    }
  }

  /** The current edges after a collision-free move, key by key. */
  ghost predicate Relocated(before: map<EdgeKey, EdgeData>, after: map<EdgeKey, EdgeData>, keys: set<EdgeKey>,
                            from: nat, to: nat, note: Evidence)
  {
    && (forall k :: k in before && k !in keys ==> k in after && after[k] == before[k])
    && (forall k :: k in keys && k in before ==>
          MovedKey(k, from, to) in after && after[MovedKey(k, from, to)] == WithNote(before[k], note))
    && (forall k :: k in after ==> (k in before && k !in keys) || exists o :: o in keys && o in before && k == MovedKey(o, from, to))
  }

  /** The rows moved and their images, as a change of the current state. */
  ghost predicate Change(before: map<EdgeKey, EdgeRow>, now: map<EdgeKey, EdgeRow>, keys: set<EdgeKey>,
                         rows: seq<EdgeRow>, moved: seq<EdgeRow>, from: nat, to: nat, note: Evidence)
  {
    && now == before + ByKey(moved) - keys && KeySet(rows) == keys && keys <= before.Keys
    && (forall r :: r in rows ==> r == before[r.key] && MovedKey(r.key, from, to) !in before && Touches(r.key, from))
    && MovedData(rows, moved, from, to, note)
    && (forall i :: 0 <= i < |moved| ==> moved[i].key in ByKey(moved) && ByKey(moved)[moved[i].key] == moved[i])
    && (forall k :: k in ByKey(moved) ==> exists i :: 0 <= i < |moved| && moved[i].key == k)
  }

  lemma ChangeKeeps(before: map<EdgeKey, EdgeRow>, now: map<EdgeKey, EdgeRow>, keys: set<EdgeKey>, rows: seq<EdgeRow>,
                    moved: seq<EdgeRow>, from: nat, to: nat, note: Evidence, k: EdgeKey)
    requires Change(before, now, keys, rows, moved, from, to, note) && k in before && k !in keys
    ensures k in now && now[k] == before[k]
  {
    hide ByKey, KeySet;
    forall i | 0 <= i < |moved| ensures moved[i].key != k {
      assert rows[i] in rows;
    }
  }

  lemma ChangeMoves(before: map<EdgeKey, EdgeRow>, now: map<EdgeKey, EdgeRow>, keys: set<EdgeKey>, rows: seq<EdgeRow>,
                    moved: seq<EdgeRow>, from: nat, to: nat, note: Evidence, k: EdgeKey)
    requires Change(before, now, keys, rows, moved, from, to, note) && k in keys && from != to
    ensures k in before && MovedKey(k, from, to) in now && now[MovedKey(k, from, to)].data == WithNote(before[k].data, note)
  {
    assert k in KeySet(rows);
    var r :| r in rows && r.key == k;
    var i :| 0 <= i < |rows| && rows[i] == r;
    hide ByKey;
    assert moved[i].key in ByKey(moved);
    MovedAway(k, from, to);
    NotAmong(rows, moved[i].key, from);
  }

  lemma ChangeOrigin(before: map<EdgeKey, EdgeRow>, now: map<EdgeKey, EdgeRow>, keys: set<EdgeKey>, rows: seq<EdgeRow>,
                     moved: seq<EdgeRow>, from: nat, to: nat, note: Evidence, k: EdgeKey)
    requires Change(before, now, keys, rows, moved, from, to, note) && k in now
    ensures (k in before && k !in keys) || exists o :: o in keys && o in before && k == MovedKey(o, from, to)
  {
    hide ByKey;
    if k in ByKey(moved) {
      var i :| 0 <= i < |moved| && moved[i].key == k;
      assert rows[i] in rows && rows[i].key in keys;
    }
  }

  lemma MoveIsChange(db: Db, keys: set<EdgeKey>, rows: seq<EdgeRow>, after: Db, moved: seq<EdgeRow>, from: nat, to: nat, note: Evidence)
    requires Lists(db.edges, keys, rows) && Free(db, rows, from, to) && from != to
    requires MoveInv(db, rows, after, moved) && MovedData(rows, moved, from, to, note)
    ensures Change(OpenMap(db.edges), OpenMap(after.edges), keys, rows, moved, from, to, note)
  {
    hide Tables, OpenMap, Stable;
    forall i, j | 0 <= i < j < |moved| ensures moved[i].key != moved[j].key {
      assert rows[i] in rows && rows[j] in rows;
      if moved[i].key == moved[j].key { MovedInjective(rows[i].key, rows[j].key, from, to); }
    }
    ByKeyOf(moved);
  }

  lemma MoveRelocates(db: Db, keys: set<EdgeKey>, rows: seq<EdgeRow>, after: Db, moved: seq<EdgeRow>, from: nat, to: nat, note: Evidence)
    requires Lists(db.edges, keys, rows) && Free(db, rows, from, to) && from != to
    requires MoveInv(db, rows, after, moved) && MovedData(rows, moved, from, to, note)
    ensures Relocated(DataView(db.edges), DataView(after.edges), keys, from, to, note)
  {
    hide OpenMap, Change, MoveInv, MovedData, Free, Lists;
    MoveIsChange(db, keys, rows, after, moved, from, to, note);
    var before, now := OpenMap(db.edges), OpenMap(after.edges);
    forall k | k in before && k !in keys ensures k in now && now[k] == before[k] {
      ChangeKeeps(before, now, keys, rows, moved, from, to, note, k);
    }
    forall k | k in keys && k in before
      ensures MovedKey(k, from, to) in now && now[MovedKey(k, from, to)].data == WithNote(before[k].data, note)
    {
      ChangeMoves(before, now, keys, rows, moved, from, to, note, k);
    }
    forall k | k in now ensures (k in before && k !in keys) || exists o :: o in keys && o in before && k == MovedKey(o, from, to) {
      ChangeOrigin(before, now, keys, rows, moved, from, to, note, k);
    }
  }

  /* ---------------------------------------------------------------- the condition */

  /** The edges an acceptance may move: none joins the pair, and no moved key is taken. */
  ghost predicate EdgesApart(db: Db, merged: nat, canonical: nat) {
    forall k :: k in OpenMap(db.edges) && OpenMap(db.edges)[k].data.source == Declared && Touches(k, merged) ==>
      && !Touches(k, canonical) && !(k.fromId == merged && k.toId == merged)
      && MovedKey(k, merged, canonical) !in OpenMap(db.edges)
  }

  /** The merged CI has one source key, its own external id, and the pair has one type. */
  ghost predicate OneIdentity(db: Db, p: Plan) {
    && p.merged.key == CiKey(p.canonical.key.ctype, p.key.nativeId)
    && KeysBoundTo(db.sourceKeys, p.merged.id) == {p.key}
  }

  /** The merged CI's aliases are its source's, the canonical one's are not. */
  ghost predicate AliasesSplit(db: Db, p: Plan) {
    forall k :: k in db.aliases ==>
      && (db.aliases[k].ciId == p.merged.id ==> db.aliases[k].source == p.key.source)
      && (db.aliases[k].ciId == p.canonical.id ==> db.aliases[k].source != p.key.source)
  }

  /** Evidence tells the two CIs' declared edges apart: a merged edge still shows its source once
      the merge note is added, an edge of the canonical CI does not. */
  ghost predicate ProvenanceSplits(edges: map<EdgeKey, EdgeData>, p: Plan, note: Evidence) {
    forall k :: k in edges && edges[k].source == Declared ==>
      && (Touches(k, p.merged.id) ==> Provenance(edges[k].evidence + [note], p.key.source, p.key.nativeId))
      && (Touches(k, p.canonical.id) ==> !Provenance(edges[k].evidence, p.key.source, p.key.nativeId))
  }

  ghost predicate Reversible(db: Db, id: nat) {
    && PlanMerge(db, id).Done?
    && var p := PlanMerge(db, id).value;
       OneIdentity(db, p) && AliasesSplit(db, p) && EdgesApart(db, p.merged.id, p.canonical.id)
  }

  /* ---------------------------------------------------------------- the first half */

  lemma MergeFree(db: Db, merged: nat, canonical: nat, start: Db, rows: seq<EdgeRow>)
    requires start.edges == db.edges && EdgesApart(db, merged, canonical)
    requires Lists(db.edges, EdgesToMerge(db.edges, merged, canonical), rows)
    ensures Free(start, rows, merged, canonical)
  {
    hide OpenMap;
    forall r | r in rows
      ensures r.data.source == Declared && !Touches(r.key, canonical) && Touches(r.key, merged)
      ensures MovedKey(r.key, merged, canonical) !in OpenMap(start.edges)
    {
      assert r.key in KeySet(rows);
    }
  }

  lemma AcceptRelocates(db: Db, id: nat, rows: seq<EdgeRow>, p: Plan, mid: Db, moved: seq<EdgeRow>)
    requires Tables(db) && Distinct(db, id) && ListsMerge(db, id, rows) && Accepting(db, id, rows, p, mid, moved)
    requires EdgesApart(db, p.merged.id, p.canonical.id)
    ensures Relocated(DataView(db.edges), DataView(mid.edges), EdgesToMerge(db.edges, p.merged.id, p.canonical.id),
                      p.merged.id, p.canonical.id, MergeNote(p, id, db.now))
  {
    hide Tables, PlanMerge, MoveEdges, OpenMap, MergeNote, MoveIdentities, SealMerge, MoveInv, AcceptCandidate, CiView;
    hide EdgesToMerge, EdgesApart, Free, Relocated, DataView;
    var m, c, note := p.merged.id, p.canonical.id, MergeNote(p, id, db.now);
    var keys := EdgesToMerge(db.edges, m, c);
    var start := MoveIdentities(db, p);
    PlanFacts(db, id);
    IdentitiesOnly(db, p);
    MergeFree(db, m, c, start, rows);
    ListedKnown(start, keys, rows, c);
    MovesKeepData(start, rows, m, c, note);
    MoveRelocates(start, keys, rows, mid, moved, m, c, note);
  }

  /** Under the condition an acceptance always commits. */
  lemma AcceptCommits(db: Db, id: nat, rows: seq<EdgeRow>)
    requires Tables(db) && Distinct(db, id) && Reversible(db, id) && ListsMerge(db, id, rows)
    ensures AcceptCandidate(db, id, rows).Done?
  {
    hide Tables, PlanMerge, MoveEdges, OpenMap, MergeNote, MoveIdentities, SealMerge, CiView, EdgesToMerge, EdgesApart, Free,
         OneIdentity, AliasesSplit, Lists;
    var p := PlanMerge(db, id).value;
    var m, c := p.merged.id, p.canonical.id;
    PlanFacts(db, id);
    IdentitiesOnly(db, p);
    MergeFree(db, m, c, MoveIdentities(db, p), rows);
    ListedKnown(MoveIdentities(db, p), EdgesToMerge(db.edges, m, c), rows, c);
    MovesKeepData(MoveIdentities(db, p), rows, m, c, MergeNote(p, id, db.now));
  }

  /* ---------------------------------------------------------------- two moves in a row */

  /** The two moves, and the facts about their keys that the condition gives. */
  ghost predicate TwoMoves(d0: map<EdgeKey, EdgeData>, d1: map<EdgeKey, EdgeData>, d2: map<EdgeKey, EdgeData>,
                           k1: set<EdgeKey>, k2: set<EdgeKey>, p: Plan, r: nat, n1: Evidence, n2: Evidence)
  {
    var m, c := p.merged.id, p.canonical.id;
    && m != c && r != m && r != c
    && Relocated(d0, d1, k1, m, c, n1) && Relocated(d1, d2, k2, c, r, n2)
    && (forall k :: k in k1 <==> k in d0 && d0[k].source == Declared && Touches(k, m))
    && (forall k :: k in k2 <==> k in d1 && d1[k].source == Declared && Touches(k, c)
                                 && Provenance(d1[k].evidence, p.key.source, p.key.nativeId))
    && (forall k :: k in k1 ==> !Touches(k, c) && MovedKey(k, m, c) !in d0)
    && (forall k :: k in d0 || k in d1 ==> !Touches(k, r))
  }

  lemma Twice(k: EdgeKey, m: nat, c: nat, r: nat)
    requires !Touches(k, c)
    ensures MovedKey(MovedKey(k, m, c), c, r) == MovedKey(k, m, r)
  {
  }

  ghost function Renamed(keys: set<EdgeKey>, m: nat, r: nat): set<EdgeKey> { set k | k in keys :: MovedKey(k, m, r) }

  /** The data a declared edge ends up with. */
  function Restored(d: EdgeData, touched: bool, n1: Evidence, n2: Evidence): EdgeData {
    if touched then WithNote(WithNote(d, n1), n2) else d
  }

  lemma RestoredKey(d0: map<EdgeKey, EdgeData>, d1: map<EdgeKey, EdgeData>, d2: map<EdgeKey, EdgeData>, k1: set<EdgeKey>,
                    k2: set<EdgeKey>, p: Plan, r: nat, n1: Evidence, n2: Evidence, k: EdgeKey)
    requires TwoMoves(d0, d1, d2, k1, k2, p, r, n1, n2) && ProvenanceSplits(d0, p, n1)
    requires k in d0 && d0[k].source == Declared
    ensures MovedKey(k, p.merged.id, r) in d2
    ensures d2[MovedKey(k, p.merged.id, r)] == Restored(d0[k], Touches(k, p.merged.id), n1, n2)
  {
    hide Provenance;
    var m, c := p.merged.id, p.canonical.id;
    if Touches(k, m) {
      var b := MovedKey(k, m, c);
      assert k in k1;
      assert b in d1 && d1[b] == WithNote(d0[k], n1);
      assert b in k2;
      Twice(k, m, c, r);
    } else {
      assert k in d1 && d1[k] == d0[k];
      assert k !in k2;
    }
  }

  lemma OriginKey(d0: map<EdgeKey, EdgeData>, d1: map<EdgeKey, EdgeData>, d2: map<EdgeKey, EdgeData>, k1: set<EdgeKey>,
                  k2: set<EdgeKey>, p: Plan, r: nat, n1: Evidence, n2: Evidence, k: EdgeKey)
    requires TwoMoves(d0, d1, d2, k1, k2, p, r, n1, n2) && ProvenanceSplits(d0, p, n1)
    requires k in d2 && d2[k].source == Declared
    ensures exists o :: o in DeclaredKeys(d0) && MovedKey(o, p.merged.id, r) == k
  {
    hide Provenance;
    var m, c := p.merged.id, p.canonical.id;
    forall o | o in k1 ensures MovedKey(o, m, c) in k2 {
      assert d1[MovedKey(o, m, c)] == WithNote(d0[o], n1);
    }
    forall b | b in k2 ensures exists o :: o in k1 && o in d0 && b == MovedKey(o, m, c) {
    }
    if k in d1 && k !in k2 {
      assert k in d0 && k !in k1 && d1[k] == d0[k] && d2[k] == d1[k];
      assert MovedKey(k, m, r) == k;
    } else {
      var b :| b in k2 && b in d1 && k == MovedKey(b, c, r);
      var o :| o in k1 && o in d0 && b == MovedKey(o, m, c);
      Twice(o, m, c, r);
    }
  }

  lemma SplitsGiveBack(d0: map<EdgeKey, EdgeData>, d1: map<EdgeKey, EdgeData>, d2: map<EdgeKey, EdgeData>, k1: set<EdgeKey>,
                       k2: set<EdgeKey>, p: Plan, r: nat, n1: Evidence, n2: Evidence)
    requires TwoMoves(d0, d1, d2, k1, k2, p, r, n1, n2) && ProvenanceSplits(d0, p, n1)
    ensures DeclaredKeys(d2) == Renamed(DeclaredKeys(d0), p.merged.id, r)
  {
    hide TwoMoves, ProvenanceSplits;
    forall k | k in DeclaredKeys(d0) ensures MovedKey(k, p.merged.id, r) in DeclaredKeys(d2) {
      RestoredKey(d0, d1, d2, k1, k2, p, r, n1, n2, k);
    }
    forall k | k in DeclaredKeys(d2) ensures k in Renamed(DeclaredKeys(d0), p.merged.id, r) {
      OriginKey(d0, d1, d2, k1, k2, p, r, n1, n2, k);
    }
  }

  /** A merged edge that no longer shows its source stays behind on the canonical CI. */
  lemma LeftBehind(d0: map<EdgeKey, EdgeData>, d1: map<EdgeKey, EdgeData>, d2: map<EdgeKey, EdgeData>, k1: set<EdgeKey>,
                   k2: set<EdgeKey>, p: Plan, r: nat, n1: Evidence, n2: Evidence, k: EdgeKey)
    requires TwoMoves(d0, d1, d2, k1, k2, p, r, n1, n2)
    requires k in d0 && d0[k].source == Declared && Touches(k, p.merged.id)
    requires !Provenance(d0[k].evidence + [n1], p.key.source, p.key.nativeId)
    ensures DeclaredKeys(d2) != Renamed(DeclaredKeys(d0), p.merged.id, r)
  {
    hide Provenance;
    var m, c := p.merged.id, p.canonical.id;
    var b := MovedKey(k, m, c);
    assert k in k1 && b in d1 && d1[b] == WithNote(d0[k], n1) && b !in k2;
    assert b in DeclaredKeys(d2);
    forall o | o in DeclaredKeys(d0) ensures MovedKey(o, m, r) != b {
      assert !Touches(b, r) && b !in d0;
    }
  }

  /** A canonical edge that shows the other source is taken along. */
  lemma TakenAlong(d0: map<EdgeKey, EdgeData>, d1: map<EdgeKey, EdgeData>, d2: map<EdgeKey, EdgeData>, k1: set<EdgeKey>,
                   k2: set<EdgeKey>, p: Plan, r: nat, n1: Evidence, n2: Evidence, k: EdgeKey)
    requires TwoMoves(d0, d1, d2, k1, k2, p, r, n1, n2)
    requires k in d0 && d0[k].source == Declared && Touches(k, p.canonical.id)
    requires Provenance(d0[k].evidence, p.key.source, p.key.nativeId)
    ensures DeclaredKeys(d2) != Renamed(DeclaredKeys(d0), p.merged.id, r)
  {
    hide Provenance;
    var m, c := p.merged.id, p.canonical.id;
    assert k !in k1 && k in d1 && d1[k] == d0[k] && k in k2;
    assert MovedKey(k, m, r) == k && k in Renamed(DeclaredKeys(d0), m, r);
    forall o | o in k2 && o in d1 ensures MovedKey(o, c, r) != k {
      assert Touches(MovedKey(o, c, r), r);
    }
    assert k !in d2;
  }

  lemma TwoMovesExact(d0: map<EdgeKey, EdgeData>, d1: map<EdgeKey, EdgeData>, d2: map<EdgeKey, EdgeData>, k1: set<EdgeKey>,
                      k2: set<EdgeKey>, p: Plan, r: nat, n1: Evidence, n2: Evidence)
    requires TwoMoves(d0, d1, d2, k1, k2, p, r, n1, n2)
    ensures DeclaredKeys(d2) == Renamed(DeclaredKeys(d0), p.merged.id, r) <==> ProvenanceSplits(d0, p, n1)
  {
    hide TwoMoves, Provenance, DeclaredKeys, Renamed;
    if ProvenanceSplits(d0, p, n1) {
      SplitsGiveBack(d0, d1, d2, k1, k2, p, r, n1, n2);
    } else {
      var k :| k in d0 && d0[k].source == Declared
        && ((Touches(k, p.merged.id) && !Provenance(d0[k].evidence + [n1], p.key.source, p.key.nativeId))
            || (Touches(k, p.canonical.id) && Provenance(d0[k].evidence, p.key.source, p.key.nativeId)));
      if Touches(k, p.merged.id) && !Provenance(d0[k].evidence + [n1], p.key.source, p.key.nativeId) {
        LeftBehind(d0, d1, d2, k1, k2, p, r, n1, n2, k);
      } else {
        TakenAlong(d0, d1, d2, k1, k2, p, r, n1, n2, k);
      }
    }
  }

  /* ---------------------------------------------------------------- the theorem */

  /** The reversal of the merge that an acceptance has just recorded, in a later transaction. */
  ghost function MergeIdOf(db: Db): nat { |db.merges| }

  ghost predicate Reversal(db: Db, id: nat, rows: seq<EdgeRow>, t: int, rows2: seq<EdgeRow>) {
    && ListsMerge(db, id, rows) && t >= db.now
    && (AcceptCandidate(db, id, rows).Done? ==>
          ListsRestore(Begin(AcceptCandidate(db, id, rows).value, t), MergeIdOf(db), rows2))
  }

  /** What an acceptance leaves for its reversal. */
  lemma AfterAccept(db: Db, id: nat, rows: seq<EdgeRow>, p: Plan, mid: Db, moved: seq<EdgeRow>)
    requires Tables(db) && Agree(db) && Distinct(db, id) && Accepting(db, id, rows, p, mid, moved) && OneIdentity(db, p)
    ensures var after := AcceptCandidate(db, id, rows).value;
            && Tables(after) && after.now == db.now && after.edges == mid.edges && db.nextId <= after.nextId
            && after.merges == db.merges + [Merge(p.canonical.id, p.key.source, p.key.nativeId)] && after.unmerged == db.unmerged
            && after.sourceKeys == MoveKeys(db.sourceKeys, p.merged.id, p.canonical.id)
            && after.aliases == MoveAliases(db.aliases, p.merged.id, p.canonical.id)
            && CiView(after.cis) == CiView(db.cis) - {p.merged.id}
            && p.merged.key !in OpenMap(after.cis)
  {
    hide Tables, PlanMerge, MoveEdges, OpenMap, MergeNote, CiView, Project, GraphIs, Stable, EdgeView, AcceptCandidate;
    AcceptAgrees(db, id, rows, p, mid, moved);
    PlanFacts(db, id);
    IdentitiesOnly(db, p);
    MoveFrame(MoveIdentities(db, p), rows, mid, moved);
    hide MoveInv, Agree;
    CloseCisEffect(mid, {p.merged.key});
  }

  /** The reversal inserts a CI under the merged CI's old key. */
  lemma AfterSplit(db: Db, id: nat, p: Plan, later: Db, mergeId: nat)
    requires Tables(later) && OneIdentity(db, p)
    requires mergeId < |later.merges| && later.merges[mergeId] == Merge(p.canonical.id, p.key.source, p.key.nativeId)
    requires p.canonical.id in CiView(later.cis) && CiView(later.cis)[p.canonical.id] == p.canonical.key
    requires p.merged.key !in OpenMap(later.cis) && mergeId !in later.unmerged && p.canonical.id < later.nextId
    ensures PlanUnmerge(later, mergeId).Done?
    ensures var (split, r) := PlanUnmerge(later, mergeId).value;
            && r.id == later.nextId && r.key == p.merged.key
            && split.edges == later.edges && split.merges == later.merges
            && split.sourceKeys == RestoreKeys(later.sourceKeys, later.merges[mergeId], r.id)
            && split.aliases == RestoreAliases(later.aliases, later.merges[mergeId], r.id)
  {
    var m := later.merges[mergeId];
    StillOpen(later, m.canonical);
    FreshCi(later, p.merged.key);
    UpsertCiEffect(later, p.merged.key, None, map[]);
    hide Tables, CiView, OpenMap, Stable, UpsertCi;
  }

  lemma StillOpen(db: Db, id: nat)
    requires Tables(db) && id in CiView(db.cis)
    ensures CurrentById(db.cis, id).Some? && CurrentById(db.cis, id).value.key == CiView(db.cis)[id]
  {
    var r :| r in db.cis && r.Open() && r.id == id;
    CiViewIs(db.cis, db.now, id, CurrentById(db.cis, id).value);
  }

  lemma FreshCi(db: Db, key: CiKey)
    requires key !in OpenMap(db.cis)
    ensures UpsertCi(db, key, None, map[]).Ok?
  {
  }

  /** The reversal moves to the id it has just drawn, so it always commits. */
  lemma ReversalCommits(later: Db, mergeId: nat, rows: seq<EdgeRow>)
    requires Tables(later) && ListsRestore(later, mergeId, rows) && PlanUnmerge(later, mergeId).Done?
    requires PlanUnmerge(later, mergeId).value.1.id == later.nextId
    ensures Unmerge(later, mergeId, rows).Done?
  {
    hide Tables, PlanUnmerge, MoveEdges, OpenMap, UnmergeNote, SealUnmerge, CiView, Free, Stable;
    SplitFacts(later, mergeId);
    var (split, r) := PlanUnmerge(later, mergeId).value;
    var c := later.merges[mergeId].canonical;
    var keys := EdgesToRestore(later.edges, c, later.merges[mergeId]);
    RestoreFree(later, keys, c, r.id, split, rows, later.merges[mergeId]);
    hide EdgesToRestore;
    ListedKnown(split, keys, rows, r.id);
    MovesKeepData(split, rows, c, r.id, UnmergeNote(c, r.id, mergeId, later.now));
  }

  lemma KeysGiveBack(keys: map<SourceKey, nat>, p: Plan, r: nat)
    requires KeysBoundTo(keys, p.merged.id) == {p.key}
    ensures RestoreKeys(MoveKeys(keys, p.merged.id, p.canonical.id), Merge(p.canonical.id, p.key.source, p.key.nativeId), r)
            == MoveKeys(keys, p.merged.id, r)
  {
    forall k | k in keys ensures keys[k] == p.merged.id <==> k == p.key {
      assert k in KeysBoundTo(keys, p.merged.id) <==> keys[k] == p.merged.id;
    }
    assert p.key in KeysBoundTo(keys, p.merged.id);
  }

  lemma AliasesGiveBack(db: Db, p: Plan, r: nat)
    requires AliasesSplit(db, p)
    ensures RestoreAliases(MoveAliases(db.aliases, p.merged.id, p.canonical.id),
                           Merge(p.canonical.id, p.key.source, p.key.nativeId), r)
            == MoveAliases(db.aliases, p.merged.id, r)
  {
  }

  lemma SecondMove(later: Db, mergeId: nat, rows: seq<EdgeRow>, split: Db, r: CiRow, mid: Db, moved: seq<EdgeRow>)
    requires Tables(later) && ListsRestore(later, mergeId, rows) && Unmerging(later, mergeId, rows, split, r, mid, moved)
    requires r.id == later.nextId
    ensures var c := later.merges[mergeId].canonical;
            Relocated(DataView(later.edges), DataView(mid.edges), EdgesToRestore(later.edges, c, later.merges[mergeId]),
                      c, r.id, UnmergeNote(c, r.id, mergeId, later.now))
  {
    hide Tables, PlanUnmerge, MoveEdges, OpenMap, UnmergeNote, SealUnmerge, MoveInv, Unmerge, CiView, Free, Relocated, DataView, Stable;
    SplitFacts(later, mergeId);
    var c := later.merges[mergeId].canonical;
    var keys := EdgesToRestore(later.edges, c, later.merges[mergeId]);
    RestoreFree(later, keys, c, r.id, split, rows, later.merges[mergeId]);
    hide EdgesToRestore;
    ListedKnown(split, keys, rows, r.id);
    MovesKeepData(split, rows, c, r.id, UnmergeNote(c, r.id, mergeId, later.now));
    MoveRelocates(split, keys, rows, mid, moved, c, r.id, UnmergeNote(c, r.id, mergeId, later.now));
  }

  lemma RestoreFree(later: Db, keys: set<EdgeKey>, c: nat, r: nat, split: Db, rows: seq<EdgeRow>, m: Merge)
    requires Tables(later) && split.edges == later.edges && r == later.nextId && c != r
    requires keys == EdgesToRestore(later.edges, c, m) && Lists(later.edges, keys, rows)
    ensures Free(split, rows, c, r)
  {
    KeysTaken(later);
    hide OpenMap, Tables;
    forall x | x in rows
      ensures x.data.source == Declared && !Touches(x.key, r) && Touches(x.key, c) && MovedKey(x.key, c, r) !in OpenMap(split.edges)
    {
      assert x.key in KeySet(rows);
      assert Touches(MovedKey(x.key, c, r), r);
    }
  }

  lemma KeysTaken(db: Db)
    requires Tables(db)
    ensures forall k :: k in OpenMap(db.edges) ==> k.fromId < db.nextId && k.toId < db.nextId && !Touches(k, db.nextId)
  {
    forall k | k in OpenMap(db.edges) ensures k.fromId < db.nextId && k.toId < db.nextId {
      OpenMapRow(db.edges, k);
    }
  }

  /** Accept and reverse. Under the condition on identities, both calls commit and the source keys, the aliases and the
      open CIs are back, with the restored id in place of the merged one. The open declared edges
      are back, if and only if their evidence tells the two CIs apart; each then differs from the
      original by its two notes. */
  lemma AcceptThenUnmerge(db: Db, id: nat, rows: seq<EdgeRow>, t: int, rows2: seq<EdgeRow>)
    returns (p: Plan, restored: nat, n1: Evidence, n2: Evidence)
    requires Tables(db) && Agree(db) && Recorded(db) && Distinct(db, id) && Reversible(db, id) && Reversal(db, id, rows, t, rows2)
    ensures AcceptCandidate(db, id, rows).Done?
    ensures Unmerge(Begin(AcceptCandidate(db, id, rows).value, t), MergeIdOf(db), rows2).Done?
    ensures PlanMerge(db, id) == Done(p) && restored !in CiView(db.cis) && n1 == MergeNote(p, id, db.now)
    ensures n2 == UnmergeNote(p.canonical.id, restored, MergeIdOf(db), t)
    ensures var after := Unmerge(Begin(AcceptCandidate(db, id, rows).value, t), MergeIdOf(db), rows2).value;
            && after.sourceKeys == MoveKeys(db.sourceKeys, p.merged.id, restored)
            && after.aliases == MoveAliases(db.aliases, p.merged.id, restored)
            && CiView(after.cis) == (CiView(db.cis) - {p.merged.id})[restored := p.merged.key]
            && (DeclaredKeys(DataView(after.edges)) == Renamed(DeclaredKeys(DataView(db.edges)), p.merged.id, restored)
                <==> ProvenanceSplits(DataView(db.edges), p, n1))
            && (ProvenanceSplits(DataView(db.edges), p, n1) ==>
                  forall k :: k in DeclaredKeys(DataView(db.edges)) ==>
                    && MovedKey(k, p.merged.id, restored) in DataView(after.edges)
                    && DataView(after.edges)[MovedKey(k, p.merged.id, restored)]
                       == Restored(DataView(db.edges)[k], Touches(k, p.merged.id), n1, n2))
  {
    hide Tables, Agree, PlanMerge, AcceptCandidate, Unmerge, CiView, OpenMap, DataView, Lists, Accepting, Unmerging, PlanUnmerge;
    hide EdgesToRestore, EdgesToMerge, Relocated, AliasesSplit, EdgesApart, ProvenanceSplits, DeclaredKeys, Renamed, Distinct;
    var mid, moved;
    AcceptCommits(db, id, rows);
    p, mid, moved := AcceptStages(db, id, rows);
    PlanDone(db, id, rows, p, mid, moved);
    AfterAccept(db, id, rows, p, mid, moved);
    AcceptRelocates(db, id, rows, p, mid, moved);
    PlanFacts(db, id);
    n1 := MergeNote(p, id, db.now);
    var after1 := AcceptCandidate(db, id, rows).value;
    var later := Begin(after1, t);
    BeginTables(after1, t);
    var mergeId := MergeIdOf(db);
    AfterSplit(db, id, p, later, mergeId);
    ReversalCommits(later, mergeId, rows2);
    var split, r, mid2, moved2 := UnmergeStages(later, mergeId, rows2);
    UnmergePlan(later, mergeId, rows2, split, r, mid2, moved2);
    SplitFacts(later, mergeId);
    restored := r.id;
    n2 := UnmergeNote(p.canonical.id, restored, mergeId, later.now);
    SecondMove(later, mergeId, rows2, split, r, mid2, moved2);
    KeysGiveBack(db.sourceKeys, p, restored);
    AliasesGiveBack(db, p, restored);
    RestoredFresh(db, restored);
    MovesOfReversal(db, later, mid2, p, restored, n1, n2);
    var k1, k2 := EdgesToMerge(db.edges, p.merged.id, p.canonical.id), EdgesToRestore(later.edges, p.canonical.id, later.merges[mergeId]);
    TwoMovesExact(DataView(db.edges), DataView(later.edges), DataView(mid2.edges), k1, k2, p, restored, n1, n2);
    if ProvenanceSplits(DataView(db.edges), p, n1) {
      forall k | k in DeclaredKeys(DataView(db.edges))
        ensures k in DataView(db.edges) && MovedKey(k, p.merged.id, restored) in DataView(mid2.edges)
        ensures DataView(mid2.edges)[MovedKey(k, p.merged.id, restored)]
                == Restored(DataView(db.edges)[k], Touches(k, p.merged.id), n1, n2)
      {
        KeyDeclared(DataView(db.edges), k);
        RestoredKey(DataView(db.edges), DataView(later.edges), DataView(mid2.edges), k1, k2, p, restored, n1, n2, k);
      }
    }
  }

  lemma KeyDeclared(d: map<EdgeKey, EdgeData>, k: EdgeKey)
    requires k in DeclaredKeys(d)
    ensures k in d && d[k].source == Declared
  {
  }

  lemma PlanDone(db: Db, id: nat, rows: seq<EdgeRow>, p: Plan, mid: Db, moved: seq<EdgeRow>)
    requires Accepting(db, id, rows, p, mid, moved) && Reversible(db, id)
    ensures PlanMerge(db, id) == Done(p) && OneIdentity(db, p) && AliasesSplit(db, p) && EdgesApart(db, p.merged.id, p.canonical.id)
  {
  }

  lemma UnmergePlan(later: Db, mergeId: nat, rows: seq<EdgeRow>, split: Db, r: CiRow, mid: Db, moved: seq<EdgeRow>)
    requires Unmerging(later, mergeId, rows, split, r, mid, moved)
    ensures PlanUnmerge(later, mergeId) == Done((split, r)) && Unmerge(later, mergeId, rows).Done?
    ensures var after := Unmerge(later, mergeId, rows).value;
            after.cis == split.cis && after.sourceKeys == split.sourceKeys && after.aliases == split.aliases && after.edges == mid.edges
  {
    hide Tables, OpenMap, Stable;
  }

  lemma RestoredFresh(db: Db, restored: nat)
    requires Tables(db) && restored >= db.nextId
    ensures restored !in CiView(db.cis)
  {
  }

  lemma MovesOfReversal(db: Db, later: Db, mid2: Db, p: Plan, r: nat, n1: Evidence, n2: Evidence)
    requires Tables(db) && Tables(later) && r == later.nextId && db.nextId <= later.nextId
    requires p.merged.id != p.canonical.id && p.merged.id < db.nextId && p.canonical.id < db.nextId
    requires EdgesApart(db, p.merged.id, p.canonical.id)
    requires var k1 := EdgesToMerge(db.edges, p.merged.id, p.canonical.id);
             Relocated(DataView(db.edges), DataView(later.edges), k1, p.merged.id, p.canonical.id, n1)
    requires var k2 := EdgesToRestore(later.edges, p.canonical.id, Merge(p.canonical.id, p.key.source, p.key.nativeId));
             Relocated(DataView(later.edges), DataView(mid2.edges), k2, p.canonical.id, r, n2)
    ensures TwoMoves(DataView(db.edges), DataView(later.edges), DataView(mid2.edges),
                     EdgesToMerge(db.edges, p.merged.id, p.canonical.id),
                     EdgesToRestore(later.edges, p.canonical.id, Merge(p.canonical.id, p.key.source, p.key.nativeId)), p, r, n1, n2)
  {
    hide Relocated, DataView, EdgesToMerge, EdgesToRestore, Tables, EdgesApart;
    MergedKeys(db, p.merged.id, p.canonical.id);
    RestoredKeys(later, p);
    ViewKeysTaken(db, r);
    ViewKeysTaken(later, r);
  }

  lemma MergedKeys(db: Db, m: nat, c: nat)
    requires EdgesApart(db, m, c)
    ensures var d, k1 := DataView(db.edges), EdgesToMerge(db.edges, m, c);
            && (forall k :: k in k1 <==> k in d && d[k].source == Declared && Touches(k, m))
            && (forall k :: k in k1 ==> !Touches(k, c) && MovedKey(k, m, c) !in d)
  {
    hide OpenMap;
  }

  lemma RestoredKeys(later: Db, p: Plan)
    ensures var d := DataView(later.edges);
            var k2 := EdgesToRestore(later.edges, p.canonical.id, Merge(p.canonical.id, p.key.source, p.key.nativeId));
            forall k :: k in k2 <==> k in d && d[k].source == Declared && Touches(k, p.canonical.id)
                                     && Provenance(d[k].evidence, p.key.source, p.key.nativeId)
  {
    hide OpenMap, Provenance;
  }

  lemma ViewKeysTaken(db: Db, r: nat)
    requires Tables(db) && db.nextId <= r
    ensures forall k :: k in DataView(db.edges) ==> !Touches(k, r)
  {
    KeysTaken(db);
    hide OpenMap, Tables;
  }
}
