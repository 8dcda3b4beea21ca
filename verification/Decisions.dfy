/** What accepting a candidate and reversing a merge do to identities and edges, spelled out
    (services/reconciliation/src/infra_twin/reconciliation/candidates.py and unmerge.py). */
module Decisions {
  import opened Model
  import opened Observations
  import opened Versions
  import opened Store
  import opened Merging
  import Operations

  /* ---------------------------------------------------------------- the order of texts */

  /** The texts agree up to some position; there the first one ends or has the smaller character. */
  predicate PrecedesAt(a: string, b: string, i: nat) {
    i <= |a| && i < |b| && a[..i] == b[..i] && (i == |a| || a[i] < b[i])
  }

  ghost predicate Precedes(a: string, b: string) { exists i: nat :: PrecedesAt(a, b, i) }

  lemma FirstAgree(a: string, b: string, i: nat)
    requires PrecedesAt(a, b, i)
    ensures i == 0 || (a != "" && b != "" && a[0] == b[0])
  {
    if i > 0 { assert a[..i][0] == b[..i][0]; }
  }

  lemma {:induction false} TextOrder(a: string, b: string)
    ensures TextLess(a, b) <==> Precedes(a, b)
    decreases |a|
  {
    forall i: nat | PrecedesAt(a, b, i) ensures i == 0 || (a != "" && b != "" && a[0] == b[0]) { FirstAgree(a, b, i); }
    if a == "" || b == "" || a[0] != b[0] {
      if b != "" && (a == "" || a[0] < b[0]) { assert PrecedesAt(a, b, 0); }
    } else {
      TextOrder(a[1..], b[1..]);
      if j: nat :| PrecedesAt(a[1..], b[1..], j) {
        assert a[..j + 1] == [a[0]] + a[1..][..j] && b[..j + 1] == [b[0]] + b[1..][..j];
        assert PrecedesAt(a, b, j + 1);
      }
      if i: nat :| PrecedesAt(a, b, i) && i > 0 {
        assert a[1..][..i - 1] == a[..i][1..] && b[1..][..i - 1] == b[..i][1..];
        assert PrecedesAt(a[1..], b[1..], i - 1);
      }
    }
  }

  /* ---------------------------------------------------------------- the plan */

  /** The pair of the candidate, the one with the smaller external id (then id) surviving; and the
      identity that the merge records: the smallest source key of the other one, or a made-up one. */
  ghost predicate Planned(db: Db, id: nat, p: Plan) {
    && id in db.candidates && db.candidates[id].status == Pending
    && {p.canonical.id, p.merged.id} == {db.candidates[id].ciA, db.candidates[id].ciB}
    && p.canonical in db.cis && p.canonical.Open() && p.merged in db.cis && p.merged.Open()
    && (Precedes(p.canonical.key.externalId, p.merged.key.externalId)
        || (p.canonical.key.externalId == p.merged.key.externalId && p.canonical.id <= p.merged.id))
    && (p.synthesized <==> forall k :: k in db.sourceKeys ==> db.sourceKeys[k] != p.merged.id)
    && (p.synthesized ==> p.key == SourceKey("fuzzy-candidate", p.merged.key.externalId))
    && (!p.synthesized ==> p.key in db.sourceKeys && db.sourceKeys[p.key] == p.merged.id)
    && (forall k :: k in db.sourceKeys && db.sourceKeys[k] == p.merged.id && k != p.key ==>
          Precedes(p.key.source, k.source) || (p.key.source == k.source && Precedes(p.key.nativeId, k.nativeId)))
    && p.key.nativeId != p.canonical.key.externalId
  }

  lemma PlanIs(db: Db, id: nat)
    ensures PlanMerge(db, id).Done? ==> Planned(db, id, PlanMerge(db, id).value)
  {
    hide TextLess, Precedes;
    if PlanMerge(db, id).Done? {
      var p := PlanMerge(db, id).value;
      Operations.TextTotal(p.canonical.key.externalId, p.merged.key.externalId);
      TextOrder(p.canonical.key.externalId, p.merged.key.externalId);
      var keys := KeysBoundTo(db.sourceKeys, p.merged.id);
      forall k | k in db.sourceKeys && db.sourceKeys[k] == p.merged.id ensures k in keys { }
      if keys != {} {
        Operations.SmallestExists(keys);
        var s :| Operations.Smallest(keys, s);
        Operations.SmallestIs(keys, s);
        forall k | k in keys && k != p.key
          ensures Precedes(p.key.source, k.source) || (p.key.source == k.source && Precedes(p.key.nativeId, k.nativeId))
        {
          TextOrder(p.key.source, k.source);
          TextOrder(p.key.nativeId, k.nativeId);
        }
      }
    }
  }

  /** Why an acceptance is refused before anything is written. */
  lemma RefusalsAre(db: Db, id: nat)
    requires Tables(db)
    ensures PlanMerge(db, id) == Refused(AlreadyResolved) <==> id in db.candidates && db.candidates[id].status != Pending
    ensures PlanMerge(db, id) == Refused(NotFound) <==>
              id !in db.candidates
              || (db.candidates[id].status == Pending && !({db.candidates[id].ciA, db.candidates[id].ciB} <= OpenIds(db.cis)))
    ensures PlanMerge(db, id).Refused? ==> PlanMerge(db, id).why in {NotFound, AlreadyResolved, AmbiguousIdentity}
  {
    hide Tables, FirstIsCanonical, SmallestKey;
    if id in db.candidates {
      ById(db, db.candidates[id].ciA);
      ById(db, db.candidates[id].ciB);
    }
    hide CurrentById, OpenIds;
  }

  lemma ById(db: Db, id: nat)
    ensures id in OpenIds(db.cis) <==> CurrentById(db.cis, id).Some?
  {
  }

  /** Why a reversal is refused. */
  lemma ReversalRefusalsAre(db: Db, mergeId: nat)
    requires Tables(db)
    ensures PlanUnmerge(db, mergeId) == Refused(AlreadyReversed) <==> mergeId < |db.merges| && mergeId in db.unmerged
    ensures PlanUnmerge(db, mergeId) == Refused(NotFound) <==>
              mergeId >= |db.merges| || (mergeId !in db.unmerged && db.merges[mergeId].canonical !in OpenIds(db.cis))
  {
    hide Tables, UpsertCi;
    if mergeId < |db.merges| { ById(db, db.merges[mergeId].canonical); }
    hide CurrentById, OpenIds;
  }

  /* ---------------------------------------------------------------- moved edges */

  /** The key with every end at `from` put to `to`. */
  function Rekeyed(k: EdgeKey, from: nat, to: nat): EdgeKey {
    EdgeKey(k.etype, if k.fromId == from then to else k.fromId, if k.toId == from then to else k.toId, k.edgeKey)
  }

  /** The row carries the data of a declared edge with one more piece of evidence. */
  ghost predicate Carries(now: EdgeData, before: EdgeData, note: Evidence) {
    && now.source == Declared && now.evidence == before.evidence + [note]
    && -0.000001 <= now.confidence - before.confidence <= 0.000001
  }

  ghost predicate AllDeclared(rows: seq<EdgeRow>) { forall r :: r in rows ==> r.data.source == Declared }

  /** No other of the rows is moved to the same place. */
  ghost predicate Alone(rows: seq<EdgeRow>, e: EdgeRow, from: nat, to: nat) {
    forall x :: x in rows && x.key != e.key ==> Rekeyed(x.key, from, to) != Rekeyed(e.key, from, to)
  }

  /** Each moved edge is closed where it was and open where it goes. */
  ghost predicate Gone(now: map<EdgeKey, EdgeRow>, rows: seq<EdgeRow>, from: nat, to: nat) {
    forall e :: e in rows ==> e.key !in now && Rekeyed(e.key, from, to) in now
  }

  /** There it has its data and the note. */
  ghost predicate Carried(now: map<EdgeKey, EdgeRow>, rows: seq<EdgeRow>, from: nat, to: nat, note: Evidence) {
    forall e :: e in rows && Alone(rows, e, from, to) && Rekeyed(e.key, from, to) in now ==>
      Carries(now[Rekeyed(e.key, from, to)].data, e.data, note)
  }

  /** The other current edges stay as they are, and there are no more. */
  ghost predicate Spared(before: map<EdgeKey, EdgeRow>, now: map<EdgeKey, EdgeRow>, rows: seq<EdgeRow>, from: nat, to: nat) {
    && (forall k :: k in before && !Concerned(rows, from, to, k) ==> k in now && now[k] == before[k])
    && (forall k :: k in now ==> k in before || Concerned(rows, from, to, k))
  }

  ghost predicate Concerned(rows: seq<EdgeRow>, from: nat, to: nat, k: EdgeKey) {
    exists e :: e in rows && (e.key == k || Rekeyed(e.key, from, to) == k)
  }

  ghost predicate Repointed(before: map<EdgeKey, EdgeRow>, now: map<EdgeKey, EdgeRow>, rows: seq<EdgeRow>, from: nat, to: nat, note: Evidence) {
    Gone(now, rows, from, to) && Carried(now, rows, from, to, note) && Spared(before, now, rows, from, to)
  }

  lemma NothingRepointed(now: map<EdgeKey, EdgeRow>, from: nat, to: nat, note: Evidence)
    ensures Repointed(now, now, [], from, to, note)
  {
  }

  ghost predicate Moved(mid: map<EdgeKey, EdgeRow>, now: map<EdgeKey, EdgeRow>, rows: seq<EdgeRow>, e: EdgeRow, r: EdgeRow, from: nat, to: nat) {
    && from != to && Touches(e.key, from) && (forall x :: x in rows ==> Touches(x.key, from) && x.key != e.key)
    && now == (mid - {e.key})[r.key := r] && r.key == Rekeyed(e.key, from, to)
  }

  lemma AmongMore(rows: seq<EdgeRow>, e: EdgeRow)
    ensures forall x :: x in rows + [e] <==> x in rows || x == e
  {
  }

  lemma GoneStep(mid: map<EdgeKey, EdgeRow>, now: map<EdgeKey, EdgeRow>, rows: seq<EdgeRow>, e: EdgeRow, r: EdgeRow, from: nat, to: nat)
    requires Moved(mid, now, rows, e, r, from, to) && Gone(mid, rows, from, to)
    ensures Gone(now, rows + [e], from, to)
  {
    AmongMore(rows, e);
    forall x | x in rows + [e] ensures x.key !in now && Rekeyed(x.key, from, to) in now {
      assert !Touches(Rekeyed(x.key, from, to), from) && !Touches(r.key, from) && Touches(x.key, from);
    }
  }

  lemma CarriedStep(mid: map<EdgeKey, EdgeRow>, now: map<EdgeKey, EdgeRow>, rows: seq<EdgeRow>, e: EdgeRow, r: EdgeRow, from: nat, to: nat,
                    note: Evidence)
    requires Moved(mid, now, rows, e, r, from, to) && Carried(mid, rows, from, to, note) && Carries(r.data, e.data, note)
    ensures Carried(now, rows + [e], from, to, note)
  {
    hide Carries, Rekeyed;
    AmongMore(rows, e);
    var all := rows + [e];
    forall x | x in all && Alone(all, x, from, to) && Rekeyed(x.key, from, to) in now
      ensures Carries(now[Rekeyed(x.key, from, to)].data, x.data, note)
    {
      if x in rows {
        assert e in all && Rekeyed(e.key, from, to) != Rekeyed(x.key, from, to);
        assert Alone(rows, x, from, to);
      }
    }
  }

  lemma SparedStep(before: map<EdgeKey, EdgeRow>, mid: map<EdgeKey, EdgeRow>, now: map<EdgeKey, EdgeRow>, rows: seq<EdgeRow>, e: EdgeRow,
                   r: EdgeRow, from: nat, to: nat)
    requires Moved(mid, now, rows, e, r, from, to) && Spared(before, mid, rows, from, to)
    ensures Spared(before, now, rows + [e], from, to)
  {
    hide Rekeyed;
    ConcernedMore(rows, e, from, to);
    hide Concerned;
  }

  lemma ConcernedMore(rows: seq<EdgeRow>, e: EdgeRow, from: nat, to: nat)
    ensures forall k :: Concerned(rows + [e], from, to, k) <==> Concerned(rows, from, to, k) || e.key == k || Rekeyed(e.key, from, to) == k
  {
    hide Rekeyed;
    AmongMore(rows, e);
    var all := rows + [e];
    forall k | Concerned(rows, from, to, k) ensures Concerned(all, from, to, k) {
      var x :| x in rows && (x.key == k || Rekeyed(x.key, from, to) == k);
      assert x in all;
    }
    assert e in all;
  }

  lemma RepointedStep(before: map<EdgeKey, EdgeRow>, mid: map<EdgeKey, EdgeRow>, now: map<EdgeKey, EdgeRow>, rows: seq<EdgeRow>, e: EdgeRow,
                      r: EdgeRow, from: nat, to: nat, note: Evidence)
    requires Repointed(before, mid, rows, from, to, note) && Moved(mid, now, rows, e, r, from, to) && Carries(r.data, e.data, note)
    ensures Repointed(before, now, rows + [e], from, to, note)
  {
    hide Gone, Carried, Spared, Moved, Carries;
    GoneStep(mid, now, rows, e, r, from, to);
    CarriedStep(mid, now, rows, e, r, from, to, note);
    SparedStep(before, mid, now, rows, e, r, from, to);
  }

  lemma MoveCarries(db: Db, e: EdgeRow, from: nat, to: nat, note: Evidence)
    requires Tables(db) && to < db.nextId && e.key.fromId < db.nextId && e.key.toId < db.nextId
    requires MoveEdge(db, e, from, to, note).Ok? && e.data.source == Declared
    ensures Carries(MoveEdge(db, e, from, to, note).value.1.data, e.data, note)
  {
    hide Tables, OpenMap, EdgeView, Stable, UpsertEdge, CloseEdges;
    CloseEdgesEffect(db, {e.key});
    CloseFrame(db, {e.key});
    UpsertEdgeEffect(CloseEdges(db, {e.key}), MovedKey(e.key, from, to), WithNote(e.data, note));
  }

  lemma {:induction false} MovesRepoint(db: Db, rows: seq<EdgeRow>, from: nat, to: nat, note: Evidence)
    requires Tables(db) && Known(db, rows, to) && Movable(rows, from, to) && AllDeclared(rows)
    requires forall i, j :: 0 <= i < j < |rows| ==> rows[i].key != rows[j].key
    requires MoveEdges(db, rows, from, to, note).Ok?
    ensures Repointed(OpenMap(db.edges), OpenMap(MoveEdges(db, rows, from, to, note).value.0.edges), rows, from, to, note)
    decreases |rows|
  {
    hide Tables, MoveEdge, OpenMap, Repointed, MoveInv, Stable, Carries;
    if rows == [] {
      NothingRepointed(OpenMap(db.edges), from, to, note);
    } else {
      var init, e := rows[..|rows| - 1], rows[|rows| - 1];
      assert rows == init + [e];
      forall x | x in init ensures x.key != e.key {
        var i :| 0 <= i < |init| && init[i] == x;
        assert rows[i] == x;
      }
      MovesRepoint(db, init, from, to, note);
      MoveAll(db, init, from, to, note);
      var (mid, moved) := MoveEdges(db, init, from, to, note).value;
      MidKnown(db, init, mid, moved);
      MoveOne(mid, e, from, to, note);
      MoveCarries(mid, e, from, to, note);
      var (after, r) := MoveEdge(mid, e, from, to, note).value;
      RepointedStep(OpenMap(db.edges), OpenMap(mid.edges), OpenMap(after.edges), init, e, r, from, to, note);
    }
  }

  /* ---------------------------------------------------------------- accepting */

  /** The declared edges of the merged CI, but for one that would join the survivor to itself. */
  ghost predicate ToMerge(k: EdgeKey, d: EdgeData, merged: nat, canonical: nat) {
    && d.source == Declared && (k.fromId == merged || k.toId == merged)
    && !((k.fromId == merged || k.fromId == canonical) && (k.toId == merged || k.toId == canonical))
  }

  /** A note that says what was merged into what. */
  ghost predicate MergeNoted(note: Evidence, at: int) {
    note.source == "merge-candidate" && note.observedAt == at && note.detail.Some?
  }

  /** Source keys of the merged CI, and one made up for it, lead to the survivor, the others where they did. */
  ghost predicate KeysFollow(before: map<SourceKey, nat>, after: map<SourceKey, nat>, p: Plan) {
    && (forall k :: k in after <==> k in before || (p.synthesized && k == p.key))
    && (forall k :: k in before && before[k] != p.merged.id && !(p.synthesized && k == p.key) ==> after[k] == before[k])
    && (forall k :: k in before && before[k] == p.merged.id ==> after[k] == p.canonical.id)
    && (p.synthesized ==> after[p.key] == p.canonical.id)
  }

  ghost predicate AliasesFollow(before: map<string, Alias>, after: map<string, Alias>, p: Plan) {
    && after.Keys == before.Keys
    && (forall a :: a in before && before[a].ciId != p.merged.id ==> after[a] == before[a])
    && (forall a :: a in before && before[a].ciId == p.merged.id ==> after[a] == Alias(p.canonical.id, before[a].ctype, before[a].source))
  }

  /** What an acceptance leaves: every source key and alias of the merged CI leads to the survivor,
      the others where they did; the merged CI is closed and no other; its declared edges are
      repointed and no other; one merge is recorded and the candidate is resolved by it. */
  lemma AcceptIs(db: Db, id: nat, rows: seq<EdgeRow>) returns (p: Plan, note: Evidence)
    requires Tables(db) && Distinct(db, id) && ListsMerge(db, id, rows) && AcceptCandidate(db, id, rows).Done?
    ensures Planned(db, id, p) && MergeNoted(note, db.now)
    ensures var after := AcceptCandidate(db, id, rows).value;
            && KeysFollow(db.sourceKeys, after.sourceKeys, p) && AliasesFollow(db.aliases, after.aliases, p)
            && OpenMap(after.cis) == OpenMap(db.cis) - {p.merged.key}
            && after.merges == db.merges + [Merge(p.canonical.id, p.key.source, p.key.nativeId)] && after.unmerged == db.unmerged
            && after.candidates == db.candidates[id := Candidate(db.candidates[id].ciA, db.candidates[id].ciB, Accepted(|db.merges|))]
            && (forall r: EdgeRow :: r in rows <==> r.key in OpenMap(db.edges) && r == OpenMap(db.edges)[r.key] && ToMerge(r.key, r.data, p.merged.id, p.canonical.id))
            && Repointed(OpenMap(db.edges), OpenMap(after.edges), rows, p.merged.id, p.canonical.id, note)
  {
    hide Tables, PlanMerge, MoveEdges, OpenMap, MergeNote, CiView, Project, Stable, Repointed, Planned, AcceptCandidate, Precedes;
    var mid, moved;
    p, mid, moved := AcceptStages(db, id, rows);
    PlanIs(db, id);
    PlanFacts(db, id);
    IdentitiesOnly(db, p);
    note := MergeNote(p, id, db.now);
    NoteIs(p, id, db.now);
    var start := MoveIdentities(db, p);
    IdentitiesFollow(db, p);
    hide MoveIdentities, KeysFollow, AliasesFollow;
    ListedRows(db, rows, p);
    ListedKnown(start, KeySet(rows), rows, p.canonical.id);
    MovesRepoint(start, rows, p.merged.id, p.canonical.id, note);
    MoveFrame(start, rows, mid, moved);
    hide MoveInv;
    CloseCisEffect(mid, {p.merged.key});
    Sealed(mid, p, id, db.candidates[id], rows, moved);
  }

  lemma IdentitiesFollow(db: Db, p: Plan)
    ensures KeysFollow(db.sourceKeys, MoveIdentities(db, p).sourceKeys, p)
    ensures AliasesFollow(db.aliases, MoveIdentities(db, p).aliases, p)
  {
  }

  lemma NoteIs(p: Plan, id: nat, at: int)
    ensures MergeNoted(MergeNote(p, id, at), at)
  {
    hide Decimal;
  }

  lemma Sealed(mid: Db, p: Plan, id: nat, c: Candidate, rows: seq<EdgeRow>, moved: seq<EdgeRow>)
    ensures var after := SealMerge(mid, p, id, c, rows, moved);
            && after.cis == CloseCis(mid, {p.merged.key}).cis && after.edges == mid.edges
            && after.sourceKeys == mid.sourceKeys && after.aliases == mid.aliases && after.unmerged == mid.unmerged
            && after.merges == mid.merges + [Merge(p.canonical.id, p.key.source, p.key.nativeId)]
            && after.candidates == mid.candidates[id := Candidate(c.ciA, c.ciB, Accepted(|mid.merges|))]
  {
    hide CloseMany, Project;
  }

  lemma ListedRows(db: Db, rows: seq<EdgeRow>, p: Plan)
    requires Lists(db.edges, EdgesToMerge(db.edges, p.merged.id, p.canonical.id), rows) && p.merged.id != p.canonical.id
    ensures Lists(db.edges, KeySet(rows), rows) && Movable(rows, p.merged.id, p.canonical.id) && AllDeclared(rows)
    ensures forall r: EdgeRow :: r in rows <==>
              r.key in OpenMap(db.edges) && r == OpenMap(db.edges)[r.key] && ToMerge(r.key, r.data, p.merged.id, p.canonical.id)
  {
    hide OpenMap;
    forall r | r in rows ensures r.data.source == Declared && Touches(r.key, p.merged.id) && ToMerge(r.key, r.data, p.merged.id, p.canonical.id) {
      assert r.key in KeySet(rows);
    }
    forall r: EdgeRow | r.key in OpenMap(db.edges) && r == OpenMap(db.edges)[r.key] && ToMerge(r.key, r.data, p.merged.id, p.canonical.id)
      ensures r in rows
    {
      assert r.key in KeySet(rows);
      var x :| x in rows && x.key == r.key;
    }
  }

  /* ---------------------------------------------------------------- reversing */

  /** The declared edges of the survivor whose evidence comes from the restored source or names the
      restored identity. */
  ghost predicate ToRestore(k: EdgeKey, d: EdgeData, canonical: nat, source: string, externalId: string) {
    && d.source == Declared && (k.fromId == canonical || k.toId == canonical)
    && exists e :: e in d.evidence && (e.source == source || (e.detail.Some? && HasText(e.detail.value, externalId)))
  }

  ghost predicate HasText(s: string, t: string) { exists a, b :: s == a + t + b }

  lemma ContainsIs(s: string, t: string)
    ensures Contains(s, t) <==> HasText(s, t)
  {
    if i: nat :| i <= |s| && OccursAt(s, t, i) {
      assert s == s[..i] + t + s[i + |t|..];
    }
    if a, b :| s == a + t + b {
      assert OccursAt(s, t, |a|);
    }
  }

  ghost predicate UnmergeNoted(note: Evidence, at: int) {
    note.source == "unmerge" && note.observedAt == at && note.detail.Some?
  }

  /** The recorded source key, if it is there, leads to the restored CI, the others where they did. */
  ghost predicate KeysReturn(before: map<SourceKey, nat>, after: map<SourceKey, nat>, m: Merge, restored: nat) {
    && after.Keys == before.Keys
    && (forall k :: k in before && (k.source != m.source || k.nativeId != m.externalId) ==> after[k] == before[k])
    && (SourceKey(m.source, m.externalId) in before ==> after[SourceKey(m.source, m.externalId)] == restored)
  }

  ghost predicate AliasesReturn(before: map<string, Alias>, after: map<string, Alias>, m: Merge, restored: nat) {
    && after.Keys == before.Keys
    && (forall a :: a in before && (before[a].ciId != m.canonical || before[a].source != m.source) ==> after[a] == before[a])
    && (forall a :: a in before && before[a].ciId == m.canonical && before[a].source == m.source ==>
          after[a] == Alias(restored, before[a].ctype, before[a].source))
  }

  /** What a reversal leaves: a CI of the survivor's type under the recorded external id, new unless
      one is open, without name and attributes; the recorded source key and the survivor's aliases
      of that source lead to it, the others where they did; the edges that show the source are
      repointed and no other; the merge is marked reversed. */
  lemma UnmergeIs(db: Db, mergeId: nat, rows: seq<EdgeRow>) returns (r: CiRow, note: Evidence)
    requires Tables(db) && ListsRestore(db, mergeId, rows) && Unmerge(db, mergeId, rows).Done?
    ensures mergeId < |db.merges| && mergeId !in db.unmerged && UnmergeNoted(note, db.now)
    ensures var after, m := Unmerge(db, mergeId, rows).value, db.merges[mergeId];
            && m.canonical in CiView(db.cis) && r.key == CiKey(CiView(db.cis)[m.canonical].ctype, m.externalId)
            && r.data.name == None && r.data.attributes == map[] && r.lastSeen == db.now
            && (if r.key in OpenMap(db.cis) then r.id == OpenMap(db.cis)[r.key].id else r.id == db.nextId)
            && r.id != m.canonical && OpenMap(after.cis) == OpenMap(db.cis)[r.key := r]
            && KeysReturn(db.sourceKeys, after.sourceKeys, m, r.id) && AliasesReturn(db.aliases, after.aliases, m, r.id)
            && after.merges == db.merges && after.unmerged == db.unmerged + {mergeId} && after.candidates == db.candidates
            && (forall x: EdgeRow :: x in rows <==> (&& x.key in OpenMap(db.edges) && x == OpenMap(db.edges)[x.key]
                                                     && ToRestore(x.key, x.data, m.canonical, m.source, m.externalId)))
            && Repointed(OpenMap(db.edges), OpenMap(after.edges), rows, m.canonical, r.id, note)
  {
    hide Tables, PlanUnmerge, MoveEdges, OpenMap, UnmergeNote, CiView, Project, Stable, Repointed, Unmerge, Provenance, ToRestore;
    var split, mid, moved;
    split, r, mid, moved := UnmergeStages(db, mergeId, rows);
    SplitFacts(db, mergeId);
    SplitIs(db, mergeId, split, r);
    var m := db.merges[mergeId];
    note := UnmergeNote(m.canonical, r.id, mergeId, db.now);
    UnmergeNoteIs(m.canonical, r.id, mergeId, db.now);
    RestoredRows(db, rows, m);
    RestoreListed(db, mergeId, rows, split);
    ListedKnown(split, KeySet(rows), rows, r.id);
    MovesRepoint(split, rows, m.canonical, r.id, note);
    MoveFrame(split, rows, mid, moved);
  }

  lemma UnmergeNoteIs(c: nat, r: nat, mergeId: nat, at: int)
    ensures UnmergeNoted(UnmergeNote(c, r, mergeId, at), at)
  {
    hide Decimal;
  }

  lemma SplitIs(db: Db, mergeId: nat, split: Db, r: CiRow)
    requires Tables(db) && PlanUnmerge(db, mergeId) == Done((split, r)) && mergeId < |db.merges|
    ensures var m := db.merges[mergeId];
            && m.canonical in CiView(db.cis) && r.key == CiKey(CiView(db.cis)[m.canonical].ctype, m.externalId)
            && r.data.name == None && r.data.attributes == map[] && r.lastSeen == db.now
            && (if r.key in OpenMap(db.cis) then r.id == OpenMap(db.cis)[r.key].id else r.id == db.nextId)
            && OpenMap(split.cis) == OpenMap(db.cis)[r.key := r]
            && KeysReturn(db.sourceKeys, split.sourceKeys, m, r.id) && AliasesReturn(db.aliases, split.aliases, m, r.id)
  {
    hide Tables, CiView, OpenMap, Stable, UpsertCi;
    var m := db.merges[mergeId];
    var c := CurrentById(db.cis, m.canonical).value;
    CanonicalKey(db, m.canonical);
    UpsertCiEffect(db, CiKey(c.key.ctype, m.externalId), None, map[]);
  }

  lemma CanonicalKey(db: Db, id: nat)
    requires Tables(db) && CurrentById(db.cis, id).Some?
    ensures id in CiView(db.cis) && CiView(db.cis)[id] == CurrentById(db.cis, id).value.key
  {
    CiViewIs(db.cis, db.now, id, CurrentById(db.cis, id).value);
  }

  lemma RestoredRows(db: Db, rows: seq<EdgeRow>, m: Merge)
    requires Lists(db.edges, EdgesToRestore(db.edges, m.canonical, m), rows)
    ensures AllDeclared(rows)
    ensures forall x: EdgeRow :: x in rows <==>
              x.key in OpenMap(db.edges) && x == OpenMap(db.edges)[x.key] && ToRestore(x.key, x.data, m.canonical, m.source, m.externalId)
  {
    hide OpenMap, ToRestore, Provenance;
    forall x: EdgeRow | x.key in OpenMap(db.edges) && x == OpenMap(db.edges)[x.key]
      ensures x in rows <==> x.key in EdgesToRestore(db.edges, m.canonical, m)
    {
      if x in rows { assert x.key in KeySet(rows); }
      if x.key in KeySet(rows) { var y :| y in rows && y.key == x.key; }
    }
    forall x: EdgeRow ensures ToRestore(x.key, x.data, m.canonical, m.source, m.externalId) <==>
        x.data.source == Declared && Touches(x.key, m.canonical) && Provenance(x.data.evidence, m.source, m.externalId)
    {
      ShowsIs(x.key, x.data, m.canonical, m.source, m.externalId);
    }
  }

  lemma ShowsIs(k: EdgeKey, d: EdgeData, canonical: nat, source: string, externalId: string)
    ensures ToRestore(k, d, canonical, source, externalId) <==>
              d.source == Declared && Touches(k, canonical) && Provenance(d.evidence, source, externalId)
  {
    hide Contains, HasText;
    forall e: Evidence ensures e.detail.Some? ==> (Contains(e.detail.value, externalId) <==> HasText(e.detail.value, externalId)) {
      if e.detail.Some? { ContainsIs(e.detail.value, externalId); }
    }
    if Provenance(d.evidence, source, externalId) {
      var e :| e in d.evidence && Mentions(e, source, externalId);
      assert e in d.evidence && (e.source == source || (e.detail.Some? && HasText(e.detail.value, externalId)));
    }
    if e :| e in d.evidence && (e.source == source || (e.detail.Some? && HasText(e.detail.value, externalId))) {
      assert Mentions(e, source, externalId);
    }
  }
}
