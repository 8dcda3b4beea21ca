/** When the change feed can be trusted: every version keeps a positive width over whole runs in
    which no delta removes what it has just written
    (services/query/src/infra_twin/query/change_feed.py, read after any writer). */
module Widths {
  import opened Model
  import opened Observations
  import opened Versions
  import opened Store
  import opened Reconciling
  import opened Deltas
  import opened Merging
  import opened Aging
  import opened Runs
  import ChangeFeed

  /** No version was closed at the instant it opened. */
  ghost predicate Wide<K, P>(rows: Rows<K, P>) { forall r :: r in rows ==> !ChangeFeed.ZeroWidth(r) }

  /** Only the given keys have an open row written in this transaction. */
  ghost predicate Fresh<K, P>(rows: Rows<K, P>, now: int, keys: set<K>) {
    forall r :: r in rows && r.Open() && r.validFrom == now ==> r.key in keys
  }

  ghost predicate Healthy<K, P>(rows: Rows<K, P>, now: int, keys: set<K>) { Wide(rows) && Fresh(rows, now, keys) }

  lemma WideIsReplayable<K, P>(rows: Rows<K, P>, now: int, since: int, until: int)
    requires Coherent(rows, now) && Wide(rows) && since <= until
    ensures ChangeFeed.Replay(rows, since, until) == ChangeFeed.LiveBefore(rows, until)
  {
    hide Coherent;
    ChangeFeed.ReplayExact(rows, now, since, until);
    hide ChangeFeed.Replay, ChangeFeed.LiveBefore;
  }

  /* ---------------------------------------------------------------- writing */

  lemma HealthyClose<K, P>(rows: Rows<K, P>, now: int, keys: set<K>, closed: set<K>)
    requires Healthy(rows, now, keys) && keys !! closed
    ensures Healthy(CloseMany(rows, closed, now), now, keys)
  {
    forall a | a in CloseMany(rows, closed, now)
      ensures !ChangeFeed.ZeroWidth(a) && (a.Open() && a.validFrom == now ==> a.key in keys)
    {
      var r := Preimage(rows, closed, now, a);
    }
  }

  /** Closing an open row that is older than the transaction, whatever was written meanwhile. */
  lemma HealthyCloseOld<K, P>(rows: Rows<K, P>, now: int, keys: set<K>, key: K)
    requires Healthy(rows, now, keys)
    requires forall r :: r in rows && r.Open() && r.key == key ==> r.validFrom != now
    ensures Healthy(CloseMany(rows, {key}, now), now, keys)
  {
    forall a | a in CloseMany(rows, {key}, now)
      ensures !ChangeFeed.ZeroWidth(a) && (a.Open() && a.validFrom == now ==> a.key in keys)
    {
      var r := Preimage(rows, {key}, now, a);
    }
  }

  lemma HealthySupersede<K, P>(rows: Rows<K, P>, now: int, keys: set<K>, r: Version<K, P>, data: P)
    requires Healthy(rows, now, keys) && r in rows && r.validFrom != now
    ensures Healthy(Supersede(rows, r, data, now), now, keys + {r.key})
  {
  }

  lemma HealthyMore<K, P>(rows: Rows<K, P>, now: int, keys: set<K>, more: set<K>)
    requires Healthy(rows, now, keys) && keys <= more
    ensures Healthy(rows, now, more)
  {
  }

  lemma HealthyUpsertCi(db: Db, key: CiKey, name: Option<string>, attributes: map<string, string>, keys: set<CiKey>)
    requires Healthy(db.cis, db.now, keys)
    ensures UpsertCi(db, key, name, attributes).Ok? ==>
              Healthy(UpsertCi(db, key, name, attributes).value.0.cis, db.now, keys + {key})
  {
    if UpsertCi(db, key, name, attributes).Ok? && Current(db.cis, key).Some? {
      var r := Current(db.cis, key).value;
      if CiChanged(r, name, attributes) { HealthySupersede(db.cis, db.now, keys, r, CiUpdate(r, name, attributes)); }
    }
  }

  lemma HealthyUpsertEdge(db: Db, key: EdgeKey, data: EdgeData, keys: set<EdgeKey>)
    requires Healthy(db.edges, db.now, keys)
    ensures UpsertEdge(db, key, data).Ok? ==>
              Healthy(UpsertEdge(db, key, data).value.0.edges, db.now, keys + {key})
  {
    if UpsertEdge(db, key, data).Ok? && Current(db.edges, key).Some? {
      var r := Current(db.edges, key).value;
      match UpsertChange(r.data, data) {
        case Written(d) => HealthySupersede(db.edges, db.now, keys, r, d);
        case _ => HealthyMore(db.edges, db.now, keys, keys + {key});
      }
    }
  }

  /** At the start of a transaction no row was written in it. */
  lemma HealthyStart<K, P>(rows: Rows<K, P>, before: int, now: int)
    requires Coherent(rows, before) && before < now && Wide(rows)
    ensures Healthy(rows, now, {})
  {
  }

  /* ---------------------------------------------------------------- discovery runs and deltas */

  lemma {:induction false} HealthyDiscover(db: Db, cis: seq<DiscoveredCi>, source: string)
    requires Healthy(db.cis, db.now, {})
    ensures DiscoverCis(db, cis, source).Ok? ==>
              var p := DiscoverCis(db, cis, source).value;
              Healthy(p.db.cis, db.now, p.seen) && p.db.edges == db.edges && p.db.now == db.now
    decreases |cis|
  {
    hide Healthy, UpsertCi, MatchCi, IsMerge;
    if cis != [] && DiscoverCis(db, cis, source).Ok? {
      var init, d := cis[..|cis| - 1], cis[|cis| - 1];
      HealthyDiscover(db, init, source);
      var p := DiscoverCis(db, init, source).value;
      var m := MatchCi(p.db, d, source);
      var key := if m.Some? then m.value.key else d.key;
      HealthyUpsertCi(p.db, key, d.name, d.attributes, p.seen);
      UpsertCiFrame(p.db, key, d.name, d.attributes);
    }
  }

  lemma UpsertCiFrame(db: Db, key: CiKey, name: Option<string>, attributes: map<string, string>)
    requires UpsertCi(db, key, name, attributes).Ok?
    ensures var after := UpsertCi(db, key, name, attributes).value.0; after.edges == db.edges && after.now == db.now
  {
  }

  lemma {:induction false} HealthyWrite(db: Db, idByKey: map<CiKey, nat>, order: RowOrder, edges: seq<DiscoveredEdge>)
    requires Healthy(db.edges, db.now, {})
    ensures WriteEdges(db, idByKey, order, edges).Ok? ==>
              var p := WriteEdges(db, idByKey, order, edges).value;
              Healthy(p.db.edges, db.now, p.seen) && p.db.cis == db.cis && p.db.now == db.now
    decreases |edges|
  {
    hide Healthy, UpsertEdge, EdgeTarget;
    if edges != [] && WriteEdges(db, idByKey, order, edges).Ok? {
      var init, e := edges[..|edges| - 1], edges[|edges| - 1];
      HealthyWrite(db, idByKey, order, init);
      var p := WriteEdges(db, idByKey, order, init).value;
      if EdgeTarget(p.db, idByKey, order, e).Some? {
        HealthyUpsertEdge(p.db, EdgeTarget(p.db, idByKey, order, e).value, e.data, p.seen);
        UpsertEdgeFrame(p.db, EdgeTarget(p.db, idByKey, order, e).value, e.data);
      }
    }
  }

  lemma UpsertEdgeFrame(db: Db, key: EdgeKey, data: EdgeData)
    requires UpsertEdge(db, key, data).Ok?
    ensures var after := UpsertEdge(db, key, data).value.0; after.cis == db.cis && after.now == db.now
  {
  }

  ghost predicate AllWide(db: Db) { Wide(db.cis) && Wide(db.edges) }

  lemma HealthyWide<K, P>(rows: Rows<K, P>, now: int, keys: set<K>)
    requires Healthy(rows, now, keys)
    ensures Wide(rows)
  {
  }

  /** A discovery run closes only what it has not written. */
  lemma WideReconcile(db: Db, b: Batch, order: RowOrder)
    requires Healthy(db.cis, db.now, {}) && Healthy(db.edges, db.now, {}) && Reconcile(db, b, order).Ok?
    ensures AllWide(Reconcile(db, b, order).value.0)
  {
    hide Healthy, Wide, DiscoverCis, WriteEdges, CloseMany, Project, OpenMap, EdgeView, IdsUnder, OwnedBy;
    var c := DiscoverCis(db, b.cis, b.source).value;
    HealthyDiscover(db, b.cis, b.source);
    var mid := CloseCis(c.db, CisToClose(c, b));
    HealthyClose(c.db.cis, db.now, c.seen, CisToClose(c, b));
    var e := WriteEdges(mid, c.idByKey, order, b.edges).value;
    HealthyWrite(mid, c.idByKey, order, b.edges);
    HealthyClose(e.db.edges, db.now, e.seen, EdgesToClose(e, b));
    HealthyWide(mid.cis, db.now, c.seen);
    HealthyWide(CloseMany(e.db.edges, EdgesToClose(e, b), db.now), db.now, e.seen);
  }

  /** Closing the given keys closes no row of this transaction. */
  ghost predicate ClosesOld<K, P>(rows: Rows<K, P>, now: int, closed: set<K>) {
    forall r :: r in rows && r.Open() && r.key in closed ==> r.validFrom != now
  }

  lemma WideClose<K, P>(rows: Rows<K, P>, now: int, closed: set<K>)
    requires Wide(rows)
    ensures Wide(CloseMany(rows, closed, now)) <==> ClosesOld(rows, now, closed)
  {
    if ClosesOld(rows, now, closed) {
      forall a | a in CloseMany(rows, closed, now) ensures !ChangeFeed.ZeroWidth(a) { var r := Preimage(rows, closed, now, a); }
    }
    if r :| r in rows && r.Open() && r.key in closed && r.validFrom == now {
      assert ClosedIf(r, closed, now) in CloseMany(rows, closed, now) && ChangeFeed.ZeroWidth(ClosedIf(r, closed, now));
    }
  }

  /** The delta closes no version that it wrote itself. */
  ghost predicate Separate(db: Db, s: Step) {
    s.Changed? ==>
      match Upserts(db, s.delta, s.order)
      case Abort => true
      case Ok((c, e)) =>
        && ClosesOld(e.db.cis, db.now, Removed(s.delta))
        && ClosesOld(e.db.edges, db.now, KeysToRemove(c, e, s.delta, s.order))
  }

  /** A delta keeps the widths if and only if that is so. */
  lemma WideDelta(db: Db, s: Step)
    requires Healthy(db.cis, db.now, {}) && Healthy(db.edges, db.now, {})
    requires s.Changed? && ApplyDelta(db, s.delta, s.order, s.first).Ok?
    ensures AllWide(ApplyDelta(db, s.delta, s.order, s.first).value.0) <==> Separate(db, s)
  {
    hide Healthy, Wide, ClosesOld, DiscoverCis, WriteEdges, WriteEdgesStrictly, CloseMany, Project, OpenMap, IdsUnder, FirstMatches,
         KeysToRemove, Removed;
    var d := s.delta;
    var (c, e) := Upserts(db, d, s.order).value;
    HealthyDiscover(db, d.cis, d.source);
    StrictWrites(c.db, c.idByKey, s.order, d.edges);
    HealthyWrite(c.db, c.idByKey, s.order, d.edges);
    HealthyWide(e.db.cis, db.now, c.seen);
    HealthyWide(e.db.edges, db.now, e.seen);
    WideClose(e.db.cis, db.now, Removed(d));
    WideClose(e.db.edges, db.now, KeysToRemove(c, e, d, s.order));
  }

  /* ---------------------------------------------------------------- sweeps and merges */

  /** Every listed row is older than the transaction. */
  ghost predicate OldRows(rows: seq<EdgeRow>, now: int) { forall r :: r in rows ==> r.validFrom != now }

  /** The open row of the key, if there is one, is the given old row. */
  lemma OnlyRow(edges: Rows<EdgeKey, EdgeData>, now: int, e: EdgeRow)
    requires Coherent(edges, now) && e.validFrom != now
    requires e.key in OpenMap(edges) ==> OpenMap(edges)[e.key] == e
    ensures forall r :: r in edges && r.Open() && r.key == e.key ==> r.validFrom != now
  {
    forall r | r in edges && r.Open() && r.key == e.key ensures r.validFrom != now { OpenRow(edges, now, r); }
  }

  lemma {:induction false} HealthyMoves(db: Db, rows: seq<EdgeRow>, from: nat, to: nat, note: Evidence)
    requires Tables(db) && Known(db, rows, to) && Movable(rows, from, to) && MoveEdges(db, rows, from, to, note).Ok?
    requires Healthy(db.edges, db.now, {}) && OldRows(rows, db.now)
    requires forall r :: r in rows ==> r.key in OpenMap(db.edges) && OpenMap(db.edges)[r.key] == r
    ensures Wide(MoveEdges(db, rows, from, to, note).value.0.edges)
    ensures exists keys :: Healthy(MoveEdges(db, rows, from, to, note).value.0.edges, db.now, keys)
    decreases |rows|
  {
    hide Tables, Healthy, Wide, MoveEdge, OpenMap;
    if rows == [] {
      HealthyWide(db.edges, db.now, {});
    } else {
      var init, e := rows[..|rows| - 1], rows[|rows| - 1];
      HealthyMoves(db, init, from, to, note);
      MoveAll(db, init, from, to, note);
      var (mid, moved) := MoveEdges(db, init, from, to, note).value;
      var keys :| Healthy(mid.edges, db.now, keys);
      MovedAreAway(db, init, from, to, note);
      assert e in rows;
      HealthyMove(db, init, mid, moved, e, from, to, note, keys);
    }
  }

  lemma UpsertedKey(db: Db, key: EdgeKey, data: EdgeData)
    requires UpsertEdge(db, key, data).Ok?
    ensures UpsertEdge(db, key, data).value.1.key == key
  {
  }

  lemma {:induction false} MovedAreAway(db: Db, rows: seq<EdgeRow>, from: nat, to: nat, note: Evidence)
    requires from != to && MoveEdges(db, rows, from, to, note).Ok?
    ensures forall k :: k in ByKey(MoveEdges(db, rows, from, to, note).value.1) ==> !Touches(k, from)
    decreases |rows|
  {
    hide UpsertEdge, CloseEdges;
    if rows != [] {
      var init, e := rows[..|rows| - 1], rows[|rows| - 1];
      MovedAreAway(db, init, from, to, note);
      var (mid, moved) := MoveEdges(db, init, from, to, note).value;
      UpsertedKey(CloseEdges(mid, {e.key}), MovedKey(e.key, from, to), WithNote(e.data, note));
      ByKeyAppend(moved, MoveEdge(mid, e, from, to, note).value.1);
    }
  }

  lemma HealthyMove(db: Db, init: seq<EdgeRow>, mid: Db, moved: seq<EdgeRow>, e: EdgeRow, from: nat, to: nat, note: Evidence, keys: set<EdgeKey>)
    requires MoveInv(db, init, mid, moved) && Healthy(mid.edges, db.now, keys) && MoveEdge(mid, e, from, to, note).Ok?
    requires e.validFrom != db.now && e.key in OpenMap(db.edges) && OpenMap(db.edges)[e.key] == e
    requires e.key in OpenMap(mid.edges) ==> e.key !in ByKey(moved)
    ensures Healthy(MoveEdge(mid, e, from, to, note).value.0.edges, db.now, keys + {MovedKey(e.key, from, to)})
    ensures Wide(MoveEdge(mid, e, from, to, note).value.0.edges)
  {
    hide Tables, Healthy, Wide, UpsertEdge, OpenMap, CloseMany, Stable, ByKey, KeySet;
    MidCoherent(db, init, mid, moved);
    OnlyRow(mid.edges, mid.now, e);
    HealthyCloseOld(mid.edges, db.now, keys, e.key);
    var closed := CloseEdges(mid, {e.key});
    HealthyUpsertEdge(closed, MovedKey(e.key, from, to), WithNote(e.data, note), keys);
    HealthyWide(MoveEdge(mid, e, from, to, note).value.0.edges, db.now, keys + {MovedKey(e.key, from, to)});
  }

  lemma MidCoherent(db: Db, rows: seq<EdgeRow>, mid: Db, moved: seq<EdgeRow>)
    requires MoveInv(db, rows, mid, moved)
    ensures Coherent(mid.edges, mid.now) && mid.now == db.now
  {
    hide Coherent, OpenMap, Stable, ByKey, KeySet;
  }

  /** Rows read at the start of a transaction are older than it. */
  lemma ListedOld(edges: Rows<EdgeKey, EdgeData>, now: int, keys: set<EdgeKey>, rows: seq<EdgeRow>)
    requires Fresh(edges, now, {}) && Lists(edges, keys, rows)
    ensures OldRows(rows, now)
  {
    forall r | r in rows ensures r.validFrom != now { OpenMapRow(edges, r.key); }
  }

  lemma WideAccept(db: Db, id: nat, rows: seq<EdgeRow>)
    requires Tables(db) && Distinct(db, id) && ListsMerge(db, id, rows) && AcceptCandidate(db, id, rows).Done?
    requires Healthy(db.cis, db.now, {}) && Healthy(db.edges, db.now, {})
    ensures AllWide(AcceptCandidate(db, id, rows).value)
  {
    hide Tables, Healthy, Wide, PlanMerge, MoveEdges, OpenMap, Stable, CloseMany, Project, MergeNote, CiView, Lists, AcceptCandidate, EdgesToMerge;
    var p, mid, moved := AcceptStages(db, id, rows);
    PlanFacts(db, id);
    IdentitiesOnly(db, p);
    var start := MoveIdentities(db, p);
    HealthyParts(db.edges, db.now);
    ListedOld(db.edges, db.now, EdgesToMerge(db.edges, p.merged.id, p.canonical.id), rows);
    MergeMovable(db, p, rows);
    ListedKnown(start, EdgesToMerge(db.edges, p.merged.id, p.canonical.id), rows, p.canonical.id);
    ListedRows(db.edges, EdgesToMerge(db.edges, p.merged.id, p.canonical.id), rows);
    HealthyMoves(start, rows, p.merged.id, p.canonical.id, MergeNote(p, id, db.now));
    MoveFrame(start, rows, mid, moved);
    HealthyClose(db.cis, db.now, {}, {p.merged.key});
    HealthyWide(CloseMany(db.cis, {p.merged.key}, db.now), db.now, {});
  }

  lemma HealthyParts<K, P>(rows: Rows<K, P>, now: int)
    requires Healthy(rows, now, {})
    ensures Fresh(rows, now, {}) && Wide(rows)
  {
  }

  lemma ListedRows(edges: Rows<EdgeKey, EdgeData>, keys: set<EdgeKey>, rows: seq<EdgeRow>)
    requires Lists(edges, keys, rows)
    ensures forall r :: r in rows ==> r.key in OpenMap(edges) && OpenMap(edges)[r.key] == r
  {
    hide OpenMap;
  }

  lemma MergeMovable(db: Db, p: Plan, rows: seq<EdgeRow>)
    requires Lists(db.edges, EdgesToMerge(db.edges, p.merged.id, p.canonical.id), rows) && p.merged.id != p.canonical.id
    ensures Movable(rows, p.merged.id, p.canonical.id)
  {
    hide OpenMap;
    forall r | r in rows ensures Touches(r.key, p.merged.id) { assert r.key in KeySet(rows); }
  }

  lemma WideUnmerge(db: Db, mergeId: nat, rows: seq<EdgeRow>)
    requires Tables(db) && ListsRestore(db, mergeId, rows) && Unmerge(db, mergeId, rows).Done?
    requires Healthy(db.cis, db.now, {}) && Healthy(db.edges, db.now, {})
    ensures AllWide(Unmerge(db, mergeId, rows).value)
  {
    hide Tables, Healthy, Wide, MoveEdges, OpenMap, Stable, CloseMany, Project, UnmergeNote, CiView, Lists, Unmerge, EdgesToRestore, PlanUnmerge;
    var split, r, mid, moved := UnmergeStages(db, mergeId, rows);
    var m := db.merges[mergeId];
    SplitFacts(db, mergeId);
    WideSplit(db, mergeId);
    HealthyParts(db.edges, db.now);
    ListedOld(db.edges, db.now, EdgesToRestore(db.edges, m.canonical, m), rows);
    RestoreListed(db, mergeId, rows, split);
    ListedKnown(split, KeySet(rows), rows, r.id);
    ListedRows(split.edges, KeySet(rows), rows);
    HealthyMoves(split, rows, m.canonical, r.id, UnmergeNote(m.canonical, r.id, mergeId, db.now));
    MoveFrame(split, rows, mid, moved);
  }

  lemma WideSplit(db: Db, mergeId: nat)
    requires PlanUnmerge(db, mergeId).Done? && Healthy(db.cis, db.now, {})
    ensures Wide(PlanUnmerge(db, mergeId).value.0.cis)
  {
    hide Healthy, Wide, UpsertCi;
    var m := db.merges[mergeId];
    var key := CiKey(CurrentById(db.cis, m.canonical).value.key.ctype, m.externalId);
    HealthyUpsertCi(db, key, None, map[], {});
    HealthyWide(UpsertCi(db, key, None, map[]).value.0.cis, db.now, {} + {key});
  }

  lemma {:induction false} HealthyAging(db: Db, rows: seq<EdgeRow>, wall: int)
    requires Tables(db) && AgeRows(db, rows, wall).Ok? && Healthy(db.edges, db.now, {}) && OldRows(rows, db.now)
    requires forall r :: r in rows ==> r.key in OpenMap(db.edges) && OpenMap(db.edges)[r.key] == r
    requires forall i, j :: 0 <= i < j < |rows| ==> rows[i].key != rows[j].key
    ensures Healthy(AgeRows(db, rows, wall).value.db.edges, db.now, KeySet(rows))
    decreases |rows|
  {
    hide Tables, Healthy, Wide, AgeRow, OpenMap, KeySet;
    if rows == [] {
      assert KeySet([]) == {} by { NoRows(); }
    } else {
      var init, e := rows[..|rows| - 1], rows[|rows| - 1];
      assert rows == init + [e];
      HealthyAging(db, init, wall);
      AgeAll(db, init, wall);
      NotListed(init, e);
      assert e in rows;
      KeySetAppend(init, e);
      HealthyAge(db, init, AgeRows(db, init, wall).value, e, wall);
    }
  }

  lemma NoRows()
    ensures KeySet([]) == {}
  {
  }

  lemma HealthyAge(db: Db, rows: seq<EdgeRow>, p: AgePhase, e: EdgeRow, wall: int)
    requires AgeInv(db, rows, p, wall) && Healthy(p.db.edges, db.now, KeySet(rows)) && AgeRow(p, e, wall).Ok?
    requires e.validFrom != db.now && e.key !in KeySet(rows) && e.key in OpenMap(db.edges) && OpenMap(db.edges)[e.key] == e
    ensures Healthy(AgeRow(p, e, wall).value.db.edges, db.now, KeySet(rows) + {e.key})
  {
    hide Tables, Healthy, ActionOf, OpenMap, CloseMany, Supersede, AgeInv, KeySet, Coherent;
    RowStillOpen(db, rows, p, e, wall);
    AgePhaseCoherent(db, rows, p, wall);
    OnlyRow(p.db.edges, db.now, e);
    HealthyMore(p.db.edges, db.now, KeySet(rows), KeySet(rows) + {e.key});
    HealthyCloseOld(p.db.edges, db.now, KeySet(rows) + {e.key}, e.key);
    if ActionOf(e, wall).Decay? { HealthySupersede(p.db.edges, db.now, KeySet(rows), e, ActionOf(e, wall).data); }
  }

  lemma AgePhaseCoherent(db: Db, rows: seq<EdgeRow>, p: AgePhase, wall: int)
    requires AgeInv(db, rows, p, wall)
    ensures Coherent(p.db.edges, db.now) && p.db.now == db.now
  {
    hide Coherent, OpenMap, Aging.Aged, EdgeView, Stable, Shown, InferredCount, KeySet;
  }

  lemma WideAge(db: Db, rows: seq<EdgeRow>, wall: int)
    requires Tables(db) && ListsAll(db, rows) && AgeEdges(db, rows, wall).Ok?
    requires Healthy(db.cis, db.now, {}) && Healthy(db.edges, db.now, {})
    ensures AllWide(AgeEdges(db, rows, wall).value.0)
  {
    hide Tables, Healthy, Wide, AgeRows, OpenMap, Project, Lists, AgeInv, KeySet;
    HealthyParts(db.edges, db.now);
    HealthyWide(db.cis, db.now, {});
    ListedOld(db.edges, db.now, OpenMap(db.edges).Keys, rows);
    ListedRows(db.edges, OpenMap(db.edges).Keys, rows);
    ListedApart(db.edges, OpenMap(db.edges).Keys, rows);
    HealthyAging(db, rows, wall);
    AgeAll(db, rows, wall);
    var p := AgeRows(db, rows, wall).value;
    AgePhaseFrame(db, rows, p, wall);
    HealthyWide(p.db.edges, db.now, KeySet(rows));
  }

  lemma AgePhaseFrame(db: Db, rows: seq<EdgeRow>, p: AgePhase, wall: int)
    requires AgeInv(db, rows, p, wall)
    ensures p.db.cis == db.cis
  {
    hide Tables, OpenMap, Aging.Aged, EdgeView, Stable, Shown, InferredCount, KeySet;
  }

  lemma ListedApart(edges: Rows<EdgeKey, EdgeData>, keys: set<EdgeKey>, rows: seq<EdgeRow>)
    requires Lists(edges, keys, rows)
    ensures forall i, j :: 0 <= i < j < |rows| ==> rows[i].key != rows[j].key
  {
    hide OpenMap, KeySet;
  }

  /* ---------------------------------------------------------------- whole runs */

  lemma WideStep(db: Db, s: Step)
    requires Sound(db) && Reads(db, s) && Separate(db, s)
    requires Healthy(db.cis, db.now, {}) && Healthy(db.edges, db.now, {})
    ensures AllWide(Perform(db, s))
  {
    hide Tables, Healthy, Wide, Reconcile, ApplyDelta, AgeEdges, AcceptCandidate, Unmerge, Offer, Dismiss, ListsAll, ListsMerge,
         ListsRestore, Separate, Retention.Swept, Distinct;
    HealthyWide(db.cis, db.now, {});
    HealthyWide(db.edges, db.now, {});
    match s {
      case Discovered(b, order) => if Reconcile(db, b, order).Ok? { WideReconcile(db, b, order); }
      case Changed(d, order, first) => if ApplyDelta(db, d, order, first).Ok? { WideDelta(db, s); }
      case Aged(rows, wall) => if AgeEdges(db, rows, wall).Ok? { WideAge(db, rows, wall); }
      case Offered(x, y) => OfferRows(db, x, y);
      case Accepts(id, rows) =>
        PairedDistinct(db, id);
        if AcceptCandidate(db, id, rows).Done? { WideAccept(db, id, rows); }
      case Dismisses(id) => DismissRows(db, id);
      case Reversed(id, rows) => if Unmerge(db, id, rows).Done? { WideUnmerge(db, id, rows); }
      case Retained(horizon) =>
        WideSweep(db.cis, horizon);
        WideSweep(db.edges, horizon);
    }
  }

  lemma OfferRows(db: Db, x: nat, y: nat)
    ensures Offer(db, x, y).cis == db.cis && Offer(db, x, y).edges == db.edges
  {
  }

  lemma DismissRows(db: Db, id: nat)
    ensures Dismiss(db, id).Done? ==> Dismiss(db, id).value.cis == db.cis && Dismiss(db, id).value.edges == db.edges
  {
  }

  lemma WideSweep<K, P>(rows: Rows<K, P>, horizon: int)
    requires Wide(rows)
    ensures Wide(Retention.Swept(rows, horizon))
  {
  }

  /** No delta of the run closes a version that it wrote itself. */
  ghost predicate AllSeparate(start: int, ts: seq<Transaction>) {
    ts == [] ||
    (var init, t := ts[..|ts| - 1], ts[|ts| - 1];
     AllSeparate(start, init) && Separate(Begin(Run(start, init), t.at), t.step))
  }

  lemma StartHealthy(db: Db, t: int)
    requires Sound(db) && db.now < t && AllWide(db)
    ensures var b := Begin(db, t); Healthy(b.cis, b.now, {}) && Healthy(b.edges, b.now, {})
  {
    HealthyStart(db.cis, db.now, t);
    HealthyStart(db.edges, db.now, t);
    hide Coherent, Wide, Healthy;
  }

  lemma {:induction false} RunsStayWide(start: int, ts: seq<Transaction>)
    requires Possible(start, ts) && AllSeparate(start, ts)
    ensures AllWide(Run(start, ts))
    decreases |ts|
  {
    hide Sound, Reads, Perform, Separate, Wide, Healthy;
    if ts == [] {
      EmptyWide();
    } else {
      var init, t := ts[..|ts| - 1], ts[|ts| - 1];
      RunsStayWide(start, init);
      EveryRun(start, init);
      StartHealthy(Run(start, init), t.at);
      BeginSound(Run(start, init), t.at);
      WideStep(Begin(Run(start, init), t.at), t.step);
    }
  }

  lemma EmptyWide()
    ensures Wide<CiKey, CiData>({}) && Wide<EdgeKey, EdgeData>({})
  {
  }

  /** The change feed is exact after every run in which no delta closes a version that it wrote itself: for every
      window, replaying it over the CIs or edges open just before the window gives exactly those
      open just before its end. */
  lemma FeedIsExact(start: int, ts: seq<Transaction>, since: int, until: int)
    requires Possible(start, ts) && AllSeparate(start, ts) && since <= until
    ensures var db := Run(start, ts);
            && ChangeFeed.Replay(db.cis, since, until) == ChangeFeed.LiveBefore(db.cis, until)
            && ChangeFeed.Replay(db.edges, since, until) == ChangeFeed.LiveBefore(db.edges, until)
  {
    hide Wide, Run, Possible, AllSeparate, ChangeFeed.Replay, ChangeFeed.LiveBefore, Coherent;
    RunsStayWide(start, ts);
    EveryRun(start, ts);
    var db := Run(start, ts);
    WideIsReplayable(db.cis, db.now, since, until);
    WideIsReplayable(db.edges, db.now, since, until);
  }

  /* ---------------------------------------------------------------- a delta that the feed misreports */

  function LoneRow(): CiRow { Version(0, HERE, CiData(None, map[], 1.0, 0), 0, 0, None) }

  /** One CI, open since instant 0; the transaction runs at instant 1. */
  function Lone(): Db {
    Db(1, 1, {LoneRow()}, {}, map[], map[], [], {}, map[], Graph(map[0 := Vertex(HERE.ctype, HERE.externalId, None)], map[]))
  }

  /** Rename the CI and remove it. */
  function RenameAndRemove(): Delta {
    Delta("aws", [Renaming()], [], [HERE], [])
  }

  function Renaming(): DiscoveredCi { DiscoveredCi(HERE, Some("renamed"), map[], []) }

  function Renamed(): CiRow { NewVersion(LoneRow(), CiUpdate(LoneRow(), Some("renamed"), map[]), 1) }

  lemma LoneIs()
    ensures Lone().now == 1 && Lone().nextId == 1 && Lone().cis == {LoneRow()} && Lone().edges == {}
    ensures LoneRow().Open() && LoneRow().id == 0 && LoneRow().validFrom == 0 && LoneRow().key == HERE && LoneRow().data.name == None
    ensures RenameAndRemove().cis == [Renaming()] && RenameAndRemove().edges == [] && RenameAndRemove().source == "aws"
  {
  }

  lemma LoneTables()
    ensures Tables(Lone()) && Coherent(Lone().cis, 1)
  {
    LoneIs();
    hide Lone, LoneRow, Coherent;
    FirstVersionsCoherent(Lone().cis, 1);
    FirstVersionsCoherent(Lone().edges, 1);
  }

  /** The renaming writes a second version in this transaction. */
  lemma LoneRenamed()
    ensures MatchCi(Lone(), Renaming(), "aws") == Some(LoneRow())
    ensures var up := UpsertCi(Lone(), HERE, Renaming().name, Renaming().attributes);
            up.Ok? && up.value.0.cis == {LoneRow().(validTo := Some(1)), Renamed()}
  {
    LoneIs();
    LoneTables();
    hide Lone, LoneRow, Coherent;
    OpenRow(Lone().cis, 1, LoneRow());
    assert CiChanged(LoneRow(), Renaming().name, Renaming().attributes);
  }

  lemma LoneUpserts(order: RowOrder)
    ensures Upserts(Lone(), RenameAndRemove(), order).Ok?
    ensures Upserts(Lone(), RenameAndRemove(), order).value.1.db.cis == {LoneRow().(validTo := Some(1)), Renamed()}
  {
    LoneIs();
    LoneRenamed();
    hide Lone, LoneRow, Renamed, RenameAndRemove, Renaming, UpsertCi, MatchCi, IsMerge, Current;
    var p := CiPhase(Lone(), map[], {}, [], 0, 0, 0);
    assert [Renaming()][..0] == [];
    assert DiscoverCis(Lone(), [], "aws") == Ok(p);
    assert DiscoverCis(Lone(), [Renaming()], "aws") == DiscoverCi(p, Renaming(), "aws");
  }

  lemma ClosesRenamed()
    ensures CloseMany({LoneRow().(validTo := Some(1)), Renamed()}, {HERE}, 1)
         == {LoneRow().(validTo := Some(1)), Renamed().(validTo := Some(1))}
  {
    var rows := {LoneRow().(validTo := Some(1)), Renamed()};
    assert ClosedIf(LoneRow().(validTo := Some(1)), {HERE}, 1) == LoneRow().(validTo := Some(1));
    assert ClosedIf(Renamed(), {HERE}, 1) == Renamed().(validTo := Some(1));
    assert LoneRow().(validTo := Some(1)) in rows && Renamed() in rows;
  }

  /** The removal is not reported: replaying the window over the ids open before it says that the
      removed CI is still there. */
  lemma RemovalIsMissed(order: RowOrder, first: Scan)
    ensures Tables(Lone()) && ApplyDelta(Lone(), RenameAndRemove(), order, first).Ok?
    ensures var after := ApplyDelta(Lone(), RenameAndRemove(), order, first).value.0;
            && ChangeFeed.Zombie(after.cis, 1, 2)
            && ChangeFeed.Replay(after.cis, 1, 2) != ChangeFeed.LiveBefore(after.cis, 2)
  {
    hide Tables, Coherent, CloseMany, Upserts, Project, Lone, LoneRow, Renamed, ChangeFeed.Replay, ChangeFeed.LiveBefore, KeysToRemove;
    LoneTables();
    LoneUpserts(order);
    ClosesRenamed();
    DeltaKeeps(Lone(), RenameAndRemove(), order, first);
    var after := ApplyDelta(Lone(), RenameAndRemove(), order, first).value.0;
    DeltaFrame(Lone(), RenameAndRemove(), order, first);
    LoneInstant(order);
    RowsOfDelta(Lone(), RenameAndRemove(), order, first);
    ZombieRow();
    BothTables(after, after);
    assert Removed(RenameAndRemove()) == {HERE};
    ChangeFeed.ReplayExact(after.cis, after.now, 1, 2);
  }

  lemma LoneInstant(order: RowOrder)
    requires Upserts(Lone(), RenameAndRemove(), order).Ok?
    ensures Lone().now == 1 && Upserts(Lone(), RenameAndRemove(), order).value.1.db.now == 1
  {
    hide DiscoverCi, UpsertCi;
    var c := DiscoverCis(Lone(), RenameAndRemove().cis, "aws").value;
    LoneTables();
    DiscoverAll(Lone(), RenameAndRemove().cis, "aws");
  }

  lemma RowsOfDelta(db: Db, d: Delta, order: RowOrder, first: Scan)
    requires ApplyDelta(db, d, order, first).Ok?
    ensures var (c, e) := Upserts(db, d, order).value;
            ApplyDelta(db, d, order, first).value.0.cis == CloseMany(e.db.cis, Removed(d), e.db.now)
  {
    hide Upserts, CloseMany, Project, KeysToRemove;
  }

  lemma ZombieRow()
    ensures ChangeFeed.Zombie({LoneRow().(validTo := Some(1)), Renamed().(validTo := Some(1))}, 1, 2)
  {
    var p, r := LoneRow().(validTo := Some(1)), Renamed().(validTo := Some(1));
    var rows := {p, r};
    assert p in rows && r in rows && p.id == r.id && p.validFrom < r.validFrom;
  }
}
