/** Whole runs of the system: any interleaving of discovery runs, deltas, aging sweeps, merge
    decisions, reversals and retention sweeps, each in its own transaction. */
module Runs {
  import opened Observations
  import opened Versions
  import opened Store
  import opened Reconciling
  import opened Deltas
  import opened Merging
  import opened Aging
  import Retention

  /** A `rows` parameter is the order in which the transaction read the edges it loops over. */
  datatype Step =
    | Discovered(batch: Batch, order: RowOrder)
    | Changed(delta: Delta, order: RowOrder, first: Scan)
    | Aged(rows: seq<EdgeRow>, wall: int)
    | Offered(x: nat, y: nat)
    | Accepts(candidate: nat, rows: seq<EdgeRow>)
    | Dismisses(candidate: nat)
    | Reversed(mergeId: nat, rows: seq<EdgeRow>)
    | Retained(horizon: int)

  datatype Transaction = Transaction(at: int, step: Step)

  ghost function Sweep(db: Db, horizon: int): Db {
    db.(cis := Retention.Swept(db.cis, horizon), edges := Retention.Swept(db.edges, horizon))
  }

  /** What is committed; a transaction that fails commits nothing. */
  ghost function Perform(db: Db, s: Step): Db {
    match s
    case Discovered(b, order) => (match Reconcile(db, b, order) case Ok((after, _)) => after case Abort => db)
    case Changed(d, order, first) => (match ApplyDelta(db, d, order, first) case Ok((after, _)) => after case Abort => db)
    case Aged(rows, wall) => (match AgeEdges(db, rows, wall) case Ok((after, _)) => after case Abort => db)
    case Offered(x, y) => Offer(db, x, y)
    case Accepts(id, rows) => (match AcceptCandidate(db, id, rows) case Done(after) => after case Refused(_) => db)
    case Dismisses(id) => (match Dismiss(db, id) case Done(after) => after case Refused(_) => db)
    case Reversed(id, rows) => (match Unmerge(db, id, rows) case Done(after) => after case Refused(_) => db)
    case Retained(horizon) => Sweep(db, horizon)
  }

  /** The loops run over the rows that are there. */
  ghost predicate Reads(db: Db, s: Step) {
    match s
    case Aged(rows, _) => ListsAll(db, rows)
    case Accepts(id, rows) => ListsMerge(db, id, rows)
    case Reversed(id, rows) => ListsRestore(db, id, rows)
    case _ => true
  }

  /** A delta that closes, between CIs that stay open, an edge with a parallel that the scan of
      the open edges reads first. */
  ghost predicate Astray(db: Db, s: Step) { s.Changed? && GoesAstray(db, s.delta, s.order, s.first) }

  /** A delta that closes, between CIs that stay open, an edge with a parallel that has an edge key. */
  ghost predicate Risky(db: Db, s: Step) { s.Changed? && MayGoAstray(db, s.delta, s.order) }

  function Empty(start: int): Db {
    Db(start, 0, {}, {}, map[], map[], [], {}, map[], Graph(map[], map[]))
  }

  ghost function Run(start: int, ts: seq<Transaction>): Db {
    if ts == [] then Empty(start) else Next(Run(start, ts[..|ts| - 1]), ts[|ts| - 1])
  }

  ghost function Next(db: Db, t: Transaction): Db { Perform(Begin(db, t.at), t.step) }

  /** Transactions start one after the other. */
  ghost predicate Possible(start: int, ts: seq<Transaction>) {
    ts == [] ||
    (var init, t := ts[..|ts| - 1], ts[|ts| - 1];
     Possible(start, init) && t.at > Run(start, init).now && Reads(Begin(Run(start, init), t.at), t.step))
  }

  ghost predicate NeverAstray(start: int, ts: seq<Transaction>) {
    ts == [] ||
    (var init, t := ts[..|ts| - 1], ts[|ts| - 1];
     NeverAstray(start, init) && !Astray(Begin(Run(start, init), t.at), t.step))
  }

  ghost predicate NeverRisky(start: int, ts: seq<Transaction>) {
    ts == [] ||
    (var init, t := ts[..|ts| - 1], ts[|ts| - 1];
     NeverRisky(start, init) && !Risky(Begin(Run(start, init), t.at), t.step))
  }

  /* ---------------------------------------------------------------- one transaction */

  ghost predicate Sound(db: Db) { Tables(db) && Paired(db) && Recorded(db) }

  ghost predicate Kept(before: Db, after: Db, from: int) {
    forall ts :: from <= ts < before.now ==>
      FactsAt(after.cis, ts) == FactsAt(before.cis, ts) && FactsAt(after.edges, ts) == FactsAt(before.edges, ts)
  }

  /** What every transaction guarantees; `from` is the horizon of a retention sweep. */
  ghost predicate Fair(db: Db, s: Step, after: Db, from: int) {
    && Sound(after) && after.now == db.now && ResolvedStay(db.candidates, after.candidates)
    && (Agree(db) ==> (Agree(after) <==> !Astray(db, s)))
    && Kept(db, after, from)
  }

  predicate Reaches(s: Step, from: int) { s.Retained? ==> s.horizon <= from }

  lemma NothingDone(db: Db, s: Step, from: int)
    requires Sound(db) && !Astray(db, s)
    ensures Fair(db, s, db, from)
  {
    hide Tables, Agree, Astray, FactsAt, Paired, Recorded;
  }

  lemma StableKept(before: Db, after: Db, from: int)
    requires Stable(before.cis, after.cis, before.now) && Stable(before.edges, after.edges, before.now)
    ensures Kept(before, after, from)
  {
    hide FactsAt;
  }

  lemma ResolvedSame(before: Db, after: Db)
    requires Paired(before) && after.candidates == before.candidates && before.nextId <= after.nextId
    ensures Paired(after) && ResolvedStay(before.candidates, after.candidates)
  {
  }

  lemma SameCandidates(before: Db, after: Db)
    requires Paired(before) && after.candidates == before.candidates && before.nextId <= after.nextId
    requires Recorded(before) && after.unmerged == before.unmerged && |before.merges| <= |after.merges|
    ensures Paired(after) && Recorded(after) && ResolvedStay(before.candidates, after.candidates)
  {
    ResolvedSame(before, after);
    RecordedKept(before, after);
  }

  lemma PerformDiscovered(db: Db, s: Step, from: int)
    requires Sound(db) && s.Discovered?
    ensures Fair(db, s, Perform(db, s), from)
  {
    hide Tables, Agree, Stable, Reconcile, Paired, Recorded, Kept, ResolvedStay;
    if Reconcile(db, s.batch, s.order).Ok? {
      var after := Reconcile(db, s.batch, s.order).value.0;
      ReconcileKeeps(db, s.batch, s.order);
      ReconcileStable(db, s.batch, s.order);
      ReconcileFrame(db, s.batch, s.order);
      StableKept(db, after, from);
      SameCandidates(db, after);
    } else {
      NothingDone(db, s, from);
    }
  }

  lemma ReconcileFrame(db: Db, b: Batch, order: RowOrder)
    requires Tables(db) && Reconcile(db, b, order).Ok?
    ensures var after := Reconcile(db, b, order).value.0;
            after.now == db.now && after.candidates == db.candidates && db.nextId <= after.nextId
            && after.unmerged == db.unmerged && |db.merges| <= |after.merges|
  {
    hide Reconcile, Tables, CiInv, EdgeInv, DiscoverCis, WriteEdges, CloseMany, Project, CiView, OpenMap, Stable, IdsUnder, CisToClose, EdgesToClose;
    var c, e := Phases(db, b, order);
    PhaseFrames(db, b, order, c, e);
  }

  lemma PhaseFrames(db: Db, b: Batch, order: RowOrder, c: CiPhase, e: EdgePhase)
    requires Ran(db, b, order, c, e)
    ensures var after := Finish(c, e, b).0;
            after.now == db.now && after.candidates == db.candidates && db.nextId <= after.nextId
            && after.unmerged == db.unmerged && |db.merges| <= |after.merges|
  {
    hide Tables, CiView, EdgeView, OpenMap, OpenKeys, DiscoverCis, WriteEdges, Stable, Project, Shown, KeysOf, CisToClose, EdgesToClose,
         CloseMany, IdsUnder, IdsPersist, CacheOpen, OldOrFresh;
  }

  lemma PerformChanged(db: Db, s: Step, from: int)
    requires Sound(db) && s.Changed?
    ensures Fair(db, s, Perform(db, s), from)
  {
    hide Tables, Agree, Stable, ApplyDelta, GoesAstray, Paired, Recorded, Kept, ResolvedStay;
    if ApplyDelta(db, s.delta, s.order, s.first).Ok? {
      var after := ApplyDelta(db, s.delta, s.order, s.first).value.0;
      DeltaKeeps(db, s.delta, s.order, s.first);
      DeltaFrame(db, s.delta, s.order, s.first);
      StableKept(db, after, from);
      SameCandidates(db, after);
      if Agree(db) { DeltaAgrees(db, s.delta, s.order, s.first); }
    } else {
      FailedIsNotAstray(db, s.delta, s.order, s.first);
      NothingDone(db, s, from);
    }
  }

  lemma FailedIsNotAstray(db: Db, d: Delta, order: RowOrder, first: Scan)
    requires ApplyDelta(db, d, order, first).Abort?
    ensures !GoesAstray(db, d, order, first)
  {
    hide Upserts;
  }

  lemma DeltaFrame(db: Db, d: Delta, order: RowOrder, first: Scan)
    requires Tables(db) && ApplyDelta(db, d, order, first).Ok?
    ensures var after := ApplyDelta(db, d, order, first).value.0;
            after.now == db.now && after.candidates == db.candidates && db.nextId <= after.nextId
            && after.unmerged == db.unmerged && |db.merges| <= |after.merges|
  {
    hide ApplyDelta, Tables, Conclude, Applied;
    var c, e := Stages(db, d, order, first);
    AppliedFrames(db, d, order, first, c, e);
  }

  lemma AppliedFrames(db: Db, d: Delta, order: RowOrder, first: Scan, c: CiPhase, e: EdgePhase)
    requires Applied(db, d, order, c, e)
    ensures var after := Conclude(c, e, d, order, first).0;
            after.now == db.now && after.candidates == db.candidates && db.nextId <= after.nextId
            && after.unmerged == db.unmerged && |db.merges| <= |after.merges|
  {
    hide Tables, CiView, EdgeView, OpenMap, OpenKeys, DiscoverCis, WriteEdges, WriteEdgesStrictly, Stable, Project, Shown, KeysOf, KeysToRemove,
         CloseMany, IdsUnder, IdsPersist, CacheOpen, OldOrFresh, FirstMatches;
  }

  lemma PerformAged(db: Db, s: Step, from: int)
    requires Sound(db) && s.Aged? && Reads(db, s)
    ensures Fair(db, s, Perform(db, s), from)
  {
    hide Tables, Agree, Stable, AgeEdges, Paired, Recorded, Kept, ResolvedStay, ListsAll, Aging.Aged, OpenMap;
    if AgeEdges(db, s.rows, s.wall).Ok? {
      var after := AgeEdges(db, s.rows, s.wall).value.0;
      AgeKeeps(db, s.rows, s.wall);
      StableSame(db.cis, db.now);
      StableKept(db, after, from);
      SameCandidates(db, after);
    } else {
      NothingDone(db, s, from);
    }
  }

  lemma StableSame<K, P>(rows: Rows<K, P>, now: int)
    ensures Stable(rows, rows, now)
  {
  }

  lemma PerformOffered(db: Db, s: Step, from: int)
    requires Sound(db) && s.Offered?
    ensures Fair(db, s, Perform(db, s), from)
  {
    hide Tables, Stable, Offer, Paired, Recorded, ResolvedStay, CiView, EdgeView;
    OfferKeeps(db, s.x, s.y);
    RecordedKept(db, Offer(db, s.x, s.y));
    StableSame(db.cis, db.now);
    StableSame(db.edges, db.now);
    StableKept(db, Offer(db, s.x, s.y), from);
  }

  lemma PairedDistinct(db: Db, id: nat)
    requires Paired(db)
    ensures Distinct(db, id)
  {
  }

  lemma PerformAccepts(db: Db, s: Step, from: int)
    requires Sound(db) && s.Accepts? && Reads(db, s)
    ensures Fair(db, s, Perform(db, s), from)
  {
    PairedDistinct(db, s.candidate);
    hide Tables, Agree, Stable, AcceptCandidate, Paired, Recorded, Kept, ResolvedStay, ListsMerge, Distinct, CiView, PlanMerge, EdgeView,
         MergeNote, OpenMap;
    if AcceptCandidate(db, s.candidate, s.rows).Done? {
      var after := AcceptCandidate(db, s.candidate, s.rows).value;
      AcceptKeeps(db, s.candidate, s.rows);
      AcceptFrame(db, s.candidate, s.rows);
      StableKept(db, after, from);
      ResolveKeeps(db, after, s.candidate, Accepted(|db.merges|));
      RecordedKept(db, after);
    } else {
      NothingDone(db, s, from);
    }
  }

  lemma AcceptFrame(db: Db, id: nat, rows: seq<EdgeRow>)
    requires Tables(db) && Distinct(db, id) && ListsMerge(db, id, rows) && AcceptCandidate(db, id, rows).Done?
    ensures AcceptCandidate(db, id, rows).value.now == db.now && id in db.candidates && db.candidates[id].status == Pending
    ensures AcceptCandidate(db, id, rows).value.unmerged == db.unmerged
    ensures |AcceptCandidate(db, id, rows).value.merges| == |db.merges| + 1
  {
    hide Tables, Distinct, ListsMerge, AcceptCandidate, CloseMany, Project, OpenMap, Stable, ByKey, KeySet, MoveEdges;
    var p, mid, moved := AcceptStages(db, id, rows);
  }

  lemma PerformDismisses(db: Db, s: Step, from: int)
    requires Sound(db) && s.Dismisses?
    ensures Fair(db, s, Perform(db, s), from)
  {
    hide Tables, Stable, Dismiss, Paired, Recorded, ResolvedStay, CiView, EdgeView, PlanMerge;
    if Dismiss(db, s.candidate).Done? {
      var after := Dismiss(db, s.candidate).value;
      DismissKeeps(db, s.candidate);
      RecordedKept(db, after);
      StableSame(db.cis, db.now);
      StableSame(db.edges, db.now);
      StableKept(db, after, from);
    } else {
      NothingDone(db, s, from);
    }
  }

  lemma PerformReversed(db: Db, s: Step, from: int)
    requires Sound(db) && s.Reversed? && Reads(db, s)
    ensures Fair(db, s, Perform(db, s), from)
  {
    hide Tables, Agree, Stable, Unmerge, Paired, Recorded, Kept, ResolvedStay, ListsRestore, PlanUnmerge;
    if Unmerge(db, s.mergeId, s.rows).Done? {
      var after := Unmerge(db, s.mergeId, s.rows).value;
      UnmergeKeeps(db, s.mergeId, s.rows);
      UnmergeNow(db, s.mergeId, s.rows);
      StableKept(db, after, from);
      ResolvedSame(db, after);
      RecordedKept(db, after);
    } else {
      NothingDone(db, s, from);
    }
  }

  lemma UnmergeNow(db: Db, mergeId: nat, rows: seq<EdgeRow>)
    requires Tables(db) && ListsRestore(db, mergeId, rows) && Unmerge(db, mergeId, rows).Done?
    ensures Unmerge(db, mergeId, rows).value.now == db.now && Unmerge(db, mergeId, rows).value.merges == db.merges
    ensures Unmerge(db, mergeId, rows).value.unmerged == db.unmerged + {mergeId} && mergeId < |db.merges|
  {
    hide Tables, ListsRestore, Unmerge, PlanUnmerge, Project, OpenMap, Stable, ByKey, KeySet, MoveEdges, CiView;
    var split, r, mid, moved := UnmergeStages(db, mergeId, rows);
    SplitFacts(db, mergeId);
  }

  /* ---------------------------------------------------------------- retention */

  lemma SweepTables(db: Db, horizon: int)
    requires Tables(db)
    ensures Tables(Sweep(db, horizon)) && OpenMap(Sweep(db, horizon).cis) == OpenMap(db.cis)
    ensures OpenMap(Sweep(db, horizon).edges) == OpenMap(db.edges) && Sweep(db, horizon).graph == db.graph
  {
    Retention.SweptCoherent(db.cis, db.now, horizon);
    Retention.SweptCoherent(db.edges, db.now, horizon);
    Retention.SweepInvisible(db.cis, db.now, horizon, horizon);
    Retention.SweepInvisible(db.edges, db.now, horizon, horizon);
    hide Coherent, OpenMap, AsOf;
  }

  lemma SameCiView(before: Rows<CiKey, CiData>, after: Rows<CiKey, CiData>, now: int)
    requires Coherent(before, now) && Coherent(after, now) && OpenMap(after) == OpenMap(before)
    ensures CiView(after) == CiView(before)
  {
    forall r | r in after && r.Open() ensures r in before { OpenRow(after, now, r); OpenMapRow(before, r.key); }
    forall r | r in before && r.Open() ensures r in after { OpenRow(before, now, r); OpenMapRow(after, r.key); }
    hide Coherent, OpenMap;
    forall i | i in CiView(before) ensures exists r :: r in after && r.Open() && r.id == i && r.key == CiView(before)[i] {
      var r :| r in before && r.Open() && r.id == i;
      CiViewIs(before, now, i, r);
      assert r in after;
    }
    CiViewFromMap(after, now, CiView(before));
  }

  lemma SweepFacts<K, P>(rows: Rows<K, P>, now: int, horizon: int, ts: int)
    requires Coherent(rows, now) && ts >= horizon
    ensures FactsAt(Retention.Swept(rows, horizon), ts) == FactsAt(rows, ts)
  {
    Retention.SweepInvisible(rows, now, horizon, ts);
    FactsOfAsOf(rows, ts);
    FactsOfAsOf(Retention.Swept(rows, horizon), ts);
  }

  ghost function FactsOf<K, P>(rows: Rows<K, P>): set<Fact<K, P>> { set r | r in rows :: FactOf(r) }

  lemma FactsOfAsOf<K, P>(rows: Rows<K, P>, ts: int)
    ensures FactsAt(rows, ts) == FactsOf(AsOf(rows, ts))
  {
  }

  lemma PerformRetained(db: Db, s: Step, from: int)
    requires Sound(db) && s.Retained? && from >= s.horizon
    ensures Fair(db, s, Perform(db, s), from)
  {
    hide Tables, OpenMap, CiView, EdgeView, FactsAt, Retention.Swept, Coherent, Paired, Recorded, ResolvedStay;
    var after := Sweep(db, s.horizon);
    SweepTables(db, s.horizon);
    BothTables(db, after);
    SameCiView(db.cis, after.cis, db.now);
    SameEdgeView(db.edges, after.edges);
    SameCandidates(db, after);
    forall ts | from <= ts < db.now
      ensures FactsAt(after.cis, ts) == FactsAt(db.cis, ts) && FactsAt(after.edges, ts) == FactsAt(db.edges, ts)
    {
      SweepFacts(db.cis, db.now, s.horizon, ts);
      SweepFacts(db.edges, db.now, s.horizon, ts);
    }
  }

  lemma BothTables(a: Db, b: Db)
    requires Tables(a) && Tables(b)
    ensures Coherent(a.cis, a.now) && Coherent(b.cis, b.now) && Coherent(a.edges, a.now) && Coherent(b.edges, b.now)
  {
    hide Coherent;
  }

  lemma SameEdgeView(before: Rows<EdgeKey, EdgeData>, after: Rows<EdgeKey, EdgeData>)
    requires OpenMap(after) == OpenMap(before)
    ensures EdgeView(after) == EdgeView(before)
  {
    hide OpenMap;
  }

  /** Every transaction keeps the tables coherent and the past as it was, never touches a
      resolved candidate, and keeps the graph the projection of the current state, exactly unless
      it is a delta that goes astray. */
  lemma EveryStep(db: Db, s: Step, from: int)
    requires Sound(db) && Reads(db, s) && Reaches(s, from)
    ensures Fair(db, s, Perform(db, s), from)
  {
    hide Sound, Fair, Perform, Reads;
    match s {
      case Discovered(_, _) => PerformDiscovered(db, s, from);
      case Changed(_, _, _) => PerformChanged(db, s, from);
      case Aged(_, _) => PerformAged(db, s, from);
      case Offered(_, _) => PerformOffered(db, s, from);
      case Accepts(_, _) => PerformAccepts(db, s, from);
      case Dismisses(_) => PerformDismisses(db, s, from);
      case Reversed(_, _) => PerformReversed(db, s, from);
      case Retained(_) => PerformRetained(db, s, from);
    }
  }

  /* ---------------------------------------------------------------- whole runs */

  lemma BeginSound(db: Db, t: int)
    requires Sound(db) && db.now <= t
    ensures Sound(Begin(db, t)) && (Agree(db) ==> Agree(Begin(db, t)))
  {
    BeginTables(db, t);
    hide Tables, CiView, EdgeView;
  }

  lemma EmptyAgrees(start: int)
    ensures Sound(Empty(start)) && Agree(Empty(start))
  {
    var db := Empty(start);
    assert CiView(db.cis) == map[] && EdgeView(db.edges) == map[];
    hide CiView, EdgeView;
    assert VertexView(db.graph) == map[];
    assert Live(map[], {}) == map[];
  }

  /** After every run both tables are coherent histories: contiguous chains, one open row per
      identity, no two versions of an identity overlapping; and the graph is the projection of
      the current state unless some delta went astray. */
  lemma {:induction false} EveryRun(start: int, ts: seq<Transaction>)
    requires Possible(start, ts)
    ensures Sound(Run(start, ts))
    ensures NeverAstray(start, ts) ==> Agree(Run(start, ts))
    decreases |ts|
  {
    hide Sound, Agree, Perform, Reads, Astray;
    if ts == [] {
      EmptyAgrees(start);
    } else {
      var init, t := ts[..|ts| - 1], ts[|ts| - 1];
      EveryRun(start, init);
      BeginSound(Run(start, init), t.at);
      NextFair(Run(start, init), t, if t.step.Retained? then t.step.horizon else 0);
    }
  }

  lemma {:induction false} RiskFree(start: int, ts: seq<Transaction>)
    requires Possible(start, ts) && NeverRisky(start, ts)
    ensures NeverAstray(start, ts)
    decreases |ts|
  {
    hide Sound, Agree, Perform, Reads, Astray, Risky;
    if ts != [] {
      var init, t := ts[..|ts| - 1], ts[|ts| - 1];
      RiskFree(start, init);
      EveryRun(start, init);
      BeginSound(Run(start, init), t.at);
      SafeStep(Begin(Run(start, init), t.at), t.step);
    }
  }

  lemma SafeStep(db: Db, s: Step)
    requires Sound(db) && Agree(db) && !Risky(db, s)
    ensures !Astray(db, s)
  {
    hide Tables, Agree, Paired, GoesAstray, MayGoAstray;
    if s.Changed? {
      SafeDelta(db, s.delta, s.order, s.first);
    }
  }

  lemma SafeDelta(db: Db, d: Delta, order: RowOrder, first: Scan)
    requires Tables(db) && Agree(db) && !MayGoAstray(db, d, order)
    ensures !GoesAstray(db, d, order, first)
  {
    hide Tables, Agree, MayGoAstray, Upserts, Conclude;
    if Upserts(db, d, order).Ok? {
      DeltaAgreesInAnyOrder(db, d, order);
      DeltaAgrees(db, d, order, first);
    }
  }

  /** In particular, whatever order the rows are read in, when no delta closes an edge that has a
      parallel with an edge key. */
  lemma EveryRunUnkeyed(start: int, ts: seq<Transaction>)
    requires Possible(start, ts) && NeverRisky(start, ts)
    ensures Sound(Run(start, ts)) && Agree(Run(start, ts))
  {
    hide Sound, Agree, Run, Possible, NeverRisky, NeverAstray;
    RiskFree(start, ts);
    EveryRun(start, ts);
  }

  lemma NextFair(db: Db, t: Transaction, from: int)
    requires Sound(db) && db.now < t.at && Reads(Begin(db, t.at), t.step) && Reaches(t.step, from)
    ensures Sound(Next(db, t)) && Next(db, t).now == t.at
    ensures Agree(db) ==> (Agree(Next(db, t)) <==> !Astray(Begin(db, t.at), t.step))
    ensures Kept(Begin(db, t.at), Next(db, t), from)
    ensures ResolvedStay(db.candidates, Next(db, t).candidates)
  {
    BeginSound(db, t.at);
    hide Sound, Agree, Perform, Reads, Astray, Kept, ResolvedStay;
    EveryStep(Begin(db, t.at), t.step, from);
  }

  /** No sweep in the list reaches past the instant. */
  ghost predicate SweepsBefore(ts: seq<Transaction>, instant: int) {
    forall t :: t in ts && t.step.Retained? ==> t.step.horizon <= instant
  }

  /** Time travel: whatever happens later, an instant that had passed is remembered as it was,
      as long as no retention horizon moves past it. */
  lemma {:induction false} PastIsKept(start: int, past: seq<Transaction>, later: seq<Transaction>, instant: int)
    requires Possible(start, past + later) && instant <= Run(start, past).now && SweepsBefore(later, instant)
    ensures Possible(start, past)
    ensures Run(start, past).now <= Run(start, past + later).now
    ensures FactsAt(Run(start, past + later).cis, instant) == FactsAt(Run(start, past).cis, instant)
    ensures FactsAt(Run(start, past + later).edges, instant) == FactsAt(Run(start, past).edges, instant)
    ensures ResolvedStay(Run(start, past).candidates, Run(start, past + later).candidates)
    decreases |later|
  {
    hide Sound, Reads, FactsAt, Perform;
    if later == [] {
      assert past + later == past;
    } else {
      var init, t := later[..|later| - 1], later[|later| - 1];
      var all := past + later;
      assert all[..|all| - 1] == past + init && all[|all| - 1] == t && t in later;
      PastIsKept(start, past, init, instant);
      EveryRun(start, past + init);
      NextFair(Run(start, past + init), t, instant);
    }
  }
}
