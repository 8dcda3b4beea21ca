/** What becomes of a cross-source merge when the same batch is reconciled again
    (services/reconciliation/src/infra_twin/reconciliation/reconcile.py). */
module Rediscovery {
  import opened Model
  import opened Versions
  import opened Store
  import opened Reconciling
  import opened Rerun

  /* ---------------------------------------------------------------- when an event merged */

  /** What one event does to the open keys, the merges and the aliases. */
  lemma EventEffect(p: CiPhase, d: DiscoveredCi, source: string)
    requires Tables(p.db) && DiscoverCi(p, d, source).Ok?
    ensures var q := DiscoverCi(p, d, source).value;
            && Tables(q.db) && p.seen <= q.seen
            && (exists a: Alias :: a.source == source && q.db.aliases == RegisterAliases(p.db.aliases, d.aliasKeys, a))
            && |q.db.merges| == |p.db.merges| + (if IsMerge(p.db, d, source) then 1 else 0)
            && q.created == p.created + (if MatchCi(p.db, d, source).None? then 1 else 0)
            && (IsMerge(p.db, d, source) ==> d.key !in OpenKeys(p.db.cis) && OpenKeys(q.db.cis) == OpenKeys(p.db.cis))
            && (!IsMerge(p.db, d, source) ==>
                  && OpenKeys(q.db.cis) == OpenKeys(p.db.cis) + {d.key} && d.key in q.seen
                  && (MatchCi(p.db, d, source).None? <==> d.key !in OpenKeys(p.db.cis)))
  {
    hide Tables, OpenMap, OpenKeys, CiView, Stable, UpsertCi, RegisterAliases;
    var m := MatchCi(p.db, d, source);
    var key := if m.Some? then m.value.key else d.key;
    UpsertCiEffect(p.db, key, d.name, d.attributes);
    MatchedKey(p.db, d, source);
    KeysOfMatch(p.db, d.key);
    hide MatchCi, IsMerge;
    var (db, r) := UpsertCi(p.db, key, d.name, d.attributes).value;
    MergesStep(p, d, source);
    MatchKinds(p.db, d, source);
    BindTables(db, source, d, r.id, DiscoverCi(p, d, source).value.db);
    assert Alias(r.id, d.key.ctype, source).source == source;
  }

  lemma KeysOfMatch(db: Db, key: CiKey)
    ensures Current(db.cis, key).Some? <==> key in OpenKeys(db.cis)
  {
  }

  lemma MatchKinds(db: Db, d: DiscoveredCi, source: string)
    ensures IsMerge(db, d, source) ==> Current(db.cis, d.key).None? && MatchCi(db, d, source).Some?
    ensures !IsMerge(db, d, source) ==> MatchCi(db, d, source) == Current(db.cis, d.key)
  {
    hide ResolveCanonical;
  }

  /** The keys of the events that merged. */
  ghost function MergedKeys(db: Db, cis: seq<DiscoveredCi>, source: string): set<CiKey> {
    if cis == [] then {}
    else
      var init, d := cis[..|cis| - 1], cis[|cis| - 1];
      match DiscoverCis(db, init, source)
      case Abort => {}
      case Ok(p) => MergedKeys(db, init, source) + (if IsMerge(p.db, d, source) then {d.key} else {})
  }

  /** The source owns every alias of the events. */
  ghost predicate Claimed(aliases: map<string, Alias>, cis: seq<DiscoveredCi>, source: string) {
    forall d, k :: d in cis && k in d.aliasKeys ==> k in aliases && aliases[k].source == source
  }

  lemma ClaimedStep(aliases: map<string, Alias>, cis: seq<DiscoveredCi>, d: DiscoveredCi, a: Alias)
    ensures Claimed(aliases, cis, a.source) ==> Claimed(RegisterAliases(aliases, d.aliasKeys, a), cis, a.source)
    ensures Claimed(aliases, cis, a.source) ==> Claimed(RegisterAliases(aliases, d.aliasKeys, a), cis + [d], a.source)
  {
    RegisterIs(aliases, d.aliasKeys, a);
    hide RegisterAliases;
    assert forall x :: x in cis + [d] <==> x in cis || x == d;
  }

  /** A claimed alias leads the source to no other source's CI. */
  lemma ClaimedMatchesNothing(db: Db, cis: seq<DiscoveredCi>, d: DiscoveredCi, source: string)
    requires Claimed(db.aliases, cis, source) && d in cis
    ensures !IsMerge(db, d, source)
  {
    assert AliasCandidates(db.aliases, d, source) == {};
  }

  /** What a first run over distinct keys leaves: a merged event's own key is not open. */
  ghost predicate Merged(db: Db, cis: seq<DiscoveredCi>, source: string, p: CiPhase) {
    var merged := MergedKeys(db, cis, source);
    && merged <= KeysIn(cis) && KeysIn(cis) * OpenKeys(p.db.cis) == KeysIn(cis) - merged
    && KeysIn(cis) - merged <= p.seen && |p.db.merges| == |db.merges| + |merged|
    && Claimed(p.db.aliases, cis, source)
  }

  lemma NewKeyIsNew(cis: seq<DiscoveredCi>, d: DiscoveredCi)
    requires DistinctKeys(cis + [d])
    ensures DistinctKeys(cis) && d.key !in KeysIn(cis)
  {
    forall i, j | 0 <= i < j < |cis| ensures cis[i].key != cis[j].key {
      assert (cis + [d])[i].key != (cis + [d])[j].key;
    }
    forall x | x in cis ensures x.key != d.key {
      var i :| 0 <= i < |cis| && cis[i] == x;
      assert (cis + [d])[i] == x && (cis + [d])[|cis|] == d;
    }
  }

  lemma MergedStep(db: Db, cis: seq<DiscoveredCi>, d: DiscoveredCi, source: string, p: CiPhase)
    requires Tables(p.db) && DiscoverCis(db, cis, source) == Ok(p) && DiscoverCi(p, d, source).Ok?
    requires Merged(db, cis, source, p) && DistinctKeys(cis + [d])
    ensures Merged(db, cis + [d], source, DiscoverCi(p, d, source).value)
  {
    hide Tables, OpenKeys, DiscoverCis, IsMerge, MatchCi, DiscoverCi, RegisterAliases, MergedKeys, KeysIn, DistinctKeys, Claimed;
    var q := DiscoverCi(p, d, source).value;
    EventEffect(p, d, source);
    NewKeyIsNew(cis, d);
    KeysAppend(cis, d);
    MergedAppend(db, cis, d, source, p);
    var a: Alias :| a.source == source && q.db.aliases == RegisterAliases(p.db.aliases, d.aliasKeys, a);
    ClaimedStep(p.db.aliases, cis, d, a);
    MergedSets(KeysIn(cis), MergedKeys(db, cis, source), OpenKeys(p.db.cis), OpenKeys(q.db.cis), d.key, IsMerge(p.db, d, source));
  }

  lemma MergedAppend(db: Db, cis: seq<DiscoveredCi>, d: DiscoveredCi, source: string, p: CiPhase)
    requires DiscoverCis(db, cis, source) == Ok(p)
    ensures MergedKeys(db, cis + [d], source) == MergedKeys(db, cis, source) + (if IsMerge(p.db, d, source) then {d.key} else {})
  {
    hide IsMerge, DiscoverCis;
    assert (cis + [d])[..|cis + [d]| - 1] == cis;
  }

  lemma MergedSets(keys: set<CiKey>, merged: set<CiKey>, before: set<CiKey>, after: set<CiKey>, key: CiKey, merges: bool)
    requires key !in keys && merged <= keys && keys * before == keys - merged
    requires if merges then key !in before && after == before else after == before + {key}
    ensures var more := merged + (if merges then {key} else {});
            && more <= keys + {key} && (keys + {key}) * after == keys + {key} - more
            && |more| == |merged| + (if merges then 1 else 0)
            && (keys + {key}) - more == (keys - merged) + (if merges then {} else {key})
  {
    var more := merged + (if merges then {key} else {});
    forall x | x in keys ensures x in after <==> x !in merged { assert x in keys * before <==> x in keys - merged; }
  }

  lemma {:induction false} MergedAll(db: Db, cis: seq<DiscoveredCi>, source: string)
    requires Tables(db) && DistinctKeys(cis) && DiscoverCis(db, cis, source).Ok?
    ensures Merged(db, cis, source, DiscoverCis(db, cis, source).value)
    decreases |cis|
  {
    hide Tables, CiInv, DiscoverCi, IsMerge, OpenKeys;
    if cis != [] {
      var init, d := cis[..|cis| - 1], cis[|cis| - 1];
      assert cis == init + [d];
      NewKeyIsNew(init, d);
      hide Merged, DistinctKeys, MergedKeys;
      MergedAll(db, init, source);
      DiscoverAll(db, init, source);
      InvTables(db, DiscoverCis(db, init, source).value);
      MergedStep(db, init, d, source, DiscoverCis(db, init, source).value);
    } else {
      assert KeysIn(cis) == {};
    }
  }

  /** A later run over claimed aliases creates one CI per event whose key is not open. */
  lemma {:induction false} ClaimedRun(later: Db, cis: seq<DiscoveredCi>, all: seq<DiscoveredCi>, source: string)
    requires Tables(later) && DistinctKeys(cis) && (forall d :: d in cis ==> d in all) && Claimed(later.aliases, all, source)
    requires DiscoverCis(later, cis, source).Ok?
    ensures var p := DiscoverCis(later, cis, source).value;
            && Claimed(p.db.aliases, all, source)
            && OpenKeys(p.db.cis) == OpenKeys(later.cis) + KeysIn(cis)
            && p.created == |KeysIn(cis) - OpenKeys(later.cis)|
    decreases |cis|
  {
    hide Tables, CiInv, DiscoverCi, IsMerge, MatchCi, OpenKeys, Claimed, KeysIn, RegisterAliases, DistinctKeys;
    if cis == [] {
      assert KeysIn(cis) == {} by { NoKeysIn(); }
    } else {
      var init, d := cis[..|cis| - 1], cis[|cis| - 1];
      assert cis == init + [d] && d in cis;
      NewKeyIsNew(init, d);
      KeysAppend(init, d);
      ClaimedRun(later, init, all, source);
      DiscoverAll(later, init, source);
      var p := DiscoverCis(later, init, source).value;
      InvTables(later, p);
      EventEffect(p, d, source);
      ClaimedMatchesNothing(p.db, all, d, source);
      var a: Alias :| a.source == source && DiscoverCi(p, d, source).value.db.aliases == RegisterAliases(p.db.aliases, d.aliasKeys, a);
      ClaimedStep(p.db.aliases, all, d, a);
      OneMoreKey(KeysIn(init), d.key, OpenKeys(later.cis));
    }
  }

  lemma NoKeysIn()
    ensures KeysIn([]) == {}
  {
  }

  lemma OneMoreKey(keys: set<CiKey>, key: CiKey, present: set<CiKey>)
    requires key !in keys
    ensures |keys + {key} - present| == |keys - present| + (if key in present then 0 else 1)
  {
    if key in present {
      assert keys + {key} - present == keys - present;
    } else {
      assert keys + {key} - present == (keys - present) + {key};
    }
  }

  /** What a first run leaves to the second one. */
  lemma FirstLeaves(db: Db, b: Batch, order: RowOrder)
    requires Tables(db) && Reconcile(db, b, order).Ok? && DistinctKeys(b.cis)
    ensures var after := Reconcile(db, b, order).value.0;
            && Tables(after) && after.now == db.now && Claimed(after.aliases, b.cis, b.source)
            && |KeysIn(b.cis) - OpenKeys(after.cis)| == |after.merges| - |db.merges|
  {
    hide Tables, OpenMap, Finish, CiInv, EdgeInv, DiscoverCis, WriteEdges, CisToClose, CloseCis, Merged, OpenKeys, CiView, Stable, Ran,
         DistinctKeys, KeysIn, Claimed;
    var c, e := Phases(db, b, order);
    RanCis(db, b, order, c, e);
    FinishMerges(db, b, order, c, e);
    FinishTables(db, b, order, c, e);
    MergedAll(db, b.cis, b.source);
    StillMerged(db, b, c, Finish(c, e, b).0);
  }

  /** Registering the aliases makes the merging source their owner, so every merge is forgotten:
      a second run creates one CI for each event that merged in the first. */
  lemma MergesAreForgotten(db: Db, b: Batch, order: RowOrder, t: int)
    requires Tables(db) && Reconcile(db, b, order).Ok? && t > db.now && DistinctKeys(b.cis)
    ensures var after := Reconcile(db, b, order).value.0;
            var again := Reconcile(Begin(after, t), b, order);
            again.Ok? ==> again.value.1.cisCreated == |after.merges| - |db.merges|
  {
    hide Tables, Reconcile, OpenKeys, DistinctKeys, KeysIn, Claimed, DiscoverCis;
    FirstLeaves(db, b, order);
    var after := Reconcile(db, b, order).value.0;
    var later := Begin(after, t);
    BeginTables(after, t);
    if Reconcile(later, b, order).Ok? {
      SecondCreated(later, b, order);
      ClaimedRun(later, b.cis, b.cis, b.source);
    }
  }

  lemma RanCis(db: Db, b: Batch, order: RowOrder, c: CiPhase, e: EdgePhase)
    requires Ran(db, b, order, c, e)
    ensures DiscoverCis(db, b.cis, b.source) == Ok(c)
    ensures OpenMap(CloseCis(c.db, CisToClose(c, b)).cis) == OpenMap(c.db.cis) - CisToClose(c, b)
  {
    hide Tables, CiView, EdgeView, OpenMap, DiscoverCis, WriteEdges, Stable;
  }

  lemma FinishTables(db: Db, b: Batch, order: RowOrder, c: CiPhase, e: EdgePhase)
    requires Tables(db) && Ran(db, b, order, c, e)
    ensures Tables(Finish(c, e, b).0)
  {
    hide Tables, Agree, Ran, Finish;
    KeepsAgreement(db, b, order, c, e);
  }

  lemma StillMerged(db: Db, b: Batch, c: CiPhase, after: Db)
    requires Merged(db, b.cis, b.source, c) && after.aliases == c.db.aliases && after.merges == c.db.merges
    requires OpenMap(after.cis) == OpenMap(c.db.cis) - CisToClose(c, b)
    ensures Claimed(after.aliases, b.cis, b.source)
    ensures |KeysIn(b.cis) - OpenKeys(after.cis)| == |after.merges| - |db.merges|
  {
    SeenStayOpen(c, b);
    hide OpenMap, OpenKeys, CisToClose, KeysIn, MergedKeys, Claimed;
    var keys, merged := KeysIn(b.cis), MergedKeys(db, b.cis, b.source);
    forall x | x in keys ensures x in OpenKeys(after.cis) <==> x !in merged {
      assert x in keys * OpenKeys(c.db.cis) <==> x in keys - merged;
    }
    assert keys - OpenKeys(after.cis) == merged;
  }

  lemma SecondCreated(later: Db, b: Batch, order: RowOrder)
    requires Reconcile(later, b, order).Ok?
    ensures DiscoverCis(later, b.cis, b.source).Ok?
    ensures Reconcile(later, b, order).value.1.cisCreated == DiscoverCis(later, b.cis, b.source).value.created
  {
    hide DiscoverCis, WriteEdges, CisToClose, EdgesToClose, CloseMany, Project;
  }

  /** For distinct keys and declared edges with one provenance per resolved edge, a second run
      creates no CI, and changes nothing but last_seen, if and only if the first merged no event. */
  lemma IdempotentUnlessMerged(db: Db, b: Batch, order: RowOrder, t: int)
    requires Tables(db) && Agree(db) && Reconcile(db, b, order).Ok? && t > db.now && DistinctKeys(b.cis)
    requires var c := DiscoverCis(db, b.cis, b.source);
             c.Ok? ==> PlainEdges(CloseCis(c.value.db, CisToClose(c.value, b)), c.value.idByKey, order, b.edges)
    ensures var after := Reconcile(db, b, order).value.0;
            var later := Begin(after, t);
            var again := Reconcile(later, b, order);
            && (after.merges == db.merges <==> again.Ok? && again.value.1.cisCreated == 0)
            && (after.merges == db.merges <==>
                  again.Ok? && again.value.0 == later.(cis := again.value.0.cis) && Content(again.value.0.cis) == Content(after.cis))
  {
    hide Tables, Agree, Reconcile, DistinctKeys, DiscoverCis, PlainEdges, Content, CisToClose, CloseCis;
    var after := Reconcile(db, b, order).value.0;
    MergesAreForgotten(db, b, order, t);
    MergesKept(db, b, order);
    if after.merges == db.merges {
      DistinctIsPlain(b.cis);
      ReconcileAgain(db, b, order, t);
    } else if Reconcile(Begin(after, t), b, order).Ok? {
      BeginTables(after, t);
      NewRowsShow(Begin(after, t), b, order);
    }
  }

  lemma DistinctIsPlain(cis: seq<DiscoveredCi>)
    requires DistinctKeys(cis)
    ensures PlainCis(cis)
  {
    forall d, e | d in cis && e in cis && d.key == e.key ensures d == e {
      var i :| 0 <= i < |cis| && cis[i] == d;
      var j :| 0 <= j < |cis| && cis[j] == e;
      assert i == j;
    }
  }

  lemma MergesKept(db: Db, b: Batch, order: RowOrder)
    requires Tables(db) && Reconcile(db, b, order).Ok?
    ensures var after := Reconcile(db, b, order).value.0;
            db.merges <= after.merges && Tables(after) && after.now == db.now
  {
    hide Tables, OpenMap, Finish, CiInv, EdgeInv, DiscoverCis, WriteEdges, Ran, CisToClose, CloseCis;
    var c, e := Phases(db, b, order);
    RanCis(db, b, order, c, e);
    FinishMerges(db, b, order, c, e);
    FinishTables(db, b, order, c, e);
    MergesGrow(db, b.cis, b.source);
  }

  /** A run that creates a CI writes a row that was not there. */
  lemma NewRowsShow(later: Db, b: Batch, order: RowOrder)
    requires Tables(later) && Reconcile(later, b, order).Ok? && Reconcile(later, b, order).value.1.cisCreated > 0
    ensures Reconcile(later, b, order).value.0.nextId > later.nextId
  {
    hide Tables, OpenMap, Finish, CiInv, EdgeInv, DiscoverCis, WriteEdges, Ran, CisToClose, CloseCis, Reconcile;
    var c, e := Phases(later, b, order);
    SecondCreated(later, b, order);
    RanCis(later, b, order, c, e);
    IdsTaken(later, b.cis, b.source);
    FinishIds(later, b, order, c, e);
  }

  lemma FinishIds(db: Db, b: Batch, order: RowOrder, c: CiPhase, e: EdgePhase)
    requires Ran(db, b, order, c, e)
    ensures Finish(c, e, b).0.nextId >= c.db.nextId
  {
    hide Tables, CiView, EdgeView, OpenMap, OpenKeys, DiscoverCis, WriteEdges, Stable, Project, Shown, KeysOf, CisToClose, EdgesToClose,
         CloseMany, IdsUnder, IdsPersist, CacheOpen, OldOrFresh;
  }

  /** Every CI that is created takes a new id. */
  lemma {:induction false} IdsTaken(db: Db, cis: seq<DiscoveredCi>, source: string)
    requires DiscoverCis(db, cis, source).Ok?
    ensures var p := DiscoverCis(db, cis, source).value; p.db.nextId >= db.nextId + p.created
    decreases |cis|
  {
    hide MatchCi, IsMerge, UpsertCi, RegisterAliases;
    if cis != [] {
      var init, d := cis[..|cis| - 1], cis[|cis| - 1];
      IdsTaken(db, init, source);
      var p := DiscoverCis(db, init, source).value;
      var m := MatchCi(p.db, d, source);
      NewIdForNew(p.db, d, source);
      UpsertIds(p.db, if m.Some? then m.value.key else d.key, d.name, d.attributes);
    }
  }

  lemma NewIdForNew(db: Db, d: DiscoveredCi, source: string)
    ensures MatchCi(db, d, source).None? ==> Current(db.cis, d.key).None?
  {
    hide ResolveCanonical;
  }

  lemma UpsertIds(db: Db, key: CiKey, name: Option<string>, attributes: map<string, string>)
    requires UpsertCi(db, key, name, attributes).Ok?
    ensures UpsertCi(db, key, name, attributes).value.0.nextId
         == db.nextId + (if Current(db.cis, key).None? then 1 else 0)
  {
  }

  /* ---------------------------------------------------------------- such a batch */

  const INSTANCE := CiKey("ec2_instance", "i-1")
  const ARN := "arn:i-1"

  function InstanceRow(): CiRow { Version(0, INSTANCE, CiData(None, map[], 1.0, 0), 0, 0, None) }

  /** One CI, with an alias that another source registered. */
  function Inventory(): Db {
    Db(1, 1, {InstanceRow()}, {}, map[SourceKey("aws", "i-1") := 0], map[ARN := Alias(0, "ec2_instance", "aws")], [], {}, map[],
       Graph(map[0 := Vertex("ec2_instance", "i-1", None)], map[]))
  }

  /** The same machine as a second source names it. */
  function Node(): DiscoveredCi { DiscoveredCi(CiKey("ec2_instance", "node-1"), None, map[], [ARN]) }

  function NodeBatch(): Batch { Batch("k8s", [Node()], [], {}, {}) }

  lemma InventoryIs()
    ensures var db := Inventory();
            && db.now == 1 && db.nextId == 1 && db.cis == {InstanceRow()} && db.edges == {} && db.merges == []
            && db.aliases == map[ARN := Alias(0, "ec2_instance", "aws")]
            && VertexView(db.graph) == map[0 := INSTANCE] && db.graph.edges == map[]
    ensures InstanceRow().Open() && InstanceRow().id == 0 && InstanceRow().validFrom == 0 && InstanceRow().key == INSTANCE
  {
  }

  lemma InventoryAgrees()
    ensures Tables(Inventory()) && Agree(Inventory()) && Coherent(Inventory().cis, 1)
  {
    InventoryIs();
    hide Inventory, InstanceRow, Coherent, VertexView;
    var db := Inventory();
    FirstVersionsCoherent(db.cis, 1);
    FirstVersionsCoherent(db.edges, 1);
    CiViewIs(db.cis, 1, 0, InstanceRow());
    assert EdgeView(db.edges) == map[];
    hide EdgeView, CiView;
    assert OpenIds(db.cis) == {0};
    assert CiView(db.cis) == map[0 := INSTANCE];
    assert Live(map[], {0}) == map[];
  }

  lemma NodeCandidates()
    ensures AliasCandidates(Inventory().aliases, Node(), "k8s") == {0}
  {
    InventoryIs();
    hide Inventory;
    var ids := AliasCandidates(Inventory().aliases, Node(), "k8s");
    assert ARN in Node().aliasKeys;
    assert Inventory().aliases[ARN].ciId in ids;
  }

  lemma NodeResolves()
    ensures IsMerge(Inventory(), Node(), "k8s") && ResolveCanonical(Inventory(), Node(), "k8s") == Some(InstanceRow())
  {
    InventoryAgrees();
    InventoryIs();
    NodeCandidates();
    hide Inventory, Agree, Tables, Coherent, InstanceRow, AliasCandidates;
    OpenRow(Inventory().cis, 1, InstanceRow());
    assert |{0}| == 1;
  }

  lemma NodeMerges()
    ensures var p := CiPhase(Inventory(), map[], {}, [], 0, 0, 0);
            DiscoverCi(p, Node(), "k8s").Ok? && |DiscoverCi(p, Node(), "k8s").value.db.merges| == 1
  {
    var db := Inventory();
    var p := CiPhase(db, map[], {}, [], 0, 0, 0);
    InventoryAgrees();
    NodeResolves();
    OpenRow(db.cis, 1, InstanceRow());
    hide Agree, Tables, Coherent, ResolveCanonical, AliasCandidates;
    assert MatchCi(db, Node(), "k8s") == Some(InstanceRow());
    assert UpsertCi(db, INSTANCE, None, map[]).Ok?;
    MergesStep(p, Node(), "k8s");
  }

  lemma RunsOneEvent(db: Db, order: RowOrder)
    requires DiscoverCi(CiPhase(db, map[], {}, [], 0, 0, 0), Node(), "k8s").Ok?
    ensures Reconcile(db, NodeBatch(), order).Ok?
    ensures DiscoverCis(db, NodeBatch().cis, "k8s") == DiscoverCi(CiPhase(db, map[], {}, [], 0, 0, 0), Node(), "k8s")
  {
    hide DiscoverCi, CisToClose, CloseCis, Finish;
    assert [Node()][..0] == [];
    assert DiscoverCis(db, [], "k8s") == Ok(CiPhase(db, map[], {}, [], 0, 0, 0));
  }

  /** Reconciling the node twice: the first run merges it into the instance, the second one
      inserts it as a CI of its own. */
  lemma NodeComesBack(order: RowOrder, t: int)
    requires t > 1
    ensures var first := Reconcile(Inventory(), NodeBatch(), order);
            && Tables(Inventory()) && Agree(Inventory()) && first.Ok? && first.value.1.cisCreated == 0
            && var again := Reconcile(Begin(first.value.0, t), NodeBatch(), order);
               again.Ok? && again.value.1.cisCreated == 1
  {
    hide Tables, Agree, DiscoverCi, Reconcile, OpenKeys, Claimed, Inventory;
    var db, b := Inventory(), NodeBatch();
    var start := CiPhase(db, map[], {}, [], 0, 0, 0);
    InventoryIs();
    InventoryAgrees();
    NodeMerges();
    NodeResolves();
    RunsOneEvent(db, order);
    SecondCreated(db, b, order);
    EventEffect(start, Node(), "k8s");
    NodeMatches();
    FirstLeaves(db, b, order);
    var after := Reconcile(db, b, order).value.0;
    NodeMergeCount(order);
    var later := Begin(after, t);
    BeginTables(after, t);
    NodeInserts(later);
    RunsOneEvent(later, order);
    MergesAreForgotten(db, b, order, t);
  }

  lemma NodeMatches()
    ensures MatchCi(Inventory(), Node(), "k8s").Some?
  {
    NodeResolves();
    hide Inventory, ResolveCanonical;
  }

  lemma NodeMergeCount(order: RowOrder)
    requires Reconcile(Inventory(), NodeBatch(), order).Ok?
    ensures |Reconcile(Inventory(), NodeBatch(), order).value.0.merges| == 1
  {
    hide Tables, Agree, DiscoverCi, Reconcile, Inventory, Finish, Ran;
    InventoryAgrees();
    NodeMerges();
    RunsOneEvent(Inventory(), order);
    var c, e := Phases(Inventory(), NodeBatch(), order);
    RanCis(Inventory(), NodeBatch(), order, c, e);
    FinishMerges(Inventory(), NodeBatch(), order, c, e);
  }

  lemma NodeInserts(later: Db)
    requires Claimed(later.aliases, NodeBatch().cis, "k8s") && |KeysIn(NodeBatch().cis) - OpenKeys(later.cis)| == 1
    ensures DiscoverCi(CiPhase(later, map[], {}, [], 0, 0, 0), Node(), "k8s").Ok?
  {
    assert Node() in NodeBatch().cis;
    assert KeysIn(NodeBatch().cis) == {Node().key};
    ClaimedMatchesNothing(later, NodeBatch().cis, Node(), "k8s");
    KeysOfMatch(later, Node().key);
    OwnMatch(later, Node(), "k8s");
    hide MatchCi, IsMerge, Claimed, RegisterAliases;
    assert Node().key in OpenKeys(later.cis) ==> KeysIn(NodeBatch().cis) - OpenKeys(later.cis) == {};
  }
}
