/** A pair of CIs whose merge can be reversed, and an edge that the reversal gives to the wrong one
    (services/reconciliation/src/infra_twin/reconciliation/unmerge.py). */
module Misattributed {
  import opened Model
  import opened Observations
  import opened Versions
  import opened Store
  import opened Merging
  import opened RoundTrip

  function InstanceRow(): CiRow { Version(0, CiKey("ec2_instance", "i-1"), CiData(None, map[], 1.0, 0), 0, 0, None) }

  function NodeRow(): CiRow { Version(1, CiKey("ec2_instance", "node-1"), CiData(None, map[], 1.0, 0), 0, 0, None) }

  function StoreRow(): CiRow { Version(2, CiKey("rds", "db-1"), CiData(None, map[], 1.0, 0), 0, 0, None) }

  /** The instance's own edge, which the node's source reported. */
  function LinkRow(): EdgeRow {
    Version(3, EdgeKey(CONNECTS_TO, 0, 2, ""), EdgeData(Declared, 1.0, [Evidence("k8s", 0, None)]), 0, 0, None)
  }

  /** An instance and a node that may be one machine, and a database the instance connects to. */
  function Suspected(): Db {
    Db(1, 5, {InstanceRow(), NodeRow(), StoreRow()}, {LinkRow()},
       map[SourceKey("aws", "i-1") := 0, SourceKey("k8s", "node-1") := 1], map[], [], {}, map[4 := Candidate(0, 1, Pending)],
       Graph(map[0 := Vertex("ec2_instance", "i-1", None), 1 := Vertex("ec2_instance", "node-1", None), 2 := Vertex("rds", "db-1", None)],
             map[LinkRow().key := Seen(LinkRow())]))
  }

  lemma ThreeRows()
    ensures InstanceRow().id == 0 && NodeRow().id == 1 && StoreRow().id == 2
    ensures forall r :: r in {InstanceRow(), NodeRow(), StoreRow()} ==> r.Open() && r.validFrom == 0
    ensures InstanceRow().key != NodeRow().key && StoreRow().key.ctype == "rds" && |InstanceRow().key.ctype| == |NodeRow().key.ctype| == 12
  {
  }

  lemma SuspectedIs()
    ensures var db := Suspected();
            && db.now == 1 && db.nextId == 5 && db.cis == {InstanceRow(), NodeRow(), StoreRow()} && db.edges == {LinkRow()}
            && db.merges == [] && db.unmerged == {} && db.aliases == map[] && db.candidates == map[4 := Candidate(0, 1, Pending)]
            && db.sourceKeys == map[SourceKey("aws", "i-1") := 0, SourceKey("k8s", "node-1") := 1]
    ensures LinkRow().Open() && LinkRow().id == 3 && LinkRow().validFrom == 0 && LinkRow().data.source == Declared
    ensures LinkRow().key.fromId == 0 && LinkRow().key.toId == 2
  {
  }

  lemma SuspectedCis()
    ensures Coherent(Suspected().cis, 1)
    ensures CiView(Suspected().cis) == map[0 := InstanceRow().key, 1 := NodeRow().key, 2 := StoreRow().key]
  {
    SuspectedIs();
    ThreeRows();
    hide Coherent, Suspected, InstanceRow, NodeRow, StoreRow;
    var cis := Suspected().cis;
    FirstVersionsCoherent(cis, 1);
    CiViewIs(cis, 1, 0, InstanceRow());
    CiViewIs(cis, 1, 1, NodeRow());
    CiViewIs(cis, 1, 2, StoreRow());
    hide CiView;
    assert OpenIds(cis) == {0, 1, 2};
  }

  lemma SuspectedLinks()
    ensures Coherent(Suspected().edges, 1) && OpenMap(Suspected().edges) == map[LinkRow().key := LinkRow()]
  {
    SuspectedIs();
    hide Coherent, Suspected, LinkRow;
    var edges := Suspected().edges;
    FirstVersionsCoherent(edges, 1);
    OpenRow(edges, 1, LinkRow());
    assert OpenKeys(edges) == {LinkRow().key};
  }

  lemma SuspectedViews()
    ensures Tables(Suspected()) && CiView(Suspected().cis) == map[0 := InstanceRow().key, 1 := NodeRow().key, 2 := StoreRow().key]
    ensures OpenMap(Suspected().edges) == map[LinkRow().key := LinkRow()]
  {
    SuspectedIs();
    ThreeRows();
    SuspectedCis();
    SuspectedLinks();
    hide Coherent, CiView, OpenMap, Suspected, LinkRow, InstanceRow, NodeRow, StoreRow;
  }

  lemma SuspectedVertices()
    ensures VertexView(Suspected().graph) == map[0 := InstanceRow().key, 1 := NodeRow().key, 2 := StoreRow().key]
    ensures Suspected().graph.edges == map[LinkRow().key := Seen(LinkRow())]
  {
  }

  lemma SuspectedAgrees()
    ensures Agree(Suspected())
  {
    SuspectedVertices();
    SuspectedViews();
    SuspectedIs();
    var db := Suspected();
    hide CiView, OpenMap, Tables, Suspected, InstanceRow, NodeRow, StoreRow, LinkRow, VertexView;
    assert EdgeView(db.edges) == map[LinkRow().key := Seen(LinkRow())];
    assert CiView(db.cis).Keys == {0, 1, 2};
    hide EdgeView;
    assert Live(EdgeView(db.edges), {0, 1, 2}) == EdgeView(db.edges);
  }

  lemma SuspectedPair()
    ensures CurrentById(Suspected().cis, 0) == Some(InstanceRow()) && CurrentById(Suspected().cis, 1) == Some(NodeRow())
  {
    SuspectedIs();
    ThreeRows();
    SuspectedCis();
    hide Coherent, CiView, Suspected, InstanceRow, NodeRow, StoreRow;
    OpenRow(Suspected().cis, 1, InstanceRow());
    OpenRow(Suspected().cis, 1, NodeRow());
  }

  lemma NodeKeys()
    ensures KeysBoundTo(Suspected().sourceKeys, 1) == {SourceKey("k8s", "node-1")}
  {
    SuspectedIs();
    hide Suspected;
  }

  lemma SuspectedPlan()
    ensures PlanMerge(Suspected(), 4) == Done(Plan(InstanceRow(), NodeRow(), SourceKey("k8s", "node-1"), false))
  {
    SuspectedPair();
    SuspectedIs();
    NodeKeys();
    assert FirstIsCanonical(InstanceRow(), NodeRow());
    hide CurrentById, KeysBoundTo, FirstIsCanonical, Suspected;
  }

  lemma NothingToMerge()
    ensures EdgesApart(Suspected(), 1, 0) && Lists(Suspected().edges, EdgesToMerge(Suspected().edges, 1, 0), [])
  {
    SuspectedLinks();
    SuspectedIs();
    hide Suspected, LinkRow, OpenMap, EdgesApart, EdgesToMerge, Lists;
    NothingTouches(Suspected(), 1, 0);
  }

  lemma NothingTouches(db: Db, merged: nat, canonical: nat)
    requires forall k :: k in OpenMap(db.edges) ==> !Touches(k, merged)
    ensures EdgesApart(db, merged, canonical) && Lists(db.edges, EdgesToMerge(db.edges, merged, canonical), [])
  {
    hide OpenMap;
    assert EdgesToMerge(db.edges, merged, canonical) == {};
  }

  lemma SuspectedIsReversible()
    ensures Reversible(Suspected(), 4) && Distinct(Suspected(), 4) && Recorded(Suspected()) && ListsMerge(Suspected(), 4, [])
  {
    SuspectedPlan();
    SuspectedIs();
    NodeKeys();
    NothingToMerge();
    hide Suspected, PlanMerge, EdgesApart, Lists, KeysBoundTo;
  }

  /** Accepting the pair and reversing the merge again: the link of the instance now starts at
      the restored node. */
  lemma LinkIsTakenAlong(t: int)
    requires t >= 1
    ensures var db := Suspected();
            && Tables(db) && Agree(db) && Reversible(db, 4) && LinkRow().key in DataView(db.edges)
            && AcceptCandidate(db, 4, []).Done?
            && var later := Begin(AcceptCandidate(db, 4, []).value, t);
               && ListsRestore(later, 0, [LinkRow()]) && Unmerge(later, 0, [LinkRow()]).Done?
               && var after := Unmerge(later, 0, [LinkRow()]).value;
                  forall r :: DeclaredKeys(DataView(after.edges)) != Renamed(DeclaredKeys(DataView(db.edges)), 1, r)
  {
    hide Tables, Agree, AcceptCandidate, Unmerge, Suspected, Reversible, CiView, OpenMap, Renamed, DeclaredKeys, ListsRestore, Lists, EdgesToRestore,
         PlanMerge, DataView;
    var db := Suspected();
    SuspectedViews();
    SuspectedAgrees();
    SuspectedPlan();
    SuspectedIsReversible();
    SuspectedIs();
    AcceptNothing(db, 4, PlanMerge(db, 4).value);
    LinkToRestore();
    var later := Begin(AcceptCandidate(db, 4, []).value, t);
    assert later.merges == [Merge(0, "k8s", "node-1")];
    Restorable(later, Merge(0, "k8s", "node-1"), [LinkRow()]);
    var p, restored, n1, n2 := AcceptThenUnmerge(db, 4, [], t, [LinkRow()]);
    LinkMisleads(p, n1);
    forall r ensures Renamed(DeclaredKeys(DataView(db.edges)), 1, r) == DeclaredKeys(DataView(db.edges)) {
      LinkKeepsKey(r);
    }
  }

  lemma AcceptNothing(db: Db, id: nat, p: Plan)
    requires PlanMerge(db, id) == Done(p)
    ensures AcceptCandidate(db, id, []).Done?
    ensures var after := AcceptCandidate(db, id, []).value;
            after.edges == db.edges && after.merges == db.merges + [Merge(p.canonical.id, p.key.source, p.key.nativeId)]
  {
    hide PlanMerge, Project, CloseMany;
  }

  lemma Restorable(later: Db, m: Merge, rows: seq<EdgeRow>)
    requires later.merges == [m] && Lists(later.edges, EdgesToRestore(later.edges, m.canonical, m), rows)
    ensures ListsRestore(later, 0, rows)
  {
    hide PlanUnmerge, Lists, EdgesToRestore;
  }

  lemma LinkToRestore()
    ensures Lists(Suspected().edges, EdgesToRestore(Suspected().edges, 0, Merge(0, "k8s", "node-1")), [LinkRow()])
  {
    SuspectedLinks();
    SuspectedIs();
    LinkMentions();
    hide Suspected, LinkRow, OpenMap, Provenance;
    assert EdgesToRestore(Suspected().edges, 0, Merge(0, "k8s", "node-1")) == {LinkRow().key};
    assert KeySet([LinkRow()]) == {LinkRow().key};
  }

  lemma LinkMentions()
    ensures Provenance(LinkRow().data.evidence, "k8s", "node-1")
  {
    assert Mentions(LinkRow().data.evidence[0], "k8s", "node-1");
  }

  lemma LinkMisleads(p: Plan, n1: Evidence)
    requires p.canonical.id == 0 && p.key == SourceKey("k8s", "node-1")
    ensures LinkRow().key in DataView(Suspected().edges) && !ProvenanceSplits(DataView(Suspected().edges), p, n1)
  {
    SuspectedLinks();
    SuspectedIs();
    LinkMentions();
    hide Suspected, LinkRow, OpenMap, Provenance;
  }

  lemma LinkKeepsKey(r: nat)
    ensures Renamed(DeclaredKeys(DataView(Suspected().edges)), 1, r) == DeclaredKeys(DataView(Suspected().edges))
  {
    SuspectedLinks();
    SuspectedIs();
    hide Suspected, LinkRow, OpenMap;
    assert DeclaredKeys(DataView(Suspected().edges)) == {LinkRow().key};
    assert MovedKey(LinkRow().key, 1, r) == LinkRow().key;
  }
}
