/** What-if impact estimation (services/query/src/infra_twin/query/whatif.py): the blast-radius
    search with predecessors, an evidence path and a confidence for every impacted CI. */
module WhatIf {
  import opened Model
  import opened Reals
  import opened Reach
  import opened Traversal
  import opened Queries

  datatype EdgeName = EdgeName(etype: EdgeType, fromId: nat, toId: nat)

  datatype Provenance = Provenance(source: EdgeSource, confidence: real)

  /** The open rows of the edges table by (type, from, to); of parallel edges the last row read. */
  type ProvenanceMap = map<EdgeName, Provenance>

  ghost predicate Bounded(prov: ProvenanceMap) {
    forall n :: n in prov ==> 0.0 <= prov[n].confidence <= 1.0
  }

  datatype EvidenceHop = EvidenceHop(hop: PathHop, provenance: Provenance)

  datatype ImpactedCi = ImpactedCi(distance: nat, confidence: real, evidence: seq<EvidenceHop>)

  datatype WhatIfResult =
    | UnknownChangeKind
    | Estimate(impacted: map<nat, ImpactedCi>, truncated: seq<Supernode>)

  const MODIFY_CONFIDENCE_FACTOR := 0.5

  /** The lookup uses the direction of the walk, whatever the direction of the edge. */
  function HopProvenance(prov: ProvenanceMap, h: PathHop): Provenance {
    var n := EdgeName(h.etype, h.fromId, h.toId);
    if n in prov then prov[n] else Provenance(Declared, 1.0)
  }

  function PathConfidence(prov: ProvenanceMap, hops: seq<PathHop>): real {
    if hops == [] then 1.0
    else Times(PathConfidence(prov, hops[..|hops| - 1]), HopProvenance(prov, hops[|hops| - 1]).confidence)
  }

  function Derived(changeKind: string, pathConfidence: real): real {
    if changeKind == "modify" then pathConfidence * MODIFY_CONFIDENCE_FACTOR else pathConfidence
  }

  /** The path from the target of the change to a node it impacts. */
  ghost function ImpactPath(q: Query, source: nat, visited: map<nat, nat>, predecessor: map<nat, Hop>, node: nat)
    : (hops: seq<PathHop>)
    requires Traced(q, source, visited, predecessor) && node in visited
    ensures |hops| == visited[node]
    decreases visited[node]
  {
    if node !in predecessor then []
    else
      var p := predecessor[node];
      assert FollowedHop(q, visited, node, p);
      ImpactPath(q, source, visited, predecessor, p.id) + [PathHop(p.etype, p.id, node)]
  }

  lemma ParentPath(q: Query, source: nat, visited: map<nat, nat>, predecessor: map<nat, Hop>, node: nat)
    requires Traced(q, source, visited, predecessor) && node in predecessor
    ensures var p := predecessor[node];
            && p.id in visited && visited[p.id] + 1 == visited[node]
            && ImpactPath(q, source, visited, predecessor, node)
               == ImpactPath(q, source, visited, predecessor, p.id) + [PathHop(p.etype, p.id, node)]
  {
    assert FollowedHop(q, visited, node, predecessor[node]);
  }

  lemma {:induction false} ConfidenceBounded(prov: ProvenanceMap, hops: seq<PathHop>)
    requires Bounded(prov)
    ensures 0.0 <= PathConfidence(prov, hops) <= 1.0
    decreases |hops|
  {
    hide HopProvenance, Times;
    if hops != [] {
      assert hops == hops[..|hops| - 1] + [hops[|hops| - 1]];
      PathAppend(prov, hops[..|hops| - 1], hops[|hops| - 1]);
      HopBounded(prov, hops[|hops| - 1]);
      ConfidenceBounded(prov, hops[..|hops| - 1]);
      Shrinks(PathConfidence(prov, hops[..|hops| - 1]), HopProvenance(prov, hops[|hops| - 1]).confidence);
    }
  }

  /** Along the search tree confidence never grows. */
  lemma ConfidenceNeverGrows(q: Query, prov: ProvenanceMap, source: nat, visited: map<nat, nat>,
                             predecessor: map<nat, Hop>, node: nat)
    requires Bounded(prov) && Traced(q, source, visited, predecessor) && node in predecessor
    ensures predecessor[node].id in visited
    ensures PathConfidence(prov, ImpactPath(q, source, visited, predecessor, node))
            <= PathConfidence(prov, ImpactPath(q, source, visited, predecessor, predecessor[node].id))
  {
    hide ImpactPath, FollowedHop, PathConfidence;
    var p := predecessor[node];
    ParentPath(q, source, visited, predecessor, node);
    LongerPath(prov, ImpactPath(q, source, visited, predecessor, p.id), PathHop(p.etype, p.id, node));
  }

  lemma PathAppend(prov: ProvenanceMap, parent: seq<PathHop>, h: PathHop)
    ensures PathConfidence(prov, parent + [h]) == Times(PathConfidence(prov, parent), HopProvenance(prov, h).confidence)
  {
    hide HopProvenance, Times;
    assert (parent + [h])[..|parent + [h]| - 1] == parent;
  }

  lemma HopBounded(prov: ProvenanceMap, h: PathHop)
    requires Bounded(prov)
    ensures 0.0 <= HopProvenance(prov, h).confidence <= 1.0
  {
  }

  lemma LongerPath(prov: ProvenanceMap, parent: seq<PathHop>, h: PathHop)
    requires Bounded(prov)
    ensures PathConfidence(prov, parent + [h]) <= PathConfidence(prov, parent)
  {
    hide PathConfidence, HopProvenance, Times;
    PathAppend(prov, parent, h);
    HopBounded(prov, h);
    ConfidenceBounded(prov, parent);
    Shrinks(PathConfidence(prov, parent), HopProvenance(prov, h).confidence);
  }

  /** What the reported entry of an impacted CI says, given the search tree it was read from. */
  ghost predicate EntryFor(q: Query, prov: ProvenanceMap, source: nat, changeKind: string, visited: map<nat, nat>,
                           predecessor: map<nat, Hop>, node: nat, e: ImpactedCi)
    requires Traced(q, source, visited, predecessor) && node in visited
  {
    var path := ImpactPath(q, source, visited, predecessor, node);
    && e.distance == visited[node] == |e.evidence|
    && e.confidence == Derived(changeKind, PathConfidence(prov, path))
    && forall i :: 0 <= i < |path| ==> e.evidence[i] == EvidenceHop(path[i], HopProvenance(prov, path[i]))
  }

  function Backwards<T>(s: seq<T>): seq<T> {
    if s == [] then [] else [s[|s| - 1]] + Backwards(s[..|s| - 1])
  }

  lemma BackwardsAppend<T>(s: seq<T>, x: T)
    ensures Backwards(s + [x]) == [x] + Backwards(s)
  {
    assert (s + [x])[..|s + [x]| - 1] == s;
  }

  /** The backward walk over the predecessor map, then the reversal. */
  method PathTo(q: Query, source: nat, visited: map<nat, nat>, predecessor: map<nat, Hop>, node: nat)
    returns (hops: seq<PathHop>)
    requires Traced(q, source, visited, predecessor) && node in visited
    ensures hops == ImpactPath(q, source, visited, predecessor, node)
  {
    hide Traced, FollowedHop;
    var reversed: seq<PathHop> := [];
    var cur := node;
    while cur in predecessor
      invariant cur in visited
      invariant ImpactPath(q, source, visited, predecessor, cur) + Backwards(reversed)
                == ImpactPath(q, source, visited, predecessor, node)
      decreases visited[cur]
    {
      ParentPath(q, source, visited, predecessor, cur);
      var p := predecessor[cur];
      BackwardsAppend(reversed, PathHop(p.etype, p.id, cur));
      reversed := reversed + [PathHop(p.etype, p.id, cur)];
      cur := p.id;
    }
    hops := Backwards(reversed);
  }

  lemma NoHops(prov: ProvenanceMap, hops: seq<PathHop>)
    ensures PathConfidence(prov, hops[..0]) == 1.0
  {
  }

  method Assemble(prov: ProvenanceMap, hops: seq<PathHop>) returns (evidence: seq<EvidenceHop>, confidence: real)
    ensures |evidence| == |hops| && confidence == PathConfidence(prov, hops)
    ensures forall i :: 0 <= i < |hops| ==> evidence[i] == EvidenceHop(hops[i], HopProvenance(prov, hops[i]))
  {
    hide HopProvenance, PathConfidence;
    evidence, confidence := [], 1.0;
    NoHops(prov, hops);
    for i := 0 to |hops|
      invariant |evidence| == i && confidence == PathConfidence(prov, hops[..i])
      invariant forall j :: 0 <= j < i ==> evidence[j] == EvidenceHop(hops[j], HopProvenance(prov, hops[j]))
    {
      var p := HopProvenance(prov, hops[i]);
      PathAppend(prov, hops[..i], hops[i]);
      assert hops[..i + 1] == hops[..i] + [hops[i]];
      confidence := confidence * p.confidence;
      evidence := evidence + [EvidenceHop(hops[i], p)];
    }
    assert hops[..|hops|] == hops;
  }

  lemma EntryBuilt(q: Query, prov: ProvenanceMap, source: nat, changeKind: string, visited: map<nat, nat>,
                   predecessor: map<nat, Hop>, node: nat, confidence: real, evidence: seq<EvidenceHop>)
    requires Bounded(prov) && Traced(q, source, visited, predecessor) && node in visited
    requires var path := ImpactPath(q, source, visited, predecessor, node);
             && |evidence| == |path| && confidence == PathConfidence(prov, path)
             && forall i :: 0 <= i < |path| ==> evidence[i] == EvidenceHop(path[i], HopProvenance(prov, path[i]))
    ensures EntryFor(q, prov, source, changeKind, visited, predecessor, node,
                     ImpactedCi(visited[node], Derived(changeKind, confidence), evidence))
    ensures 0.0 <= Derived(changeKind, confidence) <= 1.0
  {
    hide PathConfidence, HopProvenance, Traced;
    ConfidenceBounded(prov, ImpactPath(q, source, visited, predecessor, node));
  }

  /** What a call reports: the same ids and distances as the blast radius, the same supernodes, and
      for every id the path of the search tree with its confidence. */
  ghost predicate Reports(q: Query, prov: ProvenanceMap, present: set<nat>, source: nat, changeKind: string, maxDepth: nat,
                          r: WhatIfResult)
  {
    if changeKind != "remove" && changeKind != "modify" then r == UnknownChangeKind
    else
      var found, distances, tree := FoundCis(q, present, source, maxDepth), Distances(ArcsOf(q), source, maxDepth), TreeOf(q, source, maxDepth);
      && r.Estimate? && r.impacted.Keys == found.Keys && Traced(q, source, distances, tree)
      && (forall x :: x in r.impacted ==>
            && x in distances && r.impacted[x].distance == found[x]
            && EntryFor(q, prov, source, changeKind, distances, tree, x, r.impacted[x]))
      && Elements(r.truncated) == AllTruncated(q, source, maxDepth) && Distinct(r.truncated)
  }

  method WhatIfImpact(links: seq<Link>, prov: ProvenanceMap, present: set<nat>, ci: nat, changeKind: string,
                      maxDepth: nat, minConfidence: real, maxFanout: nat)
    returns (r: WhatIfResult)
    requires Bounded(prov)
    ensures Reports(ImpactQuery(links, minConfidence, maxFanout), prov, present, ci, changeKind, maxDepth, r)
    ensures r.Estimate? ==> forall x :: x in r.impacted ==> 0.0 <= r.impacted[x].confidence <= 1.0
  {
    hide AllTruncated, ArcsOf, Distances, Neighbors, FollowedHop, ImpactPath, EntryFor, Derived, PathConfidence, TreeOf, Traced, ImpactQuery,
         Bounded;
    if changeKind != "remove" && changeKind != "modify" {
      return UnknownChangeKind;
    }
    var q := ImpactQuery(links, minConfidence, maxFanout);
    var dist, pred, discovered, supernodes := TracedSearch(q, ci, maxDepth);
    var impacted: map<nat, ImpactedCi> := map[];
    for i := 0 to |discovered|
      invariant impacted.Keys == set x | x in discovered[..i] && x in present
      invariant forall x :: x in impacted ==>
        && x in dist && EntryFor(q, prov, ci, changeKind, dist, pred, x, impacted[x])
        && impacted[x].distance == dist[x] && 0.0 <= impacted[x].confidence <= 1.0
    {
      var node := discovered[i];
      assert discovered[..i + 1] == discovered[..i] + [node];
      assert node in Elements(discovered) && node in dist;
      if node in present {
        var hops := PathTo(q, ci, dist, pred, node);
        var evidence, confidence := Assemble(prov, hops);
        EntryBuilt(q, prov, ci, changeKind, dist, pred, node, confidence, evidence);
        impacted := impacted[node := ImpactedCi(dist[node], Derived(changeKind, confidence), evidence)];
      }
    }
    assert discovered[..|discovered|] == discovered;
    assert forall x :: x in discovered <==> x in Elements(discovered);
    r := Estimate(impacted, supernodes);
  }

  /** Two calls that differ in the kind of change report the same CIs, distances, paths and
      supernodes, and a modification has exactly half the confidence of a removal. */
  lemma ModifyHalvesRemove(q: Query, prov: ProvenanceMap, present: set<nat>, source: nat, maxDepth: nat, m: WhatIfResult, r: WhatIfResult)
    requires Reports(q, prov, present, source, "modify", maxDepth, m) && Reports(q, prov, present, source, "remove", maxDepth, r)
    ensures m.Estimate? && r.Estimate? && m.impacted.Keys == r.impacted.Keys && Elements(m.truncated) == Elements(r.truncated)
    ensures forall x :: x in m.impacted ==>
              && m.impacted[x].distance == r.impacted[x].distance && m.impacted[x].evidence == r.impacted[x].evidence
              && 2.0 * m.impacted[x].confidence == r.impacted[x].confidence
  {
    hide AllTruncated, ArcsOf, Distances, ImpactPath, PathConfidence, TreeOf, Traced, EntryFor, HopProvenance;
    var distances, tree := Distances(ArcsOf(q), source, maxDepth), TreeOf(q, source, maxDepth);
    forall x | x in m.impacted
      ensures m.impacted[x].distance == r.impacted[x].distance && m.impacted[x].evidence == r.impacted[x].evidence
      ensures 2.0 * m.impacted[x].confidence == r.impacted[x].confidence
    {
      EntryHalves(q, prov, source, distances, tree, x, m.impacted[x], r.impacted[x]);
    }
  }

  lemma EntryHalves(q: Query, prov: ProvenanceMap, source: nat, visited: map<nat, nat>, predecessor: map<nat, Hop>, node: nat,
                    m: ImpactedCi, r: ImpactedCi)
    requires Traced(q, source, visited, predecessor) && node in visited
    requires EntryFor(q, prov, source, "modify", visited, predecessor, node, m)
    requires EntryFor(q, prov, source, "remove", visited, predecessor, node, r)
    ensures 2.0 * m.confidence == r.confidence && m.distance == r.distance && m.evidence == r.evidence
  {
    hide PathConfidence, HopProvenance, Traced;
    var path := ImpactPath(q, source, visited, predecessor, node);
    assert forall i :: 0 <= i < |path| ==> m.evidence[i] == r.evidence[i];
    assert m.evidence == r.evidence;
  }

  /* ---------------------------------------------------------------- the direction of the lookup */

  /** A hop that goes against its edge: the edge runs from the impacted end. */
  lemma InwardHop(links: seq<Link>, c: real, maxFanout: nat, p: nat, h: Hop)
    requires h in Expand(ImpactQuery(links, c, maxFanout), p) && h.etype != CONTAINS
    ensures exists l :: l in links && l.etype == h.etype && l.fromId == h.id && l.toId == p && l.confidence >= c
  {
    var q := ImpactQuery(links, c, maxFanout);
    assert h in FirstById(Neighbors(q, p));
    assert h in Rows(links, p, true, OUTGOING_IMPACT, c) || h in Rows(links, p, false, INCOMING_IMPACT, c);
    var l :| l in links && ((Matches(l, p, true, OUTGOING_IMPACT, c) && Far(l, true) == h)
                            || (Matches(l, p, false, INCOMING_IMPACT, c) && Far(l, false) == h));
  }

  /** The confidence of the edge a hop really goes over. */
  function EdgeProvenance(prov: ProvenanceMap, h: PathHop): Provenance {
    HopProvenance(prov, if h.etype == CONTAINS then h else PathHop(h.etype, h.toId, h.fromId))
  }

  function EdgeConfidence(prov: ProvenanceMap, hops: seq<PathHop>): real {
    if hops == [] then 1.0
    else Times(EdgeConfidence(prov, hops[..|hops| - 1]), EdgeProvenance(prov, hops[|hops| - 1]).confidence)
  }

  /** The inward part of a path counts as certain: where no open edge runs the other way too,
      only the containment hops contribute, however weak the dependencies on the path are. */
  lemma {:induction false} OnlyContainmentCounts(prov: ProvenanceMap, hops: seq<PathHop>)
    requires forall i :: 0 <= i < |hops| && hops[i].etype != CONTAINS ==>
               EdgeName(hops[i].etype, hops[i].fromId, hops[i].toId) !in prov
    ensures PathConfidence(prov, hops) == EdgeConfidence(ContainmentOnly(prov), hops)
    decreases |hops|
  {
    if hops != [] {
      OnlyContainmentCounts(prov, hops[..|hops| - 1]);
      var h := hops[|hops| - 1];
      assert HopProvenance(prov, h).confidence == EdgeProvenance(ContainmentOnly(prov), h).confidence;
    }
  }

  function ContainmentOnly(prov: ProvenanceMap): ProvenanceMap {
    map n | n in prov && n.etype == CONTAINS :: prov[n]
  }

  function Inward(prov: ProvenanceMap, h: PathHop): real {
    if h.etype == CONTAINS then 1.0 else EdgeProvenance(prov, h).confidence
  }

  /** The factor that the lookup leaves out: the edges of the hops that go against their edge. */
  function InwardConfidence(prov: ProvenanceMap, hops: seq<PathHop>): real {
    if hops == [] then 1.0
    else
      var h := hops[|hops| - 1];
      Times(InwardConfidence(prov, hops[..|hops| - 1]), Inward(prov, h))
  }

  /** No open edge runs the other way along an inward hop. */
  ghost predicate OneWay(prov: ProvenanceMap, hops: seq<PathHop>) {
    forall h :: h in hops && h.etype != CONTAINS ==> EdgeName(h.etype, h.fromId, h.toId) !in prov
  }

  ghost predicate InwardCertain(prov: ProvenanceMap, hops: seq<PathHop>) {
    forall h :: h in hops && h.etype != CONTAINS ==> EdgeProvenance(prov, h).confidence == 1.0
  }

  lemma HopSplits(prov: ProvenanceMap, h: PathHop)
    requires h.etype != CONTAINS ==> EdgeName(h.etype, h.fromId, h.toId) !in prov
    ensures EdgeProvenance(prov, h).confidence == Times(HopProvenance(prov, h).confidence, Inward(prov, h))
  {
  }

  lemma {:induction false} ProductSplits(prov: ProvenanceMap, hops: seq<PathHop>)
    requires OneWay(prov, hops)
    ensures EdgeConfidence(prov, hops) == Times(PathConfidence(prov, hops), InwardConfidence(prov, hops))
    decreases |hops|
  {
    if hops == [] {
      Unit(1.0);
    } else {
      hide HopProvenance, EdgeProvenance, Inward, Times;
      var init, h := hops[..|hops| - 1], hops[|hops| - 1];
      assert hops == init + [h] && h in hops;
      ProductSplits(prov, init);
      HopSplits(prov, h);
      Regroup(PathConfidence(prov, init), InwardConfidence(prov, init), HopProvenance(prov, h).confidence, Inward(prov, h));
    }
  }

  lemma {:induction false} InwardRange(prov: ProvenanceMap, hops: seq<PathHop>)
    requires Bounded(prov)
    ensures 0.0 <= InwardConfidence(prov, hops) <= 1.0
    ensures InwardConfidence(prov, hops) == 1.0 <==> InwardCertain(prov, hops)
    decreases |hops|
  {
    hide HopProvenance, Times;
    if hops != [] {
      var init, h := hops[..|hops| - 1], hops[|hops| - 1];
      assert hops == init + [h];
      InwardRange(prov, init);
      HopBounded(prov, if h.etype == CONTAINS then h else PathHop(h.etype, h.toId, h.fromId));
      Shrinks(InwardConfidence(prov, init), Inward(prov, h));
      hide EdgeProvenance, Bounded;
      assert InwardCertain(prov, hops) <==> InwardCertain(prov, init) && (h.etype != CONTAINS ==> EdgeProvenance(prov, h).confidence == 1.0);
    }
  }

  /** The documented product over the edges of the path is what is reported, for paths whose
      inward edges have no open edge the other way, exactly when the reported confidence is zero
      or every edge that an inward hop goes over is certain. */
  lemma ReportedIsTheProduct(prov: ProvenanceMap, hops: seq<PathHop>)
    requires Bounded(prov) && OneWay(prov, hops)
    ensures PathConfidence(prov, hops) == EdgeConfidence(prov, hops)
       <==> PathConfidence(prov, hops) == 0.0 || InwardCertain(prov, hops)
  {
    ProductSplits(prov, hops);
    InwardRange(prov, hops);
    ConfidenceBounded(prov, hops);
    hide PathConfidence, EdgeConfidence, InwardConfidence, InwardCertain, Times;
    Absorbs(PathConfidence(prov, hops), InwardConfidence(prov, hops));
  }

  /** One CI that depends, weakly, on another. */
  function WeakLink(): Link { Link(DEPENDS_ON, 2, 1, 0.25) }

  function WeakProvenance(): ProvenanceMap { map[EdgeName(DEPENDS_ON, 2, 1) := Provenance(Inferred, 0.25)] }

  /** The search from CI 1 finds CI 2 over the weak edge, and reports it as certain. */
  lemma WeakDependencyIsCertain(r: WhatIfResult)
    requires Reports(ImpactQuery([WeakLink()], 0.0, 200), WeakProvenance(), {1, 2}, 1, "remove", 1, r)
    ensures Bounded(WeakProvenance()) && r.Estimate? && 2 in r.impacted
    ensures var e := r.impacted[2];
            && |e.evidence| == 1 && e.evidence[0].hop == PathHop(DEPENDS_ON, 1, 2) && e.confidence == 1.0
            && EdgeConfidence(WeakProvenance(), [e.evidence[0].hop]) == 0.25
  {
    hide TreeOf, AllTruncated, EntryFor, ImpactQuery, ArcsOf, Distances, Traced, Distinct, Elements, WeakLink, WeakProvenance, EdgeConfidence;
    var q := ImpactQuery([WeakLink()], 0.0, 200);
    WeakDistances(q);
    assert FoundCis(q, {1, 2}, 1, 1) == map[2 := 1];
    assert Bounded(WeakProvenance()) by { WeakBounded(); }
    WeakEntry(q, Distances(ArcsOf(q), 1, 1), TreeOf(q, 1, 1), r.impacted[2]);
  }

  lemma WeakBounded()
    ensures Bounded(WeakProvenance())
  {
  }

  lemma WeakExpand(q: Query)
    requires q == ImpactQuery([WeakLink()], 0.0, 200)
    ensures Expand(q, 1) == [Hop(2, DEPENDS_ON)]
  {
    assert [WeakLink()][1..] == [];
    assert Rows([WeakLink()], 1, true, OUTGOING_IMPACT, 0.0) == [];
    assert Rows([WeakLink()], 1, false, INCOMING_IMPACT, 0.0) == [Hop(2, DEPENDS_ON)];
    assert Neighbors(q, 1) == [Hop(2, DEPENDS_ON)];
    assert [Hop(2, DEPENDS_ON)][..0] == [];
    assert FirstById([]) == [];
  }

  lemma WeakDistances(q: Query)
    requires q == ImpactQuery([WeakLink()], 0.0, 200)
    ensures Distances(ArcsOf(q), 1, 1) == map[1 := 0, 2 := 1]
  {
    WeakExpand(q);
    NextIsExpand(q, 1);
    hide Expand, ArcsOf;
    assert IdSet([Hop(2, DEPENDS_ON)]) == {2} by { assert Hop(2, DEPENDS_ON) in [Hop(2, DEPENDS_ON)]; }
    hide IdSet, ImpactQuery;
    OneHop(ArcsOf(q), 1, 2);
  }

  lemma OneHop(g: Arcs, x: nat, y: nat)
    requires Next(g, x) == {y} && x != y
    ensures Distances(g, x, 1) == map[x := 0, y := 1]
  {
    assert Within(g, x, 0) == {x};
    assert Succ(g, {x}) == {y} by { assert y in Next(g, x); }
    assert Within(g, x, 1) == {x, y};
  }

  lemma WeakEntry(q: Query, distances: map<nat, nat>, tree: map<nat, Hop>, e: ImpactedCi)
    requires q == ImpactQuery([WeakLink()], 0.0, 200) && distances == map[1 := 0, 2 := 1]
    requires Traced(q, 1, distances, tree) && EntryFor(q, WeakProvenance(), 1, "remove", distances, tree, 2, e)
    ensures |e.evidence| == 1 && e.evidence[0].hop == PathHop(DEPENDS_ON, 1, 2) && e.confidence == 1.0
    ensures EdgeConfidence(WeakProvenance(), [e.evidence[0].hop]) == 0.25
  {
    WeakExpand(q);
    hide Expand;
    assert FollowedHop(q, distances, 2, tree[2]);
    assert tree[2] == Hop(1, DEPENDS_ON);
    ParentPath(q, 1, distances, tree, 2);
    var h := PathHop(DEPENDS_ON, 1, 2);
    assert ImpactPath(q, 1, distances, tree, 1) == [];
    hide ImpactPath, Traced, FollowedHop;
    assert [h][..0] == [] && [] + [h] == [h];
    assert PathConfidence(WeakProvenance(), [h]) == 1.0 * 1.0;
    assert EdgeConfidence(WeakProvenance(), [h]) == 1.0 * 0.25;
  }
}
