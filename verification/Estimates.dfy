/** What an entry of a what-if estimate says, in terms of the relationships of the graph and of the
    stored provenance alone (services/query/src/infra_twin/query/whatif.py). */
module Estimates {
  import opened Model
  import opened Reach
  import opened Traversal
  import opened Queries
  import opened Steps
  import opened WhatIf

  /** One hop along a relationship of that type, of at least the confidence. */
  ghost predicate HopIsReal(links: seq<Link>, c: real, h: PathHop) {
    exists l :: l in links && l.confidence >= c && l.etype == h.etype && Breaks(l, h.fromId, h.toId)
  }

  /** Hops end to end from x to y. */
  ghost predicate Spreads(links: seq<Link>, c: real, hops: seq<PathHop>, x: nat, y: nat) {
    && (if hops == [] then x == y else hops[0].fromId == x && hops[|hops| - 1].toId == y)
    && (forall i {:trigger hops[i]} :: 0 <= i < |hops| - 1 ==> hops[i].toId == hops[i + 1].fromId)
    && (forall i :: 0 <= i < |hops| ==> HopIsReal(links, c, hops[i]))
  }

  /** A hop cites the open edge of its type that runs as the walk does, or else counts as declared
      and certain. */
  predicate CitesEdge(prov: ProvenanceMap, e: EvidenceHop) {
    var n := EdgeName(e.hop.etype, e.hop.fromId, e.hop.toId);
    if n in prov then e.provenance == prov[n] else e.provenance.source == Declared && e.provenance.confidence == 1.0
  }

  function Product(evidence: seq<EvidenceHop>): real {
    if evidence == [] then 1.0 else Product(evidence[..|evidence| - 1]) * evidence[|evidence| - 1].provenance.confidence
  }

  function HopsOf(evidence: seq<EvidenceHop>): seq<PathHop> { seq(|evidence|, i requires 0 <= i < |evidence| => evidence[i].hop) }

  lemma ExpandedIsReal(links: seq<Link>, c: real, maxFanout: nat, p: nat, h: Hop)
    requires h in Expand(ImpactQuery(links, c, maxFanout), p)
    ensures HopIsReal(links, c, PathHop(h.etype, p, h.id))
  {
    var q := ImpactQuery(links, c, maxFanout);
    assert h in FirstById(Neighbors(q, p));
    if h in Rows(links, p, true, OUTGOING_IMPACT, c) {
      var l :| l in links && Matches(l, p, true, OUTGOING_IMPACT, c) && Far(l, true) == h;
      assert Breaks(l, p, h.id);
    } else {
      var l :| l in links && Matches(l, p, false, INCOMING_IMPACT, c) && Far(l, false) == h;
      assert Breaks(l, p, h.id);
    }
  }

  lemma SpreadsOn(links: seq<Link>, c: real, hops: seq<PathHop>, x: nat, h: PathHop)
    requires Spreads(links, c, hops, x, h.fromId) && HopIsReal(links, c, h)
    ensures Spreads(links, c, hops + [h], x, h.toId)
  {
    hide HopIsReal;
    var all := hops + [h];
    forall i | 0 <= i < |all| - 1 ensures all[i].toId == all[i + 1].fromId {
      if i < |hops| - 1 { assert hops[i].toId == hops[i + 1].fromId; }
    }
  }

  lemma {:induction false} PathSpreads(links: seq<Link>, c: real, maxFanout: nat, source: nat, visited: map<nat, nat>,
                                       predecessor: map<nat, Hop>, node: nat)
    requires Traced(ImpactQuery(links, c, maxFanout), source, visited, predecessor) && node in visited
    ensures Spreads(links, c, ImpactPath(ImpactQuery(links, c, maxFanout), source, visited, predecessor, node), source, node)
    decreases visited[node]
  {
    hide Spreads, Expand;
    var q := ImpactQuery(links, c, maxFanout);
    if node in predecessor {
      var p := predecessor[node];
      assert FollowedHop(q, visited, node, p);
      PathSpreads(links, c, maxFanout, source, visited, predecessor, p.id);
      ExpandedIsReal(links, c, maxFanout, p.id, Hop(node, p.etype));
      SpreadsOn(links, c, ImpactPath(q, source, visited, predecessor, p.id), source, PathHop(p.etype, p.id, node));
    } else {
      assert Spreads(links, c, [], source, source) by { NoSpread(links, c, source); }
    }
  }

  lemma NoSpread(links: seq<Link>, c: real, x: nat)
    ensures Spreads(links, c, [], x, x)
  {
  }

  lemma {:induction false} ProductIs(prov: ProvenanceMap, hops: seq<PathHop>, evidence: seq<EvidenceHop>)
    requires |evidence| == |hops| && forall i :: 0 <= i < |hops| ==> evidence[i].hop == hops[i] && CitesEdge(prov, evidence[i])
    ensures PathConfidence(prov, hops) == Product(evidence)
    decreases |hops|
  {
    if hops != [] {
      var last := |hops| - 1;
      ProductIs(prov, hops[..last], evidence[..last]);
      assert CitesEdge(prov, evidence[last]);
    }
  }

  /** An entry of an estimate: the path leads from the changed CI to the impacted one along real
      relationships, one per unit of distance; every hop cites its edge; the confidence is the
      product of the cited ones, halved for a modification. */
  lemma EstimateSays(links: seq<Link>, c: real, maxFanout: nat, prov: ProvenanceMap, present: set<nat>, source: nat, changeKind: string,
                     maxDepth: nat, r: WhatIfResult, x: nat)
    requires Reports(ImpactQuery(links, c, maxFanout), prov, present, source, changeKind, maxDepth, r)
    requires r.Estimate? && x in r.impacted
    ensures changeKind == "remove" || changeKind == "modify"
    ensures var e := r.impacted[x];
            && x in present && x != source && e.distance == |e.evidence| <= maxDepth
            && Spreads(links, c, HopsOf(e.evidence), source, x)
            && (forall i :: 0 <= i < |e.evidence| ==> CitesEdge(prov, e.evidence[i]))
            && e.confidence == (if changeKind == "modify" then Product(e.evidence) / 2.0 else Product(e.evidence))
  {
    hide AllTruncated, ArcsOf, ImpactPath, TreeOf, Traced, Spreads, Product, PathConfidence, Within;
    var q := ImpactQuery(links, c, maxFanout);
    var visited, tree := Distances(ArcsOf(q), source, maxDepth), TreeOf(q, source, maxDepth);
    var path, e := ImpactPath(q, source, visited, tree, x), r.impacted[x];
    PathSpreads(links, c, maxFanout, source, visited, tree, x);
    assert HopsOf(e.evidence) == path;
    ProductIs(prov, path, e.evidence);
  }
}
