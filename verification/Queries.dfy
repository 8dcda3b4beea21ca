/** The four graph queries (services/query/src/infra_twin/query/): blast radius, upstream
    neighbourhood, reachability and what-if impact. Each drops the nodes that are not current
    CIs; results are maps from CI id, the presentation order is not modelled. */
module Queries {
  import opened Model
  import opened Reach
  import opened Traversal

  /* ---------------------------------------------------------------- blast radius and RCA */

  function ImpactQuery(links: seq<Link>, minConfidence: real, maxFanout: nat): Query {
    Query(links, Impact, minConfidence, Some(maxFanout))
  }

  function UpstreamQuery(links: seq<Link>, minConfidence: real): Query {
    Query(links, Upstream, minConfidence, None)
  }

  /** Distances of the current CIs found, the source itself left out. */
  ghost function FoundCis(q: Query, present: set<nat>, source: nat, maxDepth: nat): map<nat, nat> {
    var d := Distances(ArcsOf(q), source, maxDepth);
    map x | x in d && x != source && x in present :: d[x]
  }

  /** The filtering loop both queries end with. */
  method KeepPresent(visited: map<nat, nat>, discovered: seq<nat>, present: set<nat>) returns (found: map<nat, nat>)
    requires forall x :: x in discovered ==> x in visited
    ensures found == map x | x in discovered && x in present :: visited[x]
  {
    found := map[];
    for i := 0 to |discovered|
      invariant found == map x | x in discovered[..i] && x in present :: visited[x]
    {
      assert discovered[..i + 1] == discovered[..i] + [discovered[i]];
      if discovered[i] in present {
        found := found[discovered[i] := visited[discovered[i]]];
      }
    }
    assert discovered[..|discovered|] == discovered;
  }

  method BlastRadius(links: seq<Link>, present: set<nat>, ci: nat, maxDepth: nat, minConfidence: real, maxFanout: nat)
    returns (impacted: map<nat, nat>, truncated: seq<Supernode>)
    ensures var q := ImpactQuery(links, minConfidence, maxFanout);
            && impacted == FoundCis(q, present, ci, maxDepth)
            && Elements(truncated) == AllTruncated(q, ci, maxDepth) && Distinct(truncated)
  {
    hide AllTruncated, ArcsOf, Distances, Neighbors;
    var q := ImpactQuery(links, minConfidence, maxFanout);
    var visited, discovered, supernodes := Search(q, ci, maxDepth);
    truncated := supernodes;
    assert forall x :: x in discovered <==> x in Elements(discovered);
    impacted := KeepPresent(visited, discovered, present);
  }

  /** The upstream neighbourhood: the target at distance 0, whether or not it is current. */
  ghost function NeighborhoodOf(q: Query, present: set<nat>, target: nat, maxDepth: nat): map<nat, nat> {
    FoundCis(q, present, target, maxDepth)[target := 0]
  }

  method BuildNeighborhood(links: seq<Link>, present: set<nat>, target: nat, maxDepth: nat, minConfidence: real)
    returns (distance: map<nat, nat>)
    ensures distance == NeighborhoodOf(UpstreamQuery(links, minConfidence), present, target, maxDepth)
  {
    hide AllTruncated, ArcsOf, Distances, Neighbors;
    var q := UpstreamQuery(links, minConfidence);
    var visited, discovered, supernodes := Search(q, target, maxDepth);
    assert forall x :: x in discovered <==> x in Elements(discovered);
    distance := KeepPresent(visited, discovered, present);
    distance := distance[target := 0];
  }

  function Uncapped(q: Query): Query { q.(maxFanout := None) }

  lemma FarRows(links: seq<Link>, node: nat, outward: bool, types: set<EdgeType>, c: real, y: nat)
    ensures y in IdSet(Rows(links, node, outward, types, c)) <==>
      exists l :: l in links && l.etype in types && l.confidence >= c
               && l.fromId == (if outward then node else y) && l.toId == (if outward then y else node)
  {
    var rows := Rows(links, node, outward, types, c);
    if l :| l in links && l.etype in types && l.confidence >= c
            && l.fromId == (if outward then node else y) && l.toId == (if outward then y else node) {
      assert Far(l, outward) in rows;
    }
  }

  lemma IdSetConcat(a: seq<Hop>, b: seq<Hop>)
    ensures IdSet(a + b) == IdSet(a) + IdSet(b)
  {
  }

  /** Uncapped, the upstream walk follows exactly the impact arrows backwards. */
  lemma UpstreamIsConverse(links: seq<Link>, c: real)
    ensures Converse(ArcsOf(Query(links, Impact, c, None)), ArcsOf(UpstreamQuery(links, c)))
  {
    var p, u := Query(links, Impact, c, None), UpstreamQuery(links, c);
    forall x, y ensures y in Next(ArcsOf(p), x) <==> x in Next(ArcsOf(u), y) {
      ConverseAt(links, c, x, y);
    }
  }

  lemma ConverseAt(links: seq<Link>, c: real, x: nat, y: nat)
    ensures y in Next(ArcsOf(Query(links, Impact, c, None)), x) <==> x in Next(ArcsOf(UpstreamQuery(links, c)), y)
  {
    hide Rows, ArcsOf;
    NextIsExpand(Query(links, Impact, c, None), x);
    NextIsExpand(UpstreamQuery(links, c), y);
    FarRows(links, x, true, OUTGOING_IMPACT, c, y);
    FarRows(links, x, false, INCOMING_IMPACT, c, y);
    FarRows(links, y, false, OUTGOING_IMPACT, c, x);
    FarRows(links, y, true, INCOMING_IMPACT, c, x);
    IdSetConcat(Rows(links, x, true, OUTGOING_IMPACT, c), Rows(links, x, false, INCOMING_IMPACT, c));
    IdSetConcat(Rows(links, y, false, OUTGOING_IMPACT, c), Rows(links, y, true, INCOMING_IMPACT, c));
  }

  lemma UncappedExpansion(q: Query, x: nat)
    ensures Next(ArcsOf(q), x) <= Next(ArcsOf(Uncapped(q)), x)
    ensures !OverCap(q, x) ==> Next(ArcsOf(q), x) == Next(ArcsOf(Uncapped(q)), x)
  {
    NextIsExpand(q, x);
    NextIsExpand(Uncapped(q), x);
    hide ArcsOf;
    assert Neighbors(q, x) == Neighbors(Uncapped(q), x);
    hide Neighbors;
    assert forall h :: h in Expand(q, x) ==> h in Expand(Uncapped(q), x);
  }

  lemma OverCapReported(q: Query, source: nat, maxDepth: nat, x: nat)
    requires maxDepth > 0 && x in Within(ArcsOf(q), source, maxDepth - 1) && OverCap(q, x)
    ensures AllTruncated(q, source, maxDepth) != {}
  {
    hide Neighbors, ArcsOf, OverCap;
    WithinMonotone(ArcsOf(q), source, maxDepth - 1, maxDepth);
    var d := Distances(ArcsOf(q), source, maxDepth);
    assert Supernode(x, Degree(q, x), d[x]) in AllTruncated(q, source, maxDepth);
  }

  /** A search that reports no supernode searched the whole graph. */
  lemma NothingTruncated(q: Query, source: nat, maxDepth: nat)
    requires AllTruncated(q, source, maxDepth) == {}
    ensures Distances(ArcsOf(q), source, maxDepth) == Distances(ArcsOf(Uncapped(q)), source, maxDepth)
  {
    hide Neighbors, Within, ArcsOf, OverCap;
    var g, h := ArcsOf(q), ArcsOf(Uncapped(q));
    forall e: nat | e <= maxDepth ensures Within(g, source, e) == Within(h, source, e) {
      forall x | e > 0 && x in Within(g, source, e - 1) ensures Next(g, x) == Next(h, x) {
        WithinMonotone(g, source, e - 1, maxDepth - 1);
        if OverCap(q, x) { OverCapReported(q, source, maxDepth, x); }
        UncappedExpansion(q, x);
      }
      SameExpansion(g, h, source, e);
    }
    forall x | x in Within(g, source, maxDepth)
      ensures Depth(g, source, x, maxDepth) == Depth(h, source, x, maxDepth)
    {
      DepthUnique(h, source, x, maxDepth, Depth(g, source, x, maxDepth));
    }
  }

  /** Duality: y's blast radius reports x at distance d exactly when x's upstream neighbourhood
      holds y at distance d, provided the blast radius reported no supernode. */
  lemma Duality(links: seq<Link>, present: set<nat>, x: nat, y: nat, maxDepth: nat, c: real, maxFanout: nat, d: nat)
    requires x != y && x in present && y in present
    requires AllTruncated(ImpactQuery(links, c, maxFanout), y, maxDepth) == {}
    ensures var blast := FoundCis(ImpactQuery(links, c, maxFanout), present, y, maxDepth);
            var upstream := NeighborhoodOf(UpstreamQuery(links, c), present, x, maxDepth);
            (x in blast && blast[x] == d) <==> (y in upstream && upstream[y] == d)
  {
    hide ArcsOf, Distances, AllTruncated, Converse;
    NothingTruncated(ImpactQuery(links, c, maxFanout), y, maxDepth);
    UpstreamIsConverse(links, c);
    ConverseDistance(ArcsOf(Query(links, Impact, c, None)), ArcsOf(UpstreamQuery(links, c)), x, y, maxDepth);
  }

  lemma {:induction false} CappedWithin(q: Query, source: nat, d: nat)
    ensures Within(ArcsOf(q), source, d) <= Within(ArcsOf(Uncapped(q)), source, d)
    decreases d
  {
    hide ArcsOf, Neighbors;
    if d > 0 {
      CappedWithin(q, source, d - 1);
      forall x ensures Next(ArcsOf(q), x) <= Next(ArcsOf(Uncapped(q)), x) {
        UncappedExpansion(q, x);
      }
    }
  }

  /** Capped or not, whatever a blast radius reports has its source upstream, no farther. */
  lemma BlastIsUpstream(links: seq<Link>, present: set<nat>, x: nat, y: nat, maxDepth: nat, c: real, maxFanout: nat)
    requires x != y && y in present
    requires x in FoundCis(ImpactQuery(links, c, maxFanout), present, y, maxDepth)
    ensures var upstream := NeighborhoodOf(UpstreamQuery(links, c), present, x, maxDepth);
            y in upstream && upstream[y] <= FoundCis(ImpactQuery(links, c, maxFanout), present, y, maxDepth)[x]
  {
    hide ArcsOf, Within, Converse;
    var q := ImpactQuery(links, c, maxFanout);
    var u := ArcsOf(UpstreamQuery(links, c));
    var k := Depth(ArcsOf(q), y, x, maxDepth);
    CappedWithin(q, y, k);
    UpstreamIsConverse(links, c);
    ConverseWithin(ArcsOf(Uncapped(q)), u, x, y, k);
    WithinMonotone(u, x, k, maxDepth);
    var e := Depth(u, x, y, maxDepth);
    if k < e { WithinMonotone(u, x, k, e - 1); }
  }

  /* ---------------------------------------------------------------- reachability */

  datatype ReachingSource = ReachingSource(ctype: CiType, distance: nat, isInternet: bool, path: seq<PathHop>)

  function AccessQuery(links: seq<Link>, minConfidence: real, maxFanout: nat): Query {
    Query(links, Access, minConfidence, Some(maxFanout))
  }

  /** A hop of a path is an edge of the graph that the walk may use. */
  ghost predicate RealHop(links: seq<Link>, types: set<EdgeType>, c: real, h: PathHop) {
    h.etype in types && exists l :: l in links && l.etype == h.etype && l.confidence >= c
                                && l.fromId == h.fromId && l.toId == h.toId
  }

  /** Consecutive real edges from x to y. */
  ghost predicate AccessPath(links: seq<Link>, c: real, path: seq<PathHop>, x: nat, y: nat) {
    && (if path == [] then x == y else path[0].fromId == x && path[|path| - 1].toId == y)
    && (forall i {:trigger path[i]} :: 0 <= i < |path| - 1 ==> path[i].toId == path[i + 1].fromId)
    && (forall i :: 0 <= i < |path| ==> RealHop(links, REACHABILITY_EDGE_TYPES, c, path[i]))
  }

  lemma ChainIsAccessPath(links: seq<Link>, c: real, maxFanout: nat, path: seq<PathHop>, x: nat, y: nat)
    requires IsChain(AccessQuery(links, c, maxFanout), path, x, y)
    ensures AccessPath(links, c, path, x, y)
  {
    var q := AccessQuery(links, c, maxFanout);
    forall i | 0 <= i < |path| ensures RealHop(links, REACHABILITY_EDGE_TYPES, c, path[i]) {
      assert Hop(path[i].fromId, path[i].etype) in Expand(q, path[i].toId);
      FollowedIsReal(links, c, maxFanout, path[i]);
    }
  }

  lemma FollowedIsReal(links: seq<Link>, c: real, maxFanout: nat, h: PathHop)
    requires Hop(h.fromId, h.etype) in Expand(AccessQuery(links, c, maxFanout), h.toId)
    ensures RealHop(links, REACHABILITY_EDGE_TYPES, c, h)
  {
    var q := AccessQuery(links, c, maxFanout);
    var hop := Hop(h.fromId, h.etype);
    assert hop in FirstById(Neighbors(q, h.toId));
    assert hop in Rows(links, h.toId, false, REACHABILITY_EDGE_TYPES, c);
    var l :| l in links && Matches(l, h.toId, false, REACHABILITY_EDGE_TYPES, c) && Far(l, false) == hop;
  }

  /** The CIs that reach the target, nearest first by distance; each with a shortest real path. */
  ghost predicate ReachingSources(links: seq<Link>, present: map<nat, CiType>, target: nat, maxDepth: nat, c: real,
                                  maxFanout: nat, sources: map<nat, ReachingSource>)
  {
    var found := FoundCis(AccessQuery(links, c, maxFanout), present.Keys, target, maxDepth);
    && sources.Keys == found.Keys
    && forall x :: x in sources ==> x in present && SourceFor(links, c, target, x, present[x], found[x], sources[x])
  }

  ghost predicate SourceFor(links: seq<Link>, c: real, target: nat, x: nat, ctype: CiType, distance: nat, s: ReachingSource) {
    && s.ctype == ctype && s.distance == distance && (s.isInternet <==> ctype == INTERNET)
    && |s.path| == distance && AccessPath(links, c, s.path, x, target)
  }

  lemma SourceMade(links: seq<Link>, c: real, target: nat, x: nat, ctype: CiType, distance: nat, path: seq<PathHop>)
    requires |path| == distance && AccessPath(links, c, path, x, target)
    ensures SourceFor(links, c, target, x, ctype, distance, ReachingSource(ctype, distance, ctype == INTERNET, path))
  {
    hide AccessPath;
  }

  predicate AnyInternet(sources: map<nat, ReachingSource>) { exists x :: x in sources && sources[x].isInternet }

  lemma OneMoreSource(sources: map<nat, ReachingSource>, x: nat, s: ReachingSource)
    requires x !in sources
    ensures AnyInternet(sources[x := s]) <==> AnyInternet(sources) || s.isInternet
  {
    var after := sources[x := s];
    if AnyInternet(sources) {
      var w :| w in sources && sources[w].isInternet;
      assert w in after && after[w].isInternet;
    }
    if s.isInternet { assert after[x].isInternet; }
  }

  /** The loop over the discovered nodes has turned the present ones into sources. */
  ghost predicate Resolved(links: seq<Link>, present: map<nat, CiType>, target: nat, c: real, visited: map<nat, nat>,
                           nodes: seq<nat>, sources: map<nat, ReachingSource>)
  {
    && (forall x :: x in sources <==> x in nodes && x in present)
    && (forall x :: x in sources ==> x in visited && SourceFor(links, c, target, x, present[x], visited[x], sources[x]))
  }

  lemma ResolvedMore(links: seq<Link>, present: map<nat, CiType>, target: nat, c: real, visited: map<nat, nat>, nodes: seq<nat>,
                     sources: map<nat, ReachingSource>, x: nat, path: seq<PathHop>)
    requires Resolved(links, present, target, c, visited, nodes, sources) && x in present && x in visited
    requires |path| == visited[x] && AccessPath(links, c, path, x, target)
    ensures Resolved(links, present, target, c, visited, nodes + [x],
                     sources[x := ReachingSource(present[x], visited[x], present[x] == INTERNET, path)])
  {
    hide AccessPath, SourceFor;
    SourceMade(links, c, target, x, present[x], visited[x], path);
  }

  lemma ResolvedAbsent(links: seq<Link>, present: map<nat, CiType>, target: nat, c: real, visited: map<nat, nat>, nodes: seq<nat>,
                       sources: map<nat, ReachingSource>, x: nat)
    requires Resolved(links, present, target, c, visited, nodes, sources) && x !in present
    ensures Resolved(links, present, target, c, visited, nodes + [x], sources)
  {
    hide SourceFor;
  }

  lemma SourcesFound(links: seq<Link>, present: map<nat, CiType>, target: nat, maxDepth: nat, c: real, maxFanout: nat,
                     visited: map<nat, nat>, nodes: seq<nat>, sources: map<nat, ReachingSource>)
    requires visited == Distances(ArcsOf(AccessQuery(links, c, maxFanout)), target, maxDepth)
    requires Elements(nodes) == visited.Keys - {target} && Resolved(links, present, target, c, visited, nodes, sources)
    ensures ReachingSources(links, present, target, maxDepth, c, maxFanout, sources)
    ensures AnyInternet(sources) <==> exists x :: x in sources && present[x] == INTERNET
  {
    hide SourceFor, AccessQuery, ArcsOf, Distances;
    assert forall x :: x in nodes <==> x in Elements(nodes);
    forall x | x in sources ensures sources[x].isInternet <==> present[x] == INTERNET {
      SourceKind(links, c, target, x, present[x], visited[x], sources[x]);
    }
    if AnyInternet(sources) { var w :| w in sources && sources[w].isInternet; assert present[w] == INTERNET; }
    if x :| x in sources && present[x] == INTERNET { assert sources[x].isInternet; }
  }

  lemma SourceKind(links: seq<Link>, c: real, target: nat, x: nat, ctype: CiType, distance: nat, s: ReachingSource)
    requires SourceFor(links, c, target, x, ctype, distance, s)
    ensures s.isInternet <==> ctype == INTERNET
  {
  }

  method Reachability(links: seq<Link>, present: map<nat, CiType>, target: nat, maxDepth: nat, minConfidence: real, maxFanout: nat)
    returns (sources: map<nat, ReachingSource>, reachedByInternet: bool, truncated: seq<Supernode>)
    ensures ReachingSources(links, present, target, maxDepth, minConfidence, maxFanout, sources)
    ensures reachedByInternet <==> exists x :: x in sources && present[x] == INTERNET
    ensures Elements(truncated) == AllTruncated(AccessQuery(links, minConfidence, maxFanout), target, maxDepth)
    ensures Distinct(truncated)
  {
    hide AllTruncated, ArcsOf, Distances, Neighbors, Traced, IsChain, AccessPath, Backtrack, TreeOf, AccessQuery, SourceFor, Resolved,
         AnyInternet, ReachingSources;
    var q := AccessQuery(links, minConfidence, maxFanout);
    var visited, predecessor, discovered, supernodes := TracedSearch(q, target, maxDepth);
    truncated := supernodes;
    sources, reachedByInternet := map[], false;
    NothingResolved(links, present, target, minConfidence, visited);
    for i := 0 to |discovered|
      invariant Resolved(links, present, target, minConfidence, visited, discovered[..i], sources)
      invariant reachedByInternet <==> AnyInternet(sources)
    {
      var node := discovered[i];
      assert discovered[..i + 1] == discovered[..i] + [node];
      assert node in Elements(discovered) && node in visited;
      if node in present {
        var path := WalkBack(q, target, visited, predecessor, node);
        ChainIsAccessPath(links, minConfidence, maxFanout, path, node, target);
        var isInternet := present[node] == INTERNET;
        var source := ReachingSource(present[node], visited[node], isInternet, path);
        NotYet(links, present, target, minConfidence, visited, discovered, i, sources);
        OneMoreSource(sources, node, source);
        ResolvedMore(links, present, target, minConfidence, visited, discovered[..i], sources, node, path);
        sources := sources[node := source];
        if isInternet { reachedByInternet := true; }
      } else {
        ResolvedAbsent(links, present, target, minConfidence, visited, discovered[..i], sources, node);
      }
    }
    assert discovered[..|discovered|] == discovered;
    SourcesFound(links, present, target, maxDepth, minConfidence, maxFanout, visited, discovered, sources);
  }

  lemma NothingResolved(links: seq<Link>, present: map<nat, CiType>, target: nat, c: real, visited: map<nat, nat>)
    ensures Resolved(links, present, target, c, visited, [], map[]) && !AnyInternet(map[])
  {
  }

  lemma NotYet(links: seq<Link>, present: map<nat, CiType>, target: nat, c: real, visited: map<nat, nat>, nodes: seq<nat>, i: nat,
               sources: map<nat, ReachingSource>)
    requires Distinct(nodes) && i < |nodes| && Resolved(links, present, target, c, visited, nodes[..i], sources)
    ensures nodes[i] !in sources
  {
    hide SourceFor;
  }
}
