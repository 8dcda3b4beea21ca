/** What the searches find, in terms of the relationships of the graph alone
    (services/query/src/infra_twin/query/blast_radius.py, rca.py, reachability.py). */
module Steps {
  import opened Reach
  import opened Traversal
  import opened Queries

  /** y breaks when x does: x contains y, or y depends on, runs on, routes to or exposes x. */
  predicate Breaks(l: Link, x: nat, y: nat) {
    || (l.etype.CONTAINS? && l.fromId == x && l.toId == y)
    || ((l.etype.DEPENDS_ON? || l.etype.RUNS_ON? || l.etype.ROUTES_TO? || l.etype.EXPOSES?) && l.fromId == y && l.toId == x)
  }

  /** y reaches x directly: it connects to, routes to, has access to or exposes x. */
  predicate Enters(l: Link, x: nat, y: nat) {
    (l.etype.CONNECTS_TO? || l.etype.ROUTES_TO? || l.etype.HAS_ACCESS_TO? || l.etype.EXPOSES?) && l.fromId == y && l.toId == x
  }

  /** One hop of a walk from x to y, along a relationship of at least the confidence. */
  ghost predicate Step(links: seq<Link>, walk: Walk, c: real, x: nat, y: nat) {
    exists l :: l in links && l.confidence >= c &&
      match walk
      case Impact => Breaks(l, x, y)
      case Upstream => Breaks(l, y, x)
      case Access => Enters(l, x, y)
  }

  /** Uncapped, a walk goes from x to y in one hop exactly along such a relationship. */
  lemma HopIsStep(q: Query, x: nat, y: nat)
    ensures y in Next(ArcsOf(Uncapped(q)), x) <==> Step(q.links, q.walk, q.minConfidence, x, y)
    ensures y in IdSet(Neighbors(q, x)) <==> Step(q.links, q.walk, q.minConfidence, x, y)
  {
    hide Rows, ArcsOf;
    NextIsExpand(Uncapped(q), x);
    NeighborsAre(q, x, y);
  }

  lemma NeighborsAre(q: Query, x: nat, y: nat)
    ensures y in IdSet(Neighbors(q, x)) <==> Step(q.links, q.walk, q.minConfidence, x, y)
  {
    hide Rows;
    var c := q.minConfidence;
    match q.walk {
      case Impact =>
        FarRows(q.links, x, true, OUTGOING_IMPACT, c, y);
        FarRows(q.links, x, false, INCOMING_IMPACT, c, y);
        IdSetConcat(Rows(q.links, x, true, OUTGOING_IMPACT, c), Rows(q.links, x, false, INCOMING_IMPACT, c));
      case Upstream =>
        FarRows(q.links, x, false, OUTGOING_IMPACT, c, y);
        FarRows(q.links, x, true, INCOMING_IMPACT, c, y);
        IdSetConcat(Rows(q.links, x, false, OUTGOING_IMPACT, c), Rows(q.links, x, true, INCOMING_IMPACT, c));
      case Access =>
        FarRows(q.links, x, false, REACHABILITY_EDGE_TYPES, c, y);
    }
  }

  /* ---------------------------------------------------------------- the cap */

  /** Everything one hop away. */
  ghost function Around(q: Query, x: nat): set<nat> {
    set y | y in Nodes(q.links) && Step(q.links, q.walk, q.minConfidence, x, y)
  }

  lemma AroundIs(q: Query, x: nat)
    ensures Around(q, x) == IdSet(Neighbors(q, x))
    ensures forall y :: y in Around(q, x) <==> Step(q.links, q.walk, q.minConfidence, x, y)
  {
    hide Neighbors;
    forall y ensures y in IdSet(Neighbors(q, x)) <==> Step(q.links, q.walk, q.minConfidence, x, y) {
      NeighborsAre(q, x, y);
    }
  }

  lemma {:induction false} CountHops(hops: seq<Hop>)
    requires forall i, j :: 0 <= i < j < |hops| ==> hops[i].id != hops[j].id
    ensures |IdSet(hops)| == |hops|
    decreases |hops|
  {
    hide IdSet;
    if hops == [] {
      NoIds();
    } else {
      var init, last := hops[..|hops| - 1], hops[|hops| - 1];
      assert forall i :: 0 <= i < |init| ==> init[i] == hops[i];
      CountHops(init);
      assert hops == init + [last];
      OneMoreId(init, last);
    }
  }

  lemma NoIds()
    ensures IdSet([]) == {}
  {
  }

  lemma OneMoreId(hops: seq<Hop>, h: Hop)
    requires forall i :: 0 <= i < |hops| ==> hops[i].id != h.id
    ensures IdSet(hops + [h]) == IdSet(hops) + {h.id} && h.id !in IdSet(hops)
  {
    IdSetConcat(hops, [h]);
    assert IdSet([h]) == {h.id};
  }

  /** From a node a walk follows real hops only: all of them, or as many as the cap allows; the
      degree it compares with the cap is the number of distinct neighbours. */
  lemma Followed(q: Query, x: nat)
    ensures Next(ArcsOf(q), x) <= Around(q, x) && Degree(q, x) == |Around(q, x)|
    ensures |Next(ArcsOf(q), x)| ==
            (if q.maxFanout.Some? && |Around(q, x)| > q.maxFanout.value then q.maxFanout.value else |Around(q, x)|)
  {
    hide ArcsOf, Neighbors, Around;
    NextIsExpand(q, x);
    AroundIs(q, x);
    var hops := FirstById(Neighbors(q, x));
    CountHops(hops);
    CountHops(Expand(q, x));
  }

  /** The supernodes of a search: the nodes it expanded that have more neighbours than the cap, each
      with its number of neighbours and its distance. */
  lemma SupernodesAre(q: Query, source: nat, maxDepth: nat, s: Supernode)
    ensures s in AllTruncated(q, source, maxDepth) <==>
              && s.id in Distances(ArcsOf(q), source, maxDepth) && s.depth == Distances(ArcsOf(q), source, maxDepth)[s.id] < maxDepth
              && q.maxFanout.Some? && s.degree == |Around(q, s.id)| > q.maxFanout.value
  {
    hide ArcsOf, Neighbors, Around, Within;
    Followed(q, s.id);
    var g := ArcsOf(q);
    if maxDepth > 0 { NearerThan(g, source, maxDepth, s.id); }
  }

  lemma NearerThan(g: Arcs, source: nat, d: nat, x: nat)
    requires d > 0
    ensures x in Within(g, source, d - 1) <==> x in Within(g, source, d) && Depth(g, source, x, d) < d
  {
    WithinMonotone(g, source, d - 1, d);
    if x in Within(g, source, d) && Depth(g, source, x, d) < d {
      WithinMonotone(g, source, Depth(g, source, x, d), d - 1);
    }
  }

  /* ---------------------------------------------------------------- what is found */

  /** A route of hops from x to y. */
  ghost predicate Route(q: Query, p: seq<nat>, x: nat, y: nat) {
    && p != [] && p[0] == x && p[|p| - 1] == y
    && forall i {:trigger p[i]} :: 0 <= i < |p| - 1 ==> Step(q.links, q.walk, q.minConfidence, p[i], p[i + 1])
  }

  lemma RouteIsPath(q: Query, p: seq<nat>, x: nat, y: nat)
    ensures Route(q, p, x, y) <==> IsPath(ArcsOf(Uncapped(q)), p) && Joins(p, x, y)
  {
    hide ArcsOf, Step;
    forall i | 0 <= i < |p| - 1
      ensures Step(q.links, q.walk, q.minConfidence, p[i], p[i + 1]) <==> p[i + 1] in Next(ArcsOf(Uncapped(q)), p[i])
    {
      HopIsStep(q, p[i], p[i + 1]);
    }
    if Route(q, p, x, y) {
      forall i {:trigger p[i]} | 0 <= i < |p| - 1 ensures p[i + 1] in Next(ArcsOf(Uncapped(q)), p[i]) {
        assert Step(q.links, q.walk, q.minConfidence, p[i], p[i + 1]);
      }
    }
    if IsPath(ArcsOf(Uncapped(q)), p) && Joins(p, x, y) {
      forall i {:trigger p[i]} | 0 <= i < |p| - 1 ensures Step(q.links, q.walk, q.minConfidence, p[i], p[i + 1]) {
        assert p[i + 1] in Next(ArcsOf(Uncapped(q)), p[i]);
      }
    }
  }

  /** Without a supernode, a search finds exactly the current CIs that a route of at most the depth
      leads to, at the length of a shortest one. */
  lemma FoundByRoutes(q: Query, present: set<nat>, source: nat, maxDepth: nat, x: nat)
    requires AllTruncated(q, source, maxDepth) == {}
    ensures x in FoundCis(q, present, source, maxDepth) <==>
              x in present && x != source && exists p :: Route(q, p, source, x) && |p| - 1 <= maxDepth
    ensures x in FoundCis(q, present, source, maxDepth) ==>
              && (exists p :: Route(q, p, source, x) && |p| - 1 == FoundCis(q, present, source, maxDepth)[x])
              && (forall p :: Route(q, p, source, x) ==> FoundCis(q, present, source, maxDepth)[x] <= |p| - 1)
  {
    hide ArcsOf, AllTruncated, Route, IsPath, Joins, Within, Depth;
    NothingTruncated(q, source, maxDepth);
    var g := ArcsOf(Uncapped(q));
    forall p ensures Route(q, p, source, x) <==> IsPath(g, p) && Joins(p, source, x) { RouteIsPath(q, p, source, x); }
    WithinIsPaths(g, source, x, maxDepth);
    if x in Distances(g, source, maxDepth) { DistanceIsShortest(g, source, maxDepth, x); }
  }

  /** With supernodes, whatever it reports is still joined by a route of that length. */
  lemma FoundIsReal(q: Query, present: set<nat>, source: nat, maxDepth: nat, x: nat)
    requires x in FoundCis(q, present, source, maxDepth)
    ensures x in present && x != source
    ensures exists p :: Route(q, p, source, x) && |p| - 1 == FoundCis(q, present, source, maxDepth)[x] <= maxDepth
  {
    hide ArcsOf, Route, IsPath, Joins, Within, Depth;
    var g := ArcsOf(q);
    var p := CappedRoute(q, source, x, maxDepth);
  }

  lemma CappedRoute(q: Query, source: nat, x: nat, maxDepth: nat) returns (p: seq<nat>)
    requires x in Distances(ArcsOf(q), source, maxDepth)
    ensures Route(q, p, source, x) && |p| - 1 == Distances(ArcsOf(q), source, maxDepth)[x] <= maxDepth
  {
    hide ArcsOf, Step, Neighbors;
    DistanceIsShortest(ArcsOf(q), source, maxDepth, x);
    p :| IsPath(ArcsOf(q), p) && Joins(p, source, x) && |p| - 1 == Distances(ArcsOf(q), source, maxDepth)[x];
    forall i {:trigger p[i]} | 0 <= i < |p| - 1 ensures Step(q.links, q.walk, q.minConfidence, p[i], p[i + 1]) {
      assert p[i + 1] in Next(ArcsOf(q), p[i]);
      UncappedExpansion(q, p[i]);
      HopIsStep(q, p[i], p[i + 1]);
    }
  }

  /** The upstream neighbourhood, which has no cap: the target at 0 and every current CI from which
      breakage spreads to it, as near as it does. */
  lemma NeighborhoodIs(links: seq<Link>, present: set<nat>, target: nat, maxDepth: nat, c: real, x: nat)
    ensures var near := NeighborhoodOf(UpstreamQuery(links, c), present, target, maxDepth);
            && target in near && near[target] == 0
            && (x != target ==>
                  (x in near <==> x in present && exists p :: Route(UpstreamQuery(links, c), p, target, x) && |p| - 1 <= maxDepth))
            && (x != target && x in near ==>
                  && (exists p :: Route(UpstreamQuery(links, c), p, target, x) && |p| - 1 == near[x])
                  && (forall p :: Route(UpstreamQuery(links, c), p, target, x) ==> near[x] <= |p| - 1))
  {
    hide ArcsOf, Route, FoundCis, Within;
    var q := UpstreamQuery(links, c);
    NoSupernodes(q, target, maxDepth);
    FoundByRoutes(q, present, target, maxDepth, x);
  }

  lemma NoSupernodes(q: Query, source: nat, maxDepth: nat)
    requires q.maxFanout.None?
    ensures AllTruncated(q, source, maxDepth) == {}
  {
    hide ArcsOf, Within, Distances, Neighbors;
  }
}
