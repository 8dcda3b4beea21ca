/** Bounded breadth-first searches over the projected graph
    (services/query/src/infra_twin/query/blast_radius.py, reachability.py, whatif.py, rca.py).

    The two loops of the program, without and with predecessors, are proved to find exactly
    the shortest distances of module Reach in the graph whose neighbour lists are cut to the
    fan-out cap, and to report exactly the nodes that were cut. */
module Traversal {
  import opened Model
  import opened Reach

  /** A relationship of the graph; a query returns matches in the order of the list. */
  datatype Link = Link(etype: EdgeType, fromId: nat, toId: nat, confidence: real)

  /** A node and the type of the edge that joins it to another. */
  datatype Hop = Hop(id: nat, etype: EdgeType)

  /** Impact: what a failure of the node breaks. Upstream: what may have broken the node.
      Access: what can reach the node. */
  datatype Walk = Impact | Upstream | Access

  /** One search: the graph, the kind of walk, the confidence bound and the fan-out cap
      (root-cause analysis has none). */
  datatype Query = Query(links: seq<Link>, walk: Walk, minConfidence: real, maxFanout: Option<nat>)

  datatype Supernode = Supernode(id: nat, degree: nat, depth: nat)

  const OUTGOING_IMPACT := {CONTAINS}
  const INCOMING_IMPACT := {DEPENDS_ON, RUNS_ON, ROUTES_TO, EXPOSES}
  const REACHABILITY_EDGE_TYPES := {CONNECTS_TO, ROUTES_TO, HAS_ACCESS_TO, EXPOSES}

  /* ---------------------------------------------------------------- neighbours */

  predicate Matches(l: Link, node: nat, outward: bool, types: set<EdgeType>, minConfidence: real) {
    && l.etype in types && l.confidence >= minConfidence
    && (if outward then l.fromId == node else l.toId == node)
  }

  function Far(l: Link, outward: bool): Hop {
    Hop(if outward then l.toId else l.fromId, l.etype)
  }

  /** The rows of one cypher match. */
  function Rows(links: seq<Link>, node: nat, outward: bool, types: set<EdgeType>, minConfidence: real): (r: seq<Hop>)
    ensures forall h :: h in r <==>
      exists l :: l in links && Matches(l, node, outward, types, minConfidence) && Far(l, outward) == h
  {
    if links == [] then []
    else
      var rest := Rows(links[1..], node, outward, types, minConfidence);
      assert forall l :: l in links <==> l == links[0] || l in links[1..];
      if Matches(links[0], node, outward, types, minConfidence) then [Far(links[0], outward)] + rest else rest
  }

  function Neighbors(q: Query, node: nat): seq<Hop> {
    match q.walk
    case Impact =>
      Rows(q.links, node, true, OUTGOING_IMPACT, q.minConfidence) +
      Rows(q.links, node, false, INCOMING_IMPACT, q.minConfidence)
    case Upstream =>
      Rows(q.links, node, false, OUTGOING_IMPACT, q.minConfidence) +
      Rows(q.links, node, true, INCOMING_IMPACT, q.minConfidence)
    case Access =>
      Rows(q.links, node, false, REACHABILITY_EDGE_TYPES, q.minConfidence)
  }

  ghost function IdSet(hops: seq<Hop>): set<nat> { set h | h in hops :: h.id }

  predicate HasId(hops: seq<Hop>, id: nat) { exists h :: h in hops && h.id == id }

  /** Keep the first row of every neighbour, in order. */
  function FirstById(rows: seq<Hop>): (r: seq<Hop>)
    ensures |r| <= |rows|
    ensures forall h :: h in r ==> h in rows
    ensures IdSet(r) == IdSet(rows)
    ensures forall i, j :: 0 <= i < j < |r| ==> r[i].id != r[j].id
  {
    if rows == [] then []
    else
      var init := FirstById(rows[..|rows| - 1]);
      var last := rows[|rows| - 1];
      assert rows == rows[..|rows| - 1] + [last];
      assert IdSet(rows) == IdSet(rows[..|rows| - 1]) + {last.id};
      assert IdSet(init + [last]) == IdSet(init) + {last.id};
      if HasId(init, last.id) then init else init + [last]
  }

  function Degree(q: Query, node: nat): nat { |FirstById(Neighbors(q, node))| }

  predicate OverCap(q: Query, node: nat) { q.maxFanout.Some? && Degree(q, node) > q.maxFanout.value }

  /** The neighbours a loop follows: deduplicated and cut to the cap. */
  function Expand(q: Query, node: nat): seq<Hop> {
    var hops := FirstById(Neighbors(q, node));
    if OverCap(q, node) then hops[..q.maxFanout.value] else hops
  }

  ghost function Nodes(links: seq<Link>): set<nat> {
    (set l | l in links :: l.fromId) + (set l | l in links :: l.toId)
  }

  /** The graph a search walks: neighbour lists cut to the cap. */
  ghost function ArcsOf(q: Query): Arcs { map x | x in Nodes(q.links) :: IdSet(Expand(q, x)) }

  lemma NextIsExpand(q: Query, x: nat)
    ensures Next(ArcsOf(q), x) == IdSet(Expand(q, x))
  {
    if x !in Nodes(q.links) {
      forall h | h in Neighbors(q, x) ensures false {
      }
      assert IdSet(Neighbors(q, x)) == {};
    }
  }

  /* ---------------------------------------------------------------- the state of a search */

  ghost function Elements<T>(s: seq<T>): set<T> { set x | x in s }

  ghost predicate Distinct<T>(s: seq<T>) { forall i, j :: 0 <= i < j < |s| ==> s[i] != s[j] }

  lemma AppendDistinct<T>(s: seq<T>, x: T)
    ensures Elements(s + [x]) == Elements(s) + {x}
    ensures Distinct(s) && x !in s ==> Distinct(s + [x])
  {
    assert forall y :: y in s + [x] <==> y in s || y == x;
  }

  /** The supernode records due for the expanded nodes. */
  ghost function Truncated(q: Query, nodes: set<nat>, distances: map<nat, nat>): set<Supernode> {
    set x | x in nodes && x in distances && OverCap(q, x) :: Supernode(x, Degree(q, x), distances[x])
  }

  /** The records of a whole search: all nodes nearer than the bound were expanded. */
  ghost function AllTruncated(q: Query, source: nat, maxDepth: nat): set<Supernode> {
    if maxDepth == 0 then {}
    else Truncated(q, Within(ArcsOf(q), source, maxDepth - 1), Distances(ArcsOf(q), source, maxDepth))
  }

  ghost function Expanded(g: Arcs, source: nat, k: nat): set<nat> {
    if k == 0 then {} else Within(g, source, k - 1)
  }

  /** Depth k is complete. */
  ghost predicate Complete(q: Query, source: nat, k: nat, visited: map<nat, nat>, frontier: seq<nat>,
                           discovered: seq<nat>, supernodes: seq<Supernode>)
  {
    var g := ArcsOf(q);
    && visited == Distances(g, source, k)
    && Elements(frontier) == Level(g, source, k) && Distinct(frontier)
    && Elements(discovered) == visited.Keys - {source} && Distinct(discovered)
    && Elements(supernodes) == Truncated(q, Expanded(g, source, k), visited) && Distinct(supernodes)
  }

  /** Depth k is complete, `reached` was met from it, and `expanded` are the nodes done with. */
  ghost predicate Partial(q: Query, source: nat, k: nat, reached: set<nat>, expanded: set<nat>,
                          visited: map<nat, nat>, next: seq<nat>, discovered: seq<nat>, supernodes: seq<Supernode>)
  {
    var g := ArcsOf(q);
    && visited == Mark(g, source, k, reached)
    && Elements(next) == reached - Within(g, source, k) && Distinct(next)
    && Elements(discovered) == visited.Keys - {source} && Distinct(discovered)
    && Elements(supernodes) == Truncated(q, expanded, Distances(g, source, k)) && Distinct(supernodes)
  }

  lemma AtStart(q: Query, source: nat)
    ensures Complete(q, source, 0, map[source := 0], [source], [], [])
  {
  }

  lemma OpenLevel(q: Query, source: nat, k: nat, visited: map<nat, nat>, frontier: seq<nat>,
                  discovered: seq<nat>, supernodes: seq<Supernode>)
    requires Complete(q, source, k, visited, frontier, discovered, supernodes)
    ensures Partial(q, source, k, {}, Expanded(ArcsOf(q), source, k), visited, [], discovered, supernodes)
  {
    hide Within, ArcsOf;
    MarkNone(ArcsOf(q), source, k);
  }

  lemma MeetNode(q: Query, source: nat, k: nat, reached: set<nat>, expanded: set<nat>, visited: map<nat, nat>,
                 next: seq<nat>, discovered: seq<nat>, supernodes: seq<Supernode>, y: nat)
    requires Partial(q, source, k, reached, expanded, visited, next, discovered, supernodes)
    ensures if y in visited then Partial(q, source, k, reached + {y}, expanded, visited, next, discovered, supernodes)
            else Partial(q, source, k, reached + {y}, expanded, visited[y := k + 1], next + [y], discovered + [y], supernodes)
  {
    hide Within, ArcsOf, Truncated, Distances;
    var g := ArcsOf(q);
    MarkOne(g, source, k, reached, y);
    AppendDistinct(next, y);
    AppendDistinct(discovered, y);
    SourceWithin(g, source, k);
    assert visited.Keys == Within(g, source, k) + reached;
  }

  lemma {:induction false} SourceWithin(g: Arcs, source: nat, k: nat)
    ensures source in Within(g, source, k)
    decreases k
  {
    if k > 0 { SourceWithin(g, source, k - 1); }
  }

  lemma RecordNode(q: Query, source: nat, k: nat, reached: set<nat>, expanded: set<nat>, visited: map<nat, nat>,
                   next: seq<nat>, discovered: seq<nat>, supernodes: seq<Supernode>, x: nat)
    requires Partial(q, source, k, reached, expanded, visited, next, discovered, supernodes)
    requires x in Within(ArcsOf(q), source, k) && x !in expanded
    ensures x in visited
    ensures Partial(q, source, k, reached, expanded + {x}, visited, next, discovered,
                    if OverCap(q, x) then supernodes + [Supernode(x, Degree(q, x), visited[x])] else supernodes)
  {
    hide Within, ArcsOf, OverCap, Degree;
    var d := Distances(ArcsOf(q), source, k);
    assert visited[x] == d[x];
    var s := Supernode(x, Degree(q, x), visited[x]);
    assert Truncated(q, expanded + {x}, d) == Truncated(q, expanded, d) + (if OverCap(q, x) then {s} else {});
    assert s !in Truncated(q, expanded, d);
    assert s !in Elements(supernodes);
    AppendDistinct(supernodes, s);
  }

  lemma CloseLevel(q: Query, source: nat, k: nat, reached: set<nat>, expanded: set<nat>, visited: map<nat, nat>,
                   next: seq<nat>, discovered: seq<nat>, supernodes: seq<Supernode>)
    requires Partial(q, source, k, reached, expanded, visited, next, discovered, supernodes)
    requires reached == Succ(ArcsOf(q), Level(ArcsOf(q), source, k))
    requires expanded == Expanded(ArcsOf(q), source, k) + Level(ArcsOf(q), source, k)
    ensures Complete(q, source, k + 1, visited, next, discovered, supernodes)
  {
    var g := ArcsOf(q);
    MarkLevel(g, source, k);
    assert expanded == Within(g, source, k) by {
      if k > 0 { WithinMonotone(g, source, k - 1, k); }
    }
    hide Within, ArcsOf, OverCap, Degree;
    var d, e := Distances(g, source, k), Distances(g, source, k + 1);
    forall x | x in Within(g, source, k) ensures x in d && x in e && d[x] == e[x] {
      assert e == Mark(g, source, k, reached);
    }
    assert Truncated(q, expanded, d) == Truncated(q, expanded, e);
  }

  lemma Finished(q: Query, source: nat, k: nat, maxDepth: nat, visited: map<nat, nat>, frontier: seq<nat>,
                 discovered: seq<nat>, supernodes: seq<Supernode>)
    requires Complete(q, source, k, visited, frontier, discovered, supernodes)
    requires k <= maxDepth && (k == maxDepth || frontier == [])
    ensures visited == Distances(ArcsOf(q), source, maxDepth)
    ensures Elements(supernodes) == AllTruncated(q, source, maxDepth) && Distinct(supernodes)
    ensures Elements(discovered) == visited.Keys - {source} && Distinct(discovered)
  {
    var g := ArcsOf(q);
    if k < maxDepth {
      assert Level(g, source, k) == {};
      Exhausted(g, source, k, maxDepth);
      Exhausted(g, source, k, maxDepth - 1);
      if k > 0 {
        assert Within(g, source, k) == Within(g, source, k - 1) by {
          WithinMonotone(g, source, k - 1, k);
        }
      }
    }
  }

  /* ---------------------------------------------------------------- positions in the loops */

  ghost function ReachedBy(q: Query, frontier: seq<nat>, i: nat): set<nat>
    requires i <= |frontier|
  {
    Succ(ArcsOf(q), Elements(frontier[..i]))
  }

  ghost function DoneBy(q: Query, source: nat, k: nat, frontier: seq<nat>, i: nat): set<nat>
    requires i <= |frontier|
  {
    Expanded(ArcsOf(q), source, k) + Elements(frontier[..i])
  }

  ghost predicate IsFrontier(q: Query, source: nat, k: nat, frontier: seq<nat>) {
    Elements(frontier) == Level(ArcsOf(q), source, k) && Distinct(frontier)
  }

  lemma FirstNode(q: Query, source: nat, k: nat, frontier: seq<nat>)
    ensures ReachedBy(q, frontier, 0) == {} && DoneBy(q, source, k, frontier, 0) == Expanded(ArcsOf(q), source, k)
  {
  }

  lemma PrefixElements<T>(s: seq<T>, i: nat)
    requires i < |s|
    ensures Elements(s[..i + 1]) == Elements(s[..i]) + {s[i]}
  {
    assert s[..i + 1] == s[..i] + [s[i]];
    AppendDistinct(s[..i], s[i]);
  }

  lemma PrefixIds(hops: seq<Hop>, j: nat)
    requires j < |hops|
    ensures IdSet(hops[..j + 1]) == IdSet(hops[..j]) + {hops[j].id}
  {
    assert hops[..j + 1] == hops[..j] + [hops[j]];
  }

  lemma NextNode(q: Query, source: nat, k: nat, frontier: seq<nat>, i: nat)
    requires i < |frontier| && IsFrontier(q, source, k, frontier)
    ensures frontier[i] in Within(ArcsOf(q), source, k) && frontier[i] !in DoneBy(q, source, k, frontier, i)
    ensures DoneBy(q, source, k, frontier, i + 1) == DoneBy(q, source, k, frontier, i) + {frontier[i]}
    ensures ReachedBy(q, frontier, i + 1) == ReachedBy(q, frontier, i) + IdSet(Expand(q, frontier[i]))
  {
    hide Within, Expand, ArcsOf;
    SourceWithin(ArcsOf(q), source, k);
    PrefixElements(frontier, i);
    NextIsExpand(q, frontier[i]);
    SuccOne(ArcsOf(q), Elements(frontier[..i]), frontier[i]);
    assert frontier[i] in Level(ArcsOf(q), source, k);
  }

  lemma LastNode(q: Query, source: nat, k: nat, frontier: seq<nat>)
    requires IsFrontier(q, source, k, frontier)
    ensures ReachedBy(q, frontier, |frontier|) == Succ(ArcsOf(q), Level(ArcsOf(q), source, k))
    ensures DoneBy(q, source, k, frontier, |frontier|) == Expanded(ArcsOf(q), source, k) + Level(ArcsOf(q), source, k)
  {
    assert frontier[..|frontier|] == frontier;
  }

  /* ---------------------------------------------------------------- the loops */

  /** The search of blast_radius.py and rca.py. */
  method Search(q: Query, source: nat, maxDepth: nat)
    returns (visited: map<nat, nat>, discovered: seq<nat>, supernodes: seq<Supernode>)
    ensures visited == Distances(ArcsOf(q), source, maxDepth)
    ensures Elements(discovered) == visited.Keys - {source} && Distinct(discovered)
    ensures Elements(supernodes) == AllTruncated(q, source, maxDepth) && Distinct(supernodes)
  {
    hide Partial, ArcsOf, Neighbors, ReachedBy, DoneBy, Distances, AllTruncated, Level, Truncated;
    visited, discovered, supernodes := map[source := 0], [], [];
    var frontier := [source];
    var depth := 1;
    AtStart(q, source);
    while depth <= maxDepth
      invariant 1 <= depth <= maxDepth + 1
      invariant Complete(q, source, depth - 1, visited, frontier, discovered, supernodes)
    {
      var nextFrontier: seq<nat> := [];
      var i := 0;
      OpenLevel(q, source, depth - 1, visited, frontier, discovered, supernodes);
      FirstNode(q, source, depth - 1, frontier);
      while i < |frontier|
        invariant 0 <= i <= |frontier|
        invariant Partial(q, source, depth - 1, ReachedBy(q, frontier, i), DoneBy(q, source, depth - 1, frontier, i),
                          visited, nextFrontier, discovered, supernodes)
      {
        var node := frontier[i];
        NextNode(q, source, depth - 1, frontier, i);
        ghost var reached := ReachedBy(q, frontier, i);
        ghost var expanded := DoneBy(q, source, depth - 1, frontier, i);
        RecordNode(q, source, depth - 1, reached, expanded, visited, nextFrontier, discovered, supernodes, node);
        var neighbors := FirstById(Neighbors(q, node));
        if q.maxFanout.Some? && |neighbors| > q.maxFanout.value {
          supernodes := supernodes + [Supernode(node, |neighbors|, visited[node])];
          neighbors := neighbors[..q.maxFanout.value];
        }
        var j := 0;
        assert reached + IdSet(neighbors[..0]) == reached;
        while j < |neighbors|
          invariant 0 <= j <= |neighbors|
          invariant Partial(q, source, depth - 1, reached + IdSet(neighbors[..j]), expanded + {node},
                            visited, nextFrontier, discovered, supernodes)
        {
          var neighbor := neighbors[j].id;
          MeetNode(q, source, depth - 1, reached + IdSet(neighbors[..j]), expanded + {node},
                   visited, nextFrontier, discovered, supernodes, neighbor);
          PrefixIds(neighbors, j);
          assert reached + IdSet(neighbors[..j + 1]) == reached + IdSet(neighbors[..j]) + {neighbor};
          if neighbor !in visited {
            visited := visited[neighbor := depth];
            nextFrontier := nextFrontier + [neighbor];
            discovered := discovered + [neighbor];
          }
          j := j + 1;
        }
        assert neighbors[..j] == neighbors;
        i := i + 1;
      }
      LastNode(q, source, depth - 1, frontier);
      CloseLevel(q, source, depth - 1, ReachedBy(q, frontier, i), DoneBy(q, source, depth - 1, frontier, i),
                 visited, nextFrontier, discovered, supernodes);
      frontier := nextFrontier;
      depth := depth + 1;
      if frontier == [] { break; }
    }
    Finished(q, source, depth - 1, maxDepth, visited, frontier, discovered, supernodes);
  }

  /** Every node found has a predecessor one hop nearer, over a neighbour row the search followed. */
  ghost predicate Traced(q: Query, source: nat, visited: map<nat, nat>, predecessor: map<nat, Hop>) {
    && source in visited && visited[source] == 0
    && predecessor.Keys == visited.Keys - {source}
    && forall x :: x in predecessor ==> FollowedHop(q, visited, x, predecessor[x])
  }

  ghost predicate FollowedHop(q: Query, visited: map<nat, nat>, x: nat, p: Hop) {
    && x in visited && p.id in visited && visited[p.id] + 1 == visited[x]
    && Hop(x, p.etype) in Expand(q, p.id)
  }

  lemma TraceNode(q: Query, source: nat, visited: map<nat, nat>, predecessor: map<nat, Hop>, node: nat, h: Hop)
    requires Traced(q, source, visited, predecessor)
    requires node in visited && h.id !in visited && h in Expand(q, node)
    ensures Traced(q, source, visited[h.id := visited[node] + 1], predecessor[h.id := Hop(node, h.etype)])
  {
    hide Expand;
    var v, p := visited[h.id := visited[node] + 1], predecessor[h.id := Hop(node, h.etype)];
    forall x | x in p ensures FollowedHop(q, v, x, p[x]) {
      if x != h.id { assert FollowedHop(q, visited, x, predecessor[x]); }
    }
  }

  lemma FrontierDepth(q: Query, source: nat, k: nat, reached: set<nat>, expanded: set<nat>, visited: map<nat, nat>,
                      next: seq<nat>, discovered: seq<nat>, supernodes: seq<Supernode>, frontier: seq<nat>, i: nat)
    requires Partial(q, source, k, reached, expanded, visited, next, discovered, supernodes)
    requires IsFrontier(q, source, k, frontier) && i < |frontier|
    ensures frontier[i] in visited && visited[frontier[i]] == k
  {
    assert frontier[i] in Level(ArcsOf(q), source, k);
    LevelDepth(ArcsOf(q), source, k, frontier[i]);
  }

  /* ---------------------------------------------------------------- who finds a node first */

  /** A row met while a node was expanded. */
  datatype Meeting = Meeting(node: nat, hop: Hop)

  ghost function Rowwise(node: nat, hops: seq<Hop>): seq<Meeting> {
    if hops == [] then [] else Rowwise(node, hops[..|hops| - 1]) + [Meeting(node, hops[|hops| - 1])]
  }

  /** What the scan of a frontier meets, in order. */
  ghost function Meetings(q: Query, frontier: seq<nat>): seq<Meeting> {
    if frontier == [] then []
    else
      var node := frontier[|frontier| - 1];
      Meetings(q, frontier[..|frontier| - 1]) + Rowwise(node, Expand(q, node))
  }

  /** The nodes met for the first time, in order. */
  ghost function NewIds(ms: seq<Meeting>, seen: set<nat>): seq<nat> {
    if ms == [] then []
    else
      var init, id := NewIds(ms[..|ms| - 1], seen), ms[|ms| - 1].hop.id;
      if id in seen || id in init then init else init + [id]
  }

  /** Each of them with the node it was first met from. */
  ghost function NewParents(ms: seq<Meeting>, seen: set<nat>): map<nat, Hop> {
    if ms == [] then map[]
    else
      var init, m := NewParents(ms[..|ms| - 1], seen), ms[|ms| - 1];
      if m.hop.id in seen || m.hop.id in init then init else init[m.hop.id := Hop(m.node, m.hop.etype)]
  }

  /** The nodes at distance k in the order the search finds them. */
  ghost function FrontierAt(q: Query, source: nat, k: nat): seq<nat> {
    if k == 0 then [source]
    else NewIds(Meetings(q, FrontierAt(q, source, k - 1)), Within(ArcsOf(q), source, k - 1))
  }

  /** The search tree: every node with the node it was first met from. */
  ghost function TreeOf(q: Query, source: nat, k: nat): map<nat, Hop> {
    if k == 0 then map[]
    else TreeOf(q, source, k - 1)
         + NewParents(Meetings(q, FrontierAt(q, source, k - 1)), Within(ArcsOf(q), source, k - 1))
  }

  /** The parent is the first node of the scan with a row to the child, and that row gives the type. */
  lemma {:induction false} FirstFinder(ms: seq<Meeting>, seen: set<nat>, x: nat) returns (i: nat)
    requires x in NewParents(ms, seen)
    ensures i < |ms| && x !in seen && ms[i].hop.id == x && NewParents(ms, seen)[x] == Hop(ms[i].node, ms[i].hop.etype)
    ensures forall j :: 0 <= j < i ==> ms[j].hop.id != x
    decreases |ms|
  {
    var init := ms[..|ms| - 1];
    if x in NewParents(init, seen) {
      i := FirstFinder(init, seen, x);
      assert forall j :: 0 <= j < i ==> ms[j] == init[j];
    } else {
      i := |ms| - 1;
      forall j | 0 <= j < i ensures ms[j].hop.id != x {
        assert ms[j] == init[j];
        if init[j].hop.id == x { MetIsFound(init, seen, j); }
      }
    }
  }

  lemma {:induction false} MetIsFound(ms: seq<Meeting>, seen: set<nat>, j: nat)
    requires j < |ms| && ms[j].hop.id !in seen
    ensures ms[j].hop.id in NewParents(ms, seen)
    decreases |ms|
  {
    if j < |ms| - 1 { MetIsFound(ms[..|ms| - 1], seen, j); }
  }

  /** Level k is done: its frontier and the tree so far. */
  ghost predicate Grown(q: Query, source: nat, k: nat, frontier: seq<nat>, predecessor: map<nat, Hop>) {
    frontier == FrontierAt(q, source, k) && predecessor == TreeOf(q, source, k)
  }

  /** Within level k, having met ms. */
  ghost predicate Growing(q: Query, source: nat, k: nat, ms: seq<Meeting>, visited: set<nat>, next: seq<nat>,
                          predecessor: map<nat, Hop>)
  {
    var seen := Within(ArcsOf(q), source, k);
    && next == NewIds(ms, seen) && predecessor == TreeOf(q, source, k) + NewParents(ms, seen)
    && NewParents(ms, seen).Keys == Elements(next) && visited == seen + Elements(next)
  }

  lemma GrowStart(q: Query, source: nat, k: nat, frontier: seq<nat>, predecessor: map<nat, Hop>)
    requires Grown(q, source, k, frontier, predecessor)
    ensures Growing(q, source, k, [], Within(ArcsOf(q), source, k), [], predecessor)
  {
    hide ArcsOf, Within, TreeOf, FrontierAt;
    assert TreeOf(q, source, k) + map[] == TreeOf(q, source, k);
  }

  lemma GrowMeet(q: Query, source: nat, k: nat, ms: seq<Meeting>, visited: set<nat>, next: seq<nat>,
                 predecessor: map<nat, Hop>, m: Meeting)
    requires Growing(q, source, k, ms, visited, next, predecessor)
    ensures if m.hop.id in visited then Growing(q, source, k, ms + [m], visited, next, predecessor)
            else Growing(q, source, k, ms + [m], visited + {m.hop.id}, next + [m.hop.id],
                         predecessor[m.hop.id := Hop(m.node, m.hop.etype)])
  {
    hide ArcsOf, Within, TreeOf, FrontierAt;
    assert (ms + [m])[..|ms + [m]| - 1] == ms;
    AppendDistinct(next, m.hop.id);
    assert m.hop.id in next <==> m.hop.id in Elements(next);
  }

  lemma GrowEnd(q: Query, source: nat, k: nat, frontier: seq<nat>, ms: seq<Meeting>, visited: set<nat>, next: seq<nat>,
                predecessor: map<nat, Hop>)
    requires frontier == FrontierAt(q, source, k) && ms == Meetings(q, frontier)
    requires Growing(q, source, k, ms, visited, next, predecessor)
    ensures Grown(q, source, k + 1, next, predecessor)
  {
    hide ArcsOf, Within, Meetings, NewIds, NewParents;
  }

  /** Once a frontier is empty the tree stops growing. */
  lemma {:induction false} TreeStops(q: Query, source: nat, k: nat, n: nat)
    requires FrontierAt(q, source, k) == [] && k <= n
    ensures FrontierAt(q, source, n) == [] && TreeOf(q, source, n) == TreeOf(q, source, k)
    decreases n
  {
    hide FrontierAt, TreeOf;
    if k < n {
      TreeStops(q, source, k, n - 1);
      EmptyFrontier(q, source, n);
    }
  }

  lemma EmptyFrontier(q: Query, source: nat, n: nat)
    requires n > 0 && FrontierAt(q, source, n - 1) == []
    ensures FrontierAt(q, source, n) == [] && TreeOf(q, source, n) == TreeOf(q, source, n - 1)
  {
    hide ArcsOf, Within;
    var seen := Within(ArcsOf(q), source, n - 1);
    assert Meetings(q, []) == [] && NewParents([], seen) == map[] && NewIds([], seen) == [];
    assert TreeOf(q, source, n - 1) + map[] == TreeOf(q, source, n - 1);
    hide NewIds, NewParents, Meetings;
  }

  lemma MeetingsStep(q: Query, frontier: seq<nat>, i: nat)
    requires i < |frontier|
    ensures Meetings(q, frontier[..i + 1]) == Meetings(q, frontier[..i]) + Rowwise(frontier[i], Expand(q, frontier[i]))
  {
    hide Expand;
    assert frontier[..i + 1][..i] == frontier[..i];
  }

  lemma RowwiseStep(node: nat, hops: seq<Hop>, j: nat)
    requires j < |hops|
    ensures Rowwise(node, hops[..j + 1]) == Rowwise(node, hops[..j]) + [Meeting(node, hops[j])]
  {
    assert hops[..j + 1][..j] == hops[..j];
  }

  /* ---------------------------------------------------------------- the loop with predecessors */

  /** Everything the loop knows within level k. */
  ghost predicate Midway(q: Query, source: nat, k: nat, reached: set<nat>, expanded: set<nat>, ms: seq<Meeting>, visited: map<nat, nat>,
                         predecessor: map<nat, Hop>, next: seq<nat>, discovered: seq<nat>, supernodes: seq<Supernode>)
  {
    && Partial(q, source, k, reached, expanded, visited, next, discovered, supernodes)
    && Traced(q, source, visited, predecessor) && Growing(q, source, k, ms, visited.Keys, next, predecessor)
  }

  ghost predicate Between(q: Query, source: nat, k: nat, visited: map<nat, nat>, predecessor: map<nat, Hop>, frontier: seq<nat>,
                          discovered: seq<nat>, supernodes: seq<Supernode>)
  {
    && Complete(q, source, k, visited, frontier, discovered, supernodes)
    && Traced(q, source, visited, predecessor) && Grown(q, source, k, frontier, predecessor)
  }

  lemma BetweenAtStart(q: Query, source: nat)
    ensures Between(q, source, 0, map[source := 0], map[], [source], [], [])
  {
    AtStart(q, source);
    TracedAlone(q, source);
    hide Complete, Traced, ArcsOf;
  }

  lemma EnterLevel(q: Query, source: nat, k: nat, visited: map<nat, nat>, predecessor: map<nat, Hop>, frontier: seq<nat>,
                   discovered: seq<nat>, supernodes: seq<Supernode>)
    requires Between(q, source, k, visited, predecessor, frontier, discovered, supernodes)
    ensures IsFrontier(q, source, k, frontier)
    ensures Midway(q, source, k, ReachedBy(q, frontier, 0), DoneBy(q, source, k, frontier, 0), Meetings(q, frontier[..0]), visited, predecessor,
                   [], discovered, supernodes)
  {
    OpenLevel(q, source, k, visited, frontier, discovered, supernodes);
    FirstNode(q, source, k, frontier);
    GrowStart(q, source, k, frontier, predecessor);
    assert visited.Keys == Within(ArcsOf(q), source, k);
    hide Partial, Traced, ArcsOf, Within, Growing, Truncated, Level;
  }

  lemma LeaveLevel(q: Query, source: nat, k: nat, visited: map<nat, nat>, predecessor: map<nat, Hop>, frontier: seq<nat>,
                   next: seq<nat>, discovered: seq<nat>, supernodes: seq<Supernode>)
    requires IsFrontier(q, source, k, frontier) && frontier == FrontierAt(q, source, k)
    requires Midway(q, source, k, ReachedBy(q, frontier, |frontier|), DoneBy(q, source, k, frontier, |frontier|),
                    Meetings(q, frontier[..|frontier|]), visited, predecessor, next, discovered, supernodes)
    ensures Between(q, source, k + 1, visited, predecessor, next, discovered, supernodes)
  {
    hide Partial, Traced, ArcsOf, Within, Growing, Grown, Complete, IsFrontier, ReachedBy, DoneBy, Meetings, Level, Expanded;
    assert frontier[..|frontier|] == frontier;
    LastNode(q, source, k, frontier);
    CloseLevel(q, source, k, ReachedBy(q, frontier, |frontier|), DoneBy(q, source, k, frontier, |frontier|),
               visited, next, discovered, supernodes);
    GrowEnd(q, source, k, frontier, Meetings(q, frontier), visited.Keys, next, predecessor);
  }

  lemma MidRecord(q: Query, source: nat, k: nat, reached: set<nat>, expanded: set<nat>, ms: seq<Meeting>, visited: map<nat, nat>,
                  predecessor: map<nat, Hop>, next: seq<nat>, discovered: seq<nat>, supernodes: seq<Supernode>, x: nat)
    requires Midway(q, source, k, reached, expanded, ms, visited, predecessor, next, discovered, supernodes)
    requires x in Within(ArcsOf(q), source, k) && x !in expanded
    ensures x in visited
    ensures Midway(q, source, k, reached, expanded + {x}, ms, visited, predecessor, next, discovered,
                   if OverCap(q, x) then supernodes + [Supernode(x, Degree(q, x), visited[x])] else supernodes)
  {
    hide Partial, Traced, Growing, ArcsOf, Within, OverCap, Degree;
    RecordNode(q, source, k, reached, expanded, visited, next, discovered, supernodes, x);
  }

  lemma MidMeet(q: Query, source: nat, k: nat, reached: set<nat>, expanded: set<nat>, ms: seq<Meeting>, visited: map<nat, nat>,
                predecessor: map<nat, Hop>, next: seq<nat>, discovered: seq<nat>, supernodes: seq<Supernode>,
                frontier: seq<nat>, i: nat, h: Hop)
    requires Midway(q, source, k, reached, expanded, ms, visited, predecessor, next, discovered, supernodes)
    requires IsFrontier(q, source, k, frontier) && i < |frontier| && h in Expand(q, frontier[i])
    ensures var more := ms + [Meeting(frontier[i], h)];
            if h.id in visited
            then Midway(q, source, k, reached + {h.id}, expanded, more, visited, predecessor, next, discovered, supernodes)
            else Midway(q, source, k, reached + {h.id}, expanded, more, visited[h.id := k + 1],
                        predecessor[h.id := Hop(frontier[i], h.etype)], next + [h.id], discovered + [h.id], supernodes)
  {
    hide Partial, Traced, Growing, ArcsOf, Within, IsFrontier, Expand;
    MeetNode(q, source, k, reached, expanded, visited, next, discovered, supernodes, h.id);
    GrowMeet(q, source, k, ms, visited.Keys, next, predecessor, Meeting(frontier[i], h));
    if h.id !in visited {
      FrontierDepth(q, source, k, reached, expanded, visited, next, discovered, supernodes, frontier, i);
      TraceNode(q, source, visited, predecessor, frontier[i], h);
      assert visited[h.id := k + 1].Keys == visited.Keys + {h.id};
    }
  }

  /** The search of reachability.py and whatif.py: the same loop with predecessors. */
  method TracedSearch(q: Query, source: nat, maxDepth: nat)
    returns (visited: map<nat, nat>, predecessor: map<nat, Hop>, discovered: seq<nat>, supernodes: seq<Supernode>)
    ensures visited == Distances(ArcsOf(q), source, maxDepth)
    ensures Traced(q, source, visited, predecessor) && predecessor == TreeOf(q, source, maxDepth)
    ensures Elements(discovered) == visited.Keys - {source} && Distinct(discovered)
    ensures Elements(supernodes) == AllTruncated(q, source, maxDepth) && Distinct(supernodes)
  {
    hide Midway, Between, ArcsOf, Neighbors, ReachedBy, DoneBy, Distances, AllTruncated, Traced, Meetings, Rowwise, TreeOf, FrontierAt,
         IsFrontier, Within, IdSet, FirstById;
    visited, predecessor, discovered, supernodes := map[source := 0], map[], [], [];
    var frontier := [source];
    var depth := 1;
    BetweenAtStart(q, source);
    while depth <= maxDepth
      invariant 1 <= depth <= maxDepth + 1
      invariant Between(q, source, depth - 1, visited, predecessor, frontier, discovered, supernodes)
    {
      var nextFrontier: seq<nat> := [];
      var i := 0;
      EnterLevel(q, source, depth - 1, visited, predecessor, frontier, discovered, supernodes);
      FrontierIs(q, source, depth - 1, visited, predecessor, frontier, discovered, supernodes);
      while i < |frontier|
        invariant 0 <= i <= |frontier|
        invariant Midway(q, source, depth - 1, ReachedBy(q, frontier, i), DoneBy(q, source, depth - 1, frontier, i),
                         Meetings(q, frontier[..i]), visited, predecessor, nextFrontier, discovered, supernodes)
      {
        var node := frontier[i];
        NextNode(q, source, depth - 1, frontier, i);
        MeetingsStep(q, frontier, i);
        ghost var reached, ms := ReachedBy(q, frontier, i), Meetings(q, frontier[..i]);
        ghost var expanded := DoneBy(q, source, depth - 1, frontier, i) + {node};
        MidRecord(q, source, depth - 1, reached, DoneBy(q, source, depth - 1, frontier, i), ms, visited, predecessor, nextFrontier,
                  discovered, supernodes, node);
        var neighborPairs := FirstById(Neighbors(q, node));
        if q.maxFanout.Some? && |neighborPairs| > q.maxFanout.value {
          supernodes := supernodes + [Supernode(node, |neighborPairs|, visited[node])];
          neighborPairs := neighborPairs[..q.maxFanout.value];
        }
        assert neighborPairs == Expand(q, node);
        hide Expand, OverCap, Degree;
        var j := 0;
        NothingMet(q, node, neighborPairs, reached, ms);
        while j < |neighborPairs|
          invariant 0 <= j <= |neighborPairs|
          invariant Midway(q, source, depth - 1, reached + IdSet(neighborPairs[..j]), expanded, ms + Rowwise(node, neighborPairs[..j]),
                           visited, predecessor, nextFrontier, discovered, supernodes)
        {
          var neighbor := neighborPairs[j];
          MidMeet(q, source, depth - 1, reached + IdSet(neighborPairs[..j]), expanded, ms + Rowwise(node, neighborPairs[..j]),
                  visited, predecessor, nextFrontier, discovered, supernodes, frontier, i, neighbor);
          MetOneMore(node, neighborPairs, j, reached, ms);
          if neighbor.id !in visited {
            visited := visited[neighbor.id := depth];
            predecessor := predecessor[neighbor.id := Hop(node, neighbor.etype)];
            nextFrontier := nextFrontier + [neighbor.id];
            discovered := discovered + [neighbor.id];
          }
          j := j + 1;
        }
        assert neighborPairs[..j] == neighborPairs;
        i := i + 1;
      }
      LeaveLevel(q, source, depth - 1, visited, predecessor, frontier, nextFrontier, discovered, supernodes);
      frontier := nextFrontier;
      depth := depth + 1;
      if frontier == [] { break; }
    }
    TracedFinished(q, source, depth - 1, maxDepth, visited, predecessor, frontier, discovered, supernodes);
  }

  lemma FrontierIs(q: Query, source: nat, k: nat, visited: map<nat, nat>, predecessor: map<nat, Hop>, frontier: seq<nat>,
                   discovered: seq<nat>, supernodes: seq<Supernode>)
    requires Between(q, source, k, visited, predecessor, frontier, discovered, supernodes)
    ensures frontier == FrontierAt(q, source, k)
  {
    hide Complete, Traced;
  }

  lemma NothingMet(q: Query, node: nat, hops: seq<Hop>, reached: set<nat>, ms: seq<Meeting>)
    ensures reached + IdSet(hops[..0]) == reached && ms + Rowwise(node, hops[..0]) == ms
  {
  }

  lemma MetOneMore(node: nat, hops: seq<Hop>, j: nat, reached: set<nat>, ms: seq<Meeting>)
    requires j < |hops|
    ensures reached + IdSet(hops[..j + 1]) == reached + IdSet(hops[..j]) + {hops[j].id}
    ensures ms + Rowwise(node, hops[..j + 1]) == ms + Rowwise(node, hops[..j]) + [Meeting(node, hops[j])]
  {
    PrefixIds(hops, j);
    RowwiseStep(node, hops, j);
    hide IdSet, Rowwise;
  }

  lemma TracedFinished(q: Query, source: nat, k: nat, maxDepth: nat, visited: map<nat, nat>, predecessor: map<nat, Hop>,
                       frontier: seq<nat>, discovered: seq<nat>, supernodes: seq<Supernode>)
    requires Between(q, source, k, visited, predecessor, frontier, discovered, supernodes)
    requires k <= maxDepth && (k == maxDepth || frontier == [])
    ensures visited == Distances(ArcsOf(q), source, maxDepth)
    ensures Traced(q, source, visited, predecessor) && predecessor == TreeOf(q, source, maxDepth)
    ensures Elements(supernodes) == AllTruncated(q, source, maxDepth) && Distinct(supernodes)
    ensures Elements(discovered) == visited.Keys - {source} && Distinct(discovered)
  {
    hide Complete, Traced, TreeOf, FrontierAt, ArcsOf, Distances, AllTruncated, Elements, Distinct;
    Finished(q, source, k, maxDepth, visited, frontier, discovered, supernodes);
    if k < maxDepth { TreeStops(q, source, k, maxDepth); }
  }

  lemma TracedAlone(q: Query, source: nat)
    ensures Traced(q, source, map[source := 0], map[])
  {
  }

  /* ---------------------------------------------------------------- predecessor paths */

  /** A hop of a reported path, in the direction the report walks it. */
  datatype PathHop = PathHop(etype: EdgeType, fromId: nat, toId: nat)

  /** The hops from node back to the source of the search. */
  ghost function Backtrack(q: Query, source: nat, visited: map<nat, nat>, predecessor: map<nat, Hop>, node: nat)
    : (hops: seq<PathHop>)
    requires Traced(q, source, visited, predecessor) && node in visited
    ensures |hops| == visited[node]
    decreases visited[node]
  {
    if node !in predecessor then []
    else
      var p := predecessor[node];
      assert FollowedHop(q, visited, node, p);
      [PathHop(p.etype, node, p.id)] + Backtrack(q, source, visited, predecessor, p.id)
  }

  /** Each hop starts where the one before ended, and every one is a row the search followed. */
  ghost predicate IsChain(q: Query, hops: seq<PathHop>, x: nat, y: nat) {
    && (if hops == [] then x == y else hops[0].fromId == x && hops[|hops| - 1].toId == y)
    && (forall i {:trigger hops[i]} :: 0 <= i < |hops| - 1 ==> hops[i].toId == hops[i + 1].fromId)
    && (forall i :: 0 <= i < |hops| ==> Hop(hops[i].fromId, hops[i].etype) in Expand(q, hops[i].toId))
  }

  lemma {:induction false} BacktrackIsChain(q: Query, source: nat, visited: map<nat, nat>, predecessor: map<nat, Hop>, node: nat)
    requires Traced(q, source, visited, predecessor) && node in visited
    ensures IsChain(q, Backtrack(q, source, visited, predecessor, node), node, source)
    decreases visited[node]
  {
    hide Expand;
    if node in predecessor {
      var p := predecessor[node];
      assert FollowedHop(q, visited, node, p);
      BacktrackIsChain(q, source, visited, predecessor, p.id);
      var rest := Backtrack(q, source, visited, predecessor, p.id);
      var hops := [PathHop(p.etype, node, p.id)] + rest;
      forall i | 0 <= i < |hops| - 1 ensures hops[i].toId == hops[i + 1].fromId {
        if i > 0 { assert rest[i - 1].toId == rest[i - 1 + 1].fromId; }
      }
      forall i | 0 <= i < |hops| ensures Hop(hops[i].fromId, hops[i].etype) in Expand(q, hops[i].toId) {
        if i > 0 { assert hops[i] == rest[i - 1]; }
      }
    }
  }

  lemma BacktrackStep(q: Query, source: nat, visited: map<nat, nat>, predecessor: map<nat, Hop>, node: nat)
    requires Traced(q, source, visited, predecessor) && node in predecessor
    ensures var p := predecessor[node];
            && node in visited && p.id in visited && visited[p.id] + 1 == visited[node]
            && Backtrack(q, source, visited, predecessor, node)
               == [PathHop(p.etype, node, p.id)] + Backtrack(q, source, visited, predecessor, p.id)
  {
    assert FollowedHop(q, visited, node, predecessor[node]);
    hide Expand;
  }

  lemma BacktrackEnd(q: Query, source: nat, visited: map<nat, nat>, predecessor: map<nat, Hop>, node: nat)
    requires Traced(q, source, visited, predecessor) && node in visited && node !in predecessor
    ensures Backtrack(q, source, visited, predecessor, node) == []
  {
  }

  /** The walk over the predecessor map; it ends because each step is one hop nearer. */
  method WalkBack(q: Query, source: nat, visited: map<nat, nat>, predecessor: map<nat, Hop>, node: nat)
    returns (hops: seq<PathHop>)
    requires Traced(q, source, visited, predecessor) && node in visited
    ensures hops == Backtrack(q, source, visited, predecessor, node)
    ensures |hops| == visited[node] && IsChain(q, hops, node, source)
  {
    hide Traced, Backtrack, IsChain;
    hops := [];
    var cur := node;
    while cur in predecessor
      invariant cur in visited
      invariant hops + Backtrack(q, source, visited, predecessor, cur) == Backtrack(q, source, visited, predecessor, node)
      decreases visited[cur]
    {
      BacktrackStep(q, source, visited, predecessor, cur);
      var p := predecessor[cur];
      hops := hops + [PathHop(p.etype, cur, p.id)];
      cur := p.id;
    }
    BacktrackEnd(q, source, visited, predecessor, cur);
    BacktrackIsChain(q, source, visited, predecessor, node);
  }
}
