/** Reference definitions for bounded searches: paths, distances and levels of a finite
    directed graph given by the successor set of each node. */
module Reach {

  type Arcs = map<nat, set<nat>>

  function Next(g: Arcs, x: nat): set<nat> { if x in g then g[x] else {} }

  ghost function Succ(g: Arcs, nodes: set<nat>): set<nat> {
    set x, y | x in nodes && y in Next(g, x) :: y
  }

  /** The nodes a walk of at most d hops reaches. */
  ghost function Within(g: Arcs, source: nat, d: nat): set<nat> {
    if d == 0 then {source} else Within(g, source, d - 1) + Succ(g, Within(g, source, d - 1))
  }

  ghost predicate IsPath(g: Arcs, p: seq<nat>) {
    p != [] && forall i {:trigger p[i]} :: 0 <= i < |p| - 1 ==> p[i + 1] in Next(g, p[i])
  }

  ghost predicate Joins(p: seq<nat>, x: nat, y: nat) { p != [] && p[0] == x && p[|p| - 1] == y }

  /** The least number of hops to x, for x within d hops. */
  ghost function Depth(g: Arcs, source: nat, x: nat, d: nat): (k: nat)
    requires x in Within(g, source, d)
    ensures k <= d && x in Within(g, source, k)
    ensures k > 0 ==> x !in Within(g, source, k - 1)
  {
    hide Within;
    if d > 0 && x in Within(g, source, d - 1) then Depth(g, source, x, d - 1) else d
  }

  /** Every node within maxDepth hops, with its distance. */
  ghost function Distances(g: Arcs, source: nat, maxDepth: nat): map<nat, nat> {
    map x | x in Within(g, source, maxDepth) :: Depth(g, source, x, maxDepth)
  }

  /* ---------------------------------------------------------------- paths and distances */

  lemma {:induction false} WithinMonotone(g: Arcs, source: nat, d: nat, e: nat)
    requires d <= e
    ensures Within(g, source, d) <= Within(g, source, e)
    decreases e
  {
    if d < e { WithinMonotone(g, source, d, e - 1); }
  }

  lemma {:induction false} WithinToPath(g: Arcs, source: nat, x: nat, d: nat) returns (p: seq<nat>)
    requires x in Within(g, source, d)
    ensures IsPath(g, p) && Joins(p, source, x) && |p| - 1 <= d
    decreases d
  {
    if d == 0 {
      p := [source];
    } else if x in Within(g, source, d - 1) {
      p := WithinToPath(g, source, x, d - 1);
    } else {
      var y :| y in Within(g, source, d - 1) && x in Next(g, y);
      var r := WithinToPath(g, source, y, d - 1);
      p := r + [x];
    }
  }

  lemma PathPrefix(g: Arcs, p: seq<nat>)
    requires IsPath(g, p) && |p| > 1
    ensures IsPath(g, p[..|p| - 1]) && p[|p| - 1] in Next(g, p[|p| - 2])
  {
    var r := p[..|p| - 1];
    forall i | 0 <= i < |r| - 1 ensures r[i + 1] in Next(g, r[i]) {
      assert p[i + 1] in Next(g, p[i]);
    }
    var n := |p| - 2;
    assert p[n + 1] in Next(g, p[n]);
  }

  lemma {:induction false} PathToWithin(g: Arcs, source: nat, x: nat, p: seq<nat>)
    requires IsPath(g, p) && Joins(p, source, x)
    ensures x in Within(g, source, |p| - 1)
    decreases |p|
  {
    if |p| > 1 {
      var r := p[..|p| - 1];
      PathPrefix(g, p);
      PathToWithin(g, source, r[|r| - 1], r);
    }
  }

  /** A node is within d hops exactly when a path of at most d hops joins the source to it. */
  lemma WithinIsPaths(g: Arcs, source: nat, x: nat, d: nat)
    ensures x in Within(g, source, d) <==> exists p :: IsPath(g, p) && Joins(p, source, x) && |p| - 1 <= d
  {
    if x in Within(g, source, d) {
      var p := WithinToPath(g, source, x, d);
    }
    if p :| IsPath(g, p) && Joins(p, source, x) && |p| - 1 <= d {
      PathToWithin(g, source, x, p);
      WithinMonotone(g, source, |p| - 1, d);
    }
  }

  /** A distance is attained by a path and beaten by none. */
  lemma DistanceIsShortest(g: Arcs, source: nat, maxDepth: nat, x: nat)
    requires x in Distances(g, source, maxDepth)
    ensures exists p :: IsPath(g, p) && Joins(p, source, x) && |p| - 1 == Distances(g, source, maxDepth)[x]
    ensures forall p :: IsPath(g, p) && Joins(p, source, x) ==> Distances(g, source, maxDepth)[x] <= |p| - 1
  {
    hide Within, IsPath;
    var k := Depth(g, source, x, maxDepth);
    var p := WithinToPath(g, source, x, k);
    if |p| - 1 < k {
      PathToWithin(g, source, x, p);
      WithinMonotone(g, source, |p| - 1, k - 1);
    }
    forall r | IsPath(g, r) && Joins(r, source, x) ensures k <= |r| - 1 {
      PathToWithin(g, source, x, r);
      if |r| - 1 < k { WithinMonotone(g, source, |r| - 1, k - 1); }
    }
  }

  lemma DepthUnique(g: Arcs, source: nat, x: nat, d: nat, k: nat)
    requires x in Within(g, source, d) && k <= d
    requires x in Within(g, source, k) && (k > 0 ==> x !in Within(g, source, k - 1))
    ensures Depth(g, source, x, d) == k
  {
    hide Within;
    var e := Depth(g, source, x, d);
    if e < k { WithinMonotone(g, source, e, k - 1); }
    if k < e { WithinMonotone(g, source, k, e - 1); }
  }

  /* ---------------------------------------------------------------- one level of a search */

  /** The nodes first reached at depth k. */
  ghost function Level(g: Arcs, source: nat, k: nat): set<nat> {
    if k == 0 then {source} else Within(g, source, k) - Within(g, source, k - 1)
  }

  /** What a search has recorded when depth k is complete and `reached` was met at depth k + 1. */
  ghost function Mark(g: Arcs, source: nat, k: nat, reached: set<nat>): map<nat, nat> {
    map x | x in Within(g, source, k) + reached ::
      if x in Within(g, source, k) then Depth(g, source, x, k) else k + 1
  }

  lemma MarkNone(g: Arcs, source: nat, k: nat)
    ensures Mark(g, source, k, {}) == Distances(g, source, k)
  {
  }

  lemma MarkOne(g: Arcs, source: nat, k: nat, reached: set<nat>, y: nat)
    ensures var m := Mark(g, source, k, reached);
            Mark(g, source, k, reached + {y}) == if y in m then m else m[y := k + 1]
  {
  }

  lemma SuccSplit(g: Arcs, a: set<nat>, b: set<nat>)
    ensures Succ(g, a + b) == Succ(g, a) + Succ(g, b)
  {
  }

  lemma SuccOne(g: Arcs, a: set<nat>, x: nat)
    ensures Succ(g, a + {x}) == Succ(g, a) + Next(g, x)
  {
  }

  lemma LevelStep(g: Arcs, source: nat, k: nat)
    ensures Within(g, source, k) + Succ(g, Level(g, source, k)) == Within(g, source, k + 1)
  {
    if k > 0 {
      var w, v := Within(g, source, k), Within(g, source, k - 1);
      assert w == v + Level(g, source, k);
      SuccSplit(g, v, Level(g, source, k));
    }
  }

  lemma MarkLevel(g: Arcs, source: nat, k: nat)
    ensures Mark(g, source, k, Succ(g, Level(g, source, k))) == Distances(g, source, k + 1)
    ensures Succ(g, Level(g, source, k)) - Within(g, source, k) == Level(g, source, k + 1)
  {
    LevelStep(g, source, k);
  }

  /** An empty level ends the search: deeper bounds find nothing more. */
  lemma {:induction false} Exhausted(g: Arcs, source: nat, k: nat, n: nat)
    requires Level(g, source, k) == {} && k <= n
    ensures Distances(g, source, n) == Distances(g, source, k)
    ensures Within(g, source, n) == Within(g, source, k)
    ensures Level(g, source, n) == {}
    decreases n
  {
    hide Within, Distances;
    if k < n {
      Exhausted(g, source, k, n - 1);
      LevelStep(g, source, n - 1);
      assert Succ(g, {}) == {};
      SameDepths(g, source, n - 1);
    }
  }

  lemma SameDepths(g: Arcs, source: nat, d: nat)
    requires Within(g, source, d + 1) == Within(g, source, d)
    ensures Distances(g, source, d + 1) == Distances(g, source, d)
  {
    hide Within;
    forall x | x in Within(g, source, d) ensures Depth(g, source, x, d + 1) == Depth(g, source, x, d) {
      DepthUnique(g, source, x, d + 1, Depth(g, source, x, d));
    }
  }

  lemma LevelDepth(g: Arcs, source: nat, k: nat, x: nat)
    requires x in Level(g, source, k)
    ensures x in Within(g, source, k) && Depth(g, source, x, k) == k
  {
  }

  /* ---------------------------------------------------------------- comparing graphs */

  /** Graphs that agree on the nodes a search expands give the same search. */
  lemma {:induction false} SameExpansion(g: Arcs, h: Arcs, source: nat, d: nat)
    requires forall x :: d > 0 && x in Within(g, source, d - 1) ==> Next(g, x) == Next(h, x)
    ensures Within(g, source, d) == Within(h, source, d)
    decreases d
  {
    if d > 0 {
      WithinMonotone(g, source, if d > 1 then d - 2 else 0, d - 1);
      SameExpansion(g, h, source, d - 1);
    }
  }

  ghost predicate Converse(g: Arcs, h: Arcs) {
    forall x, y :: y in Next(g, x) <==> x in Next(h, y)
  }

  function Reversed(p: seq<nat>): (r: seq<nat>)
    ensures |r| == |p| && forall i :: 0 <= i < |p| ==> r[i] == p[|p| - 1 - i]
  {
    seq(|p|, i requires 0 <= i < |p| => p[|p| - 1 - i])
  }

  lemma ReversedPath(g: Arcs, h: Arcs, p: seq<nat>, x: nat, y: nat)
    requires Converse(g, h) && IsPath(g, p) && Joins(p, x, y)
    ensures IsPath(h, Reversed(p)) && Joins(Reversed(p), y, x)
  {
    var r := Reversed(p);
    forall i | 0 <= i < |r| - 1 ensures r[i + 1] in Next(h, r[i]) {
      var j := |p| - 2 - i;
      assert p[j + 1] in Next(g, p[j]);
    }
  }

  /** x is reached from y in g exactly when y is reached from x against the arrows, as soon. */
  lemma ConverseWithin(g: Arcs, h: Arcs, x: nat, y: nat, d: nat)
    requires Converse(g, h)
    ensures x in Within(g, y, d) <==> y in Within(h, x, d)
  {
    if x in Within(g, y, d) {
      var p := WithinToPath(g, y, x, d);
      ReversedPath(g, h, p, y, x);
      PathToWithin(h, x, y, Reversed(p));
      WithinMonotone(h, x, |p| - 1, d);
    }
    if y in Within(h, x, d) {
      var p := WithinToPath(h, x, y, d);
      ReversedPath(h, g, p, x, y);
      PathToWithin(g, y, x, Reversed(p));
      WithinMonotone(g, y, |p| - 1, d);
    }
  }

  lemma ConverseDistance(g: Arcs, h: Arcs, x: nat, y: nat, d: nat)
    requires Converse(g, h)
    ensures x in Distances(g, y, d) <==> y in Distances(h, x, d)
    ensures x in Distances(g, y, d) ==> Distances(g, y, d)[x] == Distances(h, x, d)[y]
  {
    hide Within, Converse;
    ConverseWithin(g, h, x, y, d);
    if x in Within(g, y, d) {
      var k := Depth(g, y, x, d);
      ConverseWithin(g, h, x, y, k);
      if k > 0 { ConverseWithin(g, h, x, y, k - 1); }
      DepthUnique(h, x, y, d, k);
    }
  }
}
