/** What the graph queries say about the tables: the index that projection keeps
    (services/reconciliation/src/infra_twin/reconciliation/projection.py) read by the searches
    (services/query/src/infra_twin/query/). */
module LiveQueries {
  import opened Reach
  import opened Traversal
  import opened Queries
  import opened Versions
  import opened Store
  import Runs

  function LinkOf(k: EdgeKey, e: GraphEdge): Link { Link(k.etype, k.fromId, k.toId, e.confidence) }

  /** The relationships of the graph, in whatever order a query returns them. */
  ghost predicate ListsGraph(g: Graph, links: seq<Link>) {
    forall l :: l in links <==> exists k :: k in g.edges && LinkOf(k, g.edges[k]) == l
  }

  /** An open edge of the table between two CIs that are open. */
  ghost predicate OpenLink(db: Db, r: EdgeRow, l: Link) {
    && r in db.edges && r.Open() && r.key.fromId in OpenIds(db.cis) && r.key.toId in OpenIds(db.cis)
    && l == Link(r.key.etype, r.key.fromId, r.key.toId, r.data.confidence)
  }

  /** The searches walk exactly the open edges between open CIs. */
  lemma LinksAreOpenEdges(db: Db, links: seq<Link>, l: Link)
    requires Tables(db) && Agree(db) && ListsGraph(db.graph, links)
    ensures l in links <==> exists r :: OpenLink(db, r, l)
  {
    hide CiView, Coherent;
    var g := db.graph;
    assert g.edges == Live(EdgeView(db.edges), OpenIds(db.cis));
    if l in links {
      var k :| k in g.edges && LinkOf(k, g.edges[k]) == l;
      OpenMapRow(db.edges, k);
      assert OpenLink(db, OpenMap(db.edges)[k], l);
    }
    if r :| OpenLink(db, r, l) {
      OpenRow(db.edges, db.now, r);
      assert r.key in g.edges && LinkOf(r.key, g.edges[r.key]) == l;
    }
  }

  lemma EndpointsOpen(db: Db, links: seq<Link>)
    requires Tables(db) && Agree(db) && ListsGraph(db.graph, links)
    ensures Nodes(links) <= OpenIds(db.cis)
  {
    hide Tables, Agree, ListsGraph, OpenIds;
    forall l | l in links ensures l.fromId in OpenIds(db.cis) && l.toId in OpenIds(db.cis) {
      LinksAreOpenEdges(db, links, l);
      var r :| OpenLink(db, r, l);
    }
  }

  lemma NextIsEndpoint(q: Query, x: nat)
    ensures Next(ArcsOf(q), x) <= Nodes(q.links)
  {
    NextIsExpand(q, x);
    hide ArcsOf;
    forall h | h in Expand(q, x) ensures h.id in Nodes(q.links) {
      assert h in Neighbors(q, x);
    }
  }

  lemma {:induction false} WithinEndpoints(q: Query, source: nat, d: nat)
    ensures Within(ArcsOf(q), source, d) <= {source} + Nodes(q.links)
    decreases d
  {
    hide ArcsOf, Nodes;
    if d > 0 {
      WithinEndpoints(q, source, d - 1);
      forall x ensures Next(ArcsOf(q), x) <= Nodes(q.links) { NextIsEndpoint(q, x); }
    }
  }

  /** While index and tables agree, the presence filter of the queries drops nothing: every node
      a search finds is a current CI. */
  lemma NothingStale(db: Db, q: Query, source: nat, maxDepth: nat)
    requires Tables(db) && Agree(db) && ListsGraph(db.graph, q.links)
    ensures FoundCis(q, OpenIds(db.cis), source, maxDepth) == Distances(ArcsOf(q), source, maxDepth) - {source}
  {
    hide ArcsOf, Nodes, OpenIds, Tables, Agree, ListsGraph, Within;
    EndpointsOpen(db, q.links);
    WithinEndpoints(q, source, maxDepth);
    KeepsAll(q, OpenIds(db.cis), source, maxDepth);
  }

  lemma KeepsAll(q: Query, present: set<nat>, source: nat, maxDepth: nat)
    requires Within(ArcsOf(q), source, maxDepth) <= {source} + present
    ensures FoundCis(q, present, source, maxDepth) == Distances(ArcsOf(q), source, maxDepth) - {source}
  {
    hide ArcsOf, Within;
  }

  /** And so after every run in which no delta goes astray. */
  lemma NothingStaleAfterRuns(start: int, ts: seq<Runs.Transaction>, q: Query, source: nat, maxDepth: nat)
    requires Runs.Possible(start, ts) && Runs.NeverAstray(start, ts)
    requires ListsGraph(Runs.Run(start, ts).graph, q.links)
    ensures var db := Runs.Run(start, ts);
            FoundCis(q, OpenIds(db.cis), source, maxDepth) == Distances(ArcsOf(q), source, maxDepth) - {source}
  {
    hide Tables, Agree, ArcsOf, OpenIds, FoundCis, Distances, ListsGraph;
    Runs.EveryRun(start, ts);
    NothingStale(Runs.Run(start, ts), q, source, maxDepth);
  }
}
