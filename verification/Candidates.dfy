/** Generating fuzzy merge candidates
    (services/reconciliation/src/infra_twin/reconciliation/candidates.py). How alike two CIs are
    is a parameter: a symmetric score of two rows. */
module Candidates {
  import opened Model
  import opened Versions
  import opened Store
  import opened Merging
  import opened Repositories

  const CANDIDATE_THRESHOLD := 0.5

  type Likeness = (CiRow, CiRow) -> real

  ghost predicate Symmetric(score: Likeness) { forall x, y :: score(x, y) == score(y, x) }

  function SourcesOf(keys: map<SourceKey, nat>, id: nat): set<string> { set k | k in keys && keys[k] == id :: k.source }

  function AliasesOf(aliases: map<string, Alias>, id: nat): set<string> { set k | k in aliases && aliases[k].ciId == id }

  /** Two CIs of one type, each known to a source that the other is not known to, that share no
      alias and look alike. */
  predicate Eligible(db: Db, score: Likeness, x: CiRow, y: CiRow) {
    && x.key.ctype == y.key.ctype && x.id != y.id
    && SourcesOf(db.sourceKeys, x.id) - SourcesOf(db.sourceKeys, y.id) != {}
    && SourcesOf(db.sourceKeys, y.id) - SourcesOf(db.sourceKeys, x.id) != {}
    && AliasesOf(db.aliases, x.id) * AliasesOf(db.aliases, y.id) == {}
    && score(x, y) >= CANDIDATE_THRESHOLD
  }

  lemma EligibleIsSymmetric(db: Db, score: Likeness, x: CiRow, y: CiRow)
    requires Symmetric(score)
    ensures Eligible(db, score, x, y) <==> Eligible(db, score, y, x)
  {
    hide SourcesOf, AliasesOf;
    assert AliasesOf(db.aliases, x.id) * AliasesOf(db.aliases, y.id) == AliasesOf(db.aliases, y.id) * AliasesOf(db.aliases, x.id);
  }

  type Pair = (CiRow, CiRow)

  /** The pairs visited so far, each offered if it is eligible. */
  function OfferAll(db: Db, pairs: seq<Pair>, score: Likeness): Db {
    if pairs == [] then db
    else
      var mid, (x, y) := OfferAll(db, pairs[..|pairs| - 1], score), pairs[|pairs| - 1];
      if Eligible(db, score, x, y) then Offer(mid, x.id, y.id) else mid
  }

  /** The candidates list the pair of ids. */
  ghost predicate Has(candidates: map<nat, Candidate>, a: nat, b: nat) {
    exists i :: i in candidates && candidates[i].ciA == a && candidates[i].ciB == b
  }

  predicate IsPair(p: Pair, a: nat, b: nat) { AreIds(p.0.id, p.1.id, a, b) }

  /** Nothing but candidates is written, those that were there stay as they are, new ones are pending. */
  ghost predicate OnlyAdds(before: Db, after: Db) {
    && Tables(after) && Paired(after) && after == before.(candidates := after.candidates, nextId := after.nextId)
    && (forall i :: i in before.candidates ==> i in after.candidates && after.candidates[i] == before.candidates[i])
    && (forall i :: i in after.candidates && i !in before.candidates ==> after.candidates[i].status == Pending)
  }

  lemma AddsTrans(a: Db, b: Db, c: Db)
    requires OnlyAdds(a, b) && OnlyAdds(b, c)
    ensures OnlyAdds(a, c)
  {
    hide Tables, Paired;
  }

  predicate AreIds(x: nat, y: nat, a: nat, b: nat) { a < b && ((a == x && b == y) || (a == y && b == x)) }

  lemma OfferAdds(db: Db, x: nat, y: nat)
    requires Tables(db) && Paired(db)
    ensures OnlyAdds(db, Offer(db, x, y))
    ensures forall a, b :: Has(Offer(db, x, y).candidates, a, b) <==> Has(db.candidates, a, b) || AreIds(x, y, a, b)
  {
    hide Tables;
    OfferKeeps(db, x, y);
    var after := Offer(db, x, y).candidates;
    var (l, h) := if x <= y then (x, y) else (y, x);
    assert l != h ==> Has(after, l, h) by {
      if l != h && db.nextId in after && after != db.candidates { assert after[db.nextId] == Candidate(l, h, Pending); }
    }
    forall a, b | Has(db.candidates, a, b) ensures Has(after, a, b) {
      var i :| i in db.candidates && db.candidates[i].ciA == a && db.candidates[i].ciB == b;
      assert i in after && after[i] == db.candidates[i];
    }
  }

  lemma {:induction false} OfferAllAdds(db: Db, pairs: seq<Pair>, score: Likeness)
    requires Tables(db) && Paired(db)
    ensures OnlyAdds(db, OfferAll(db, pairs, score))
    ensures forall a, b :: Has(OfferAll(db, pairs, score).candidates, a, b) <==> Has(db.candidates, a, b) || AmongPairs(db, pairs, score, a, b)
    decreases |pairs|
  {
    hide Tables, Paired, Has, Eligible, Offer;
    if pairs != [] {
      var init, p := pairs[..|pairs| - 1], pairs[|pairs| - 1];
      OfferAllAdds(db, init, score);
      var mid := OfferAll(db, init, score);
      assert pairs == init + [p];
      forall a, b ensures AmongPairs(db, pairs, score, a, b) <==>
          AmongPairs(db, init, score, a, b) || (IsPair(p, a, b) && Eligible(db, score, p.0, p.1))
      {
        MorePairs(db, init, p, score, a, b);
      }
      hide AmongPairs;
      if Eligible(db, score, p.0, p.1) {
        OfferAdds(mid, p.0.id, p.1.id);
        AddsTrans(db, mid, Offer(mid, p.0.id, p.1.id));
      }
    }
  }

  ghost predicate AmongPairs(db: Db, pairs: seq<Pair>, score: Likeness, a: nat, b: nat) {
    exists p :: p in pairs && IsPair(p, a, b) && Eligible(db, score, p.0, p.1)
  }

  lemma MorePairs(db: Db, pairs: seq<Pair>, p: Pair, score: Likeness, a: nat, b: nat)
    ensures AmongPairs(db, pairs + [p], score, a, b) <==>
              AmongPairs(db, pairs, score, a, b) || (IsPair(p, a, b) && Eligible(db, score, p.0, p.1))
  {
    hide Eligible, IsPair;
    assert forall q :: q in pairs + [p] <==> q in pairs || q == p;
  }

  /** Every pair up to position (i, j) has been looked at. */
  ghost predicate Visited(rows: seq<CiRow>, pairs: seq<Pair>, i: nat, j: nat) {
    && (forall p, q :: 0 <= p < q < |rows| && (p < i || (p == i && q < j)) ==> (rows[p], rows[q]) in pairs)
    && (forall z :: z in pairs ==> z.0 in rows && z.1 in rows)
  }

  lemma VisitOne(rows: seq<CiRow>, pairs: seq<Pair>, i: nat, j: nat)
    requires Visited(rows, pairs, i, j) && i < j < |rows|
    ensures Visited(rows, pairs + [(rows[i], rows[j])], i, j + 1)
  {
  }

  ghost predicate Witnesses(db: Db, score: Likeness, a: nat, b: nat, x: CiRow, y: CiRow) {
    x in db.cis && x.Open() && x.id == a && y in db.cis && y.Open() && y.id == b && Eligible(db, score, x, y)
  }

  /** Two open CIs that the generation proposes. */
  ghost predicate Proposed(db: Db, score: Likeness, a: nat, b: nat) {
    a < b && exists x, y :: Witnesses(db, score, a, b, x, y)
  }

  /** The CI is known to a source that does not know the other one. */
  ghost predicate HasOwnSource(keys: map<SourceKey, nat>, a: nat, b: nat) {
    exists k :: k in keys && keys[k] == a && forall j :: j in keys && keys[j] == b ==> j.source != k.source
  }

  /** Which pairs are proposed, spelled out: one type, a source of its own for each, no shared alias
      key, and a score of at least one half. */
  lemma ProposedAre(db: Db, score: Likeness, a: nat, b: nat)
    ensures Proposed(db, score, a, b) <==>
      && a < b && HasOwnSource(db.sourceKeys, a, b) && HasOwnSource(db.sourceKeys, b, a)
      && (forall k :: k in db.aliases ==> !(db.aliases[k].ciId == a && db.aliases[k].ciId == b))
      && exists x, y :: x in db.cis && x.Open() && x.id == a && y in db.cis && y.Open() && y.id == b
                        && x.key.ctype == y.key.ctype && score(x, y) >= 0.5
  {
    OwnSource(db.sourceKeys, a, b);
    OwnSource(db.sourceKeys, b, a);
    hide HasOwnSource, SourcesOf;
    if a < b {
      assert AliasesOf(db.aliases, a) * AliasesOf(db.aliases, b) == {};
    }
    if Proposed(db, score, a, b) {
      var x, y :| Witnesses(db, score, a, b, x, y);
      assert x in db.cis && y in db.cis;
    }
    if a < b && HasOwnSource(db.sourceKeys, a, b) && HasOwnSource(db.sourceKeys, b, a) {
      if x, y :| x in db.cis && x.Open() && x.id == a && y in db.cis && y.Open() && y.id == b && x.key.ctype == y.key.ctype
                 && score(x, y) >= 0.5
      {
        assert Witnesses(db, score, a, b, x, y);
      }
    }
  }

  lemma OwnSource(keys: map<SourceKey, nat>, a: nat, b: nat)
    ensures HasOwnSource(keys, a, b) <==> SourcesOf(keys, a) - SourcesOf(keys, b) != {}
  {
    if HasOwnSource(keys, a, b) {
      var k :| k in keys && keys[k] == a && forall j :: j in keys && keys[j] == b ==> j.source != k.source;
      assert k.source in SourcesOf(keys, a) - SourcesOf(keys, b);
    }
    if s :| s in SourcesOf(keys, a) - SourcesOf(keys, b) {
      var k :| k in keys && keys[k] == a && k.source == s;
      forall j | j in keys && keys[j] == b ensures j.source != k.source { assert j.source in SourcesOf(keys, b); }
    }
  }

  lemma VisitedPair(rows: seq<CiRow>, pairs: seq<Pair>, x: CiRow, y: CiRow)
    requires Visited(rows, pairs, |rows|, |rows|) && x in rows && y in rows && x != y
    ensures (x, y) in pairs || (y, x) in pairs
  {
    var p :| 0 <= p < |rows| && rows[p] == x;
    var q :| 0 <= q < |rows| && rows[q] == y;
    if p < q { assert (rows[p], rows[q]) in pairs; } else { assert (rows[q], rows[p]) in pairs; }
  }

  lemma PairsAreProposed(db: Db, rows: seq<CiRow>, pairs: seq<Pair>, score: Likeness, a: nat, b: nat)
    requires Symmetric(score) && (forall z :: z in pairs ==> z.0 in rows && z.1 in rows)
    requires forall r :: r in rows ==> r in db.cis && r.Open()
    requires AmongPairs(db, pairs, score, a, b)
    ensures Proposed(db, score, a, b)
  {
    hide Eligible, Symmetric;
    var p :| p in pairs && IsPair(p, a, b) && Eligible(db, score, p.0, p.1);
    EligibleIsSymmetric(db, score, p.0, p.1);
    if p.0.id == a { assert Witnesses(db, score, a, b, p.0, p.1); } else { assert Witnesses(db, score, a, b, p.1, p.0); }
  }

  lemma ProposedArePairs(db: Db, rows: seq<CiRow>, pairs: seq<Pair>, score: Likeness, a: nat, b: nat)
    requires Symmetric(score) && Visited(rows, pairs, |rows|, |rows|)
    requires forall r :: r in db.cis && r.Open() ==> r in rows
    requires Proposed(db, score, a, b)
    ensures AmongPairs(db, pairs, score, a, b)
  {
    hide Eligible, Symmetric, Visited;
    var x, y :| Witnesses(db, score, a, b, x, y);
    VisitedPair(rows, pairs, x, y);
    EligibleIsSymmetric(db, score, x, y);
    if (x, y) in pairs { assert IsPair((x, y), a, b); } else { assert IsPair((y, x), a, b); }
  }

  lemma ProposedPairs(db: Db, rows: seq<CiRow>, pairs: seq<Pair>, score: Likeness, a: nat, b: nat)
    requires Symmetric(score) && Visited(rows, pairs, |rows|, |rows|)
    requires forall r :: r in rows <==> r in db.cis && r.Open()
    ensures AmongPairs(db, pairs, score, a, b) <==> Proposed(db, score, a, b)
  {
    hide Eligible, Symmetric, AmongPairs, Proposed;
    if AmongPairs(db, pairs, score, a, b) { PairsAreProposed(db, rows, pairs, score, a, b); }
    if Proposed(db, score, a, b) { ProposedArePairs(db, rows, pairs, score, a, b); }
  }

  lemma SameEligible(before: Db, after: Db, score: Likeness, x: CiRow, y: CiRow)
    requires OnlyAdds(before, after)
    ensures Eligible(after, score, x, y) == Eligible(before, score, x, y)
  {
    hide Tables, Paired;
  }

  /** After a generation the candidates are those that were there, untouched, and every proposed
      pair, pending if it is new. */
  method GenerateCandidates(conn: Connection, score: Likeness)
    requires Tables(conn.db) && Paired(conn.db) && Symmetric(score)
    modifies conn
    ensures OnlyAdds(old(conn.db), conn.db)
    ensures forall a, b :: Has(conn.db.candidates, a, b) <==> Has(old(conn.db).candidates, a, b) || Proposed(old(conn.db), score, a, b)
  {
    hide Tables, Paired, Eligible, Offer, Has, Visited, AmongPairs, Proposed, Symmetric, OnlyAdds;
    var rows := Listing(set r | r in conn.db.cis && r.Open());
    ghost var start := conn.db;
    ghost var pairs: seq<Pair> := [];
    NothingVisited(rows);
    for i := 0 to |rows|
      invariant conn.db == OfferAll(start, pairs, score) && Visited(rows, pairs, i, i + 1)
    {
      for j := i + 1 to |rows|
        invariant conn.db == OfferAll(start, pairs, score) && Visited(rows, pairs, i, j)
      {
        var x, y := rows[i], rows[j];
        VisitOne(rows, pairs, i, j);
        OfferAllAdds(start, pairs, score);
        SameEligible(start, conn.db, score, x, y);
        ghost var more := pairs + [(x, y)];
        assert more[..|more| - 1] == pairs;
        if Eligible(conn.db, score, x, y) { conn.db := Offer(conn.db, x.id, y.id); }
        pairs := more;
      }
      NextRow(rows, pairs, i);
    }
    OfferAllAdds(start, pairs, score);
    LastRow(rows, pairs);
    forall a, b ensures AmongPairs(start, pairs, score, a, b) <==> Proposed(start, score, a, b) {
      ProposedPairs(start, rows, pairs, score, a, b);
    }
  }

  lemma NothingVisited(rows: seq<CiRow>)
    ensures Visited(rows, [], 0, 1)
  {
  }

  lemma NextRow(rows: seq<CiRow>, pairs: seq<Pair>, i: nat)
    requires Visited(rows, pairs, i, |rows|) && i < |rows|
    ensures Visited(rows, pairs, i + 1, i + 2)
  {
  }

  lemma LastRow(rows: seq<CiRow>, pairs: seq<Pair>)
    requires Visited(rows, pairs, |rows|, |rows| + 1)
    ensures Visited(rows, pairs, |rows|, |rows|)
  {
  }
}
