/** The history retention sweep (services/reconciliation/src/infra_twin/reconciliation/retention.py):
    old closed versions collapse into one aggregate per entity; nothing else is ever deleted. */
module Retention {
  import opened Model
  import opened Versions

  /** One row of history_aggregates. */
  datatype Aggregate = Aggregate(entityId: nat, versionCount: nat, earliestValidFrom: int, latestValidTo: int)

  datatype Report = Report(versionsCollapsed: nat, aggregatesWritten: nat, retainedCurrent: nat,
                           retainedBoundary: nat, eligible: nat)

  /* ---------------------------------------------------------------- what a sweep removes */

  predicate Old<K(==), P(==)>(r: Version<K, P>, horizon: int) { r.validTo.Some? && r.validTo.value < horizon }

  /** The most recent closed version of an entity. */
  predicate IsBoundary<K(==), P(==)>(rows: Rows<K, P>, r: Version<K, P>) {
    r.validTo.Some? && forall s :: s in rows && s.id == r.id && s.validTo.Some? ==> s.validFrom <= r.validFrom
  }

  predicate Removed<K(==), P(==)>(rows: Rows<K, P>, r: Version<K, P>, horizon: int) {
    r in rows && Old(r, horizon) && !IsBoundary(rows, r)
  }

  function Collapsible<K(==), P(==)>(rows: Rows<K, P>, horizon: int): Rows<K, P> {
    set r | r in rows && Removed(rows, r, horizon)
  }

  function Swept<K(==), P(==)>(rows: Rows<K, P>, horizon: int): Rows<K, P> { rows - Collapsible(rows, horizon) }

  function VersionsOf<K(==), P(==)>(rows: Rows<K, P>, id: nat): Rows<K, P> { set r | r in rows && r.id == id }

  ghost predicate IsAggregate<K, P>(c: Rows<K, P>, id: nat, a: Aggregate) {
    && a.entityId == id && a.versionCount == |c|
    && (exists r :: r in c && r.validFrom == a.earliestValidFrom)
    && (exists r :: r in c && r.validTo == Some(a.latestValidTo))
    && (forall r :: r in c ==> a.earliestValidFrom <= r.validFrom && r.validTo.Some? && r.validTo.value <= a.latestValidTo)
  }

  /* ---------------------------------------------------------------- the shape of the removed part */

  /** What goes is older than everything that stays: a prefix of the chain. */
  lemma RemovedFirst<K, P>(rows: Rows<K, P>, now: int, horizon: int, c: Version<K, P>, s: Version<K, P>)
    requires Coherent(rows, now) && Removed(rows, c, horizon)
    requires s in Swept(rows, horizon) && s.id == c.id
    ensures Before(c, s) && c.validFrom < s.validFrom
  {
    var b :| b in rows && b.id == c.id && b.validTo.Some? && b.validFrom > c.validFrom;
    assert Before(c, b);
    if s.validTo.Some? && s.validTo.value < horizon {
      assert IsBoundary(rows, s);
      assert b.validFrom <= s.validFrom;
    } else if s.Open() {
      LastVersion(rows, now, s);
    }
  }

  lemma RemovedIsSucceeded<K, P>(rows: Rows<K, P>, now: int, horizon: int, c: Version<K, P>)
    requires Coherent(rows, now) && Removed(rows, c, horizon)
    ensures Succeeded(rows, c)
    ensures c.validFrom < c.validTo.value
  {
    var b :| b in rows && b.id == c.id && b.validTo.Some? && b.validFrom > c.validFrom;
    assert Succeeded(rows, c);
    var t :| t in rows && t.id == c.id && t.validFrom == c.validTo.value && t != c;
  }

  /** The survivors are still a coherent history. */
  lemma SweptCoherent<K, P>(rows: Rows<K, P>, now: int, horizon: int)
    requires Coherent(rows, now)
    ensures Coherent(Swept(rows, horizon), now)
  {
    var after := Swept(rows, horizon);
    forall r, s | r in after && s in after && r.id == s.id && r.validFrom < s.validFrom
      ensures Succeeded(after, r)
    {
      assert Succeeded(rows, r);
      var t :| t in rows && t.id == r.id && t.validFrom == r.validTo.value && t != r;
      if Removed(rows, t, horizon) {
        RemovedFirst(rows, now, horizon, t, r);
      }
      assert t in after;
    }
  }

  /** Sweeping again at the same horizon finds nothing. */
  lemma SweepIdempotent<K, P>(rows: Rows<K, P>, horizon: int)
    ensures Collapsible(Swept(rows, horizon), horizon) == {}
    ensures Swept(Swept(rows, horizon), horizon) == Swept(rows, horizon)
  {
    var after := Swept(rows, horizon);
    forall r | r in after && Old(r, horizon) ensures IsBoundary(after, r) {
      assert IsBoundary(rows, r);
    }
  }

  /* ---------------------------------------------------------------- invisible after the horizon */

  /** Reads at or after the horizon, and the current state, do not notice a sweep. */
  lemma SweepInvisible<K, P>(rows: Rows<K, P>, now: int, horizon: int, ts: int)
    requires Coherent(rows, now)
    ensures ts >= horizon ==> AsOf(Swept(rows, horizon), ts) == AsOf(rows, ts)
    ensures OpenMap(Swept(rows, horizon)) == OpenMap(rows)
  {
    SweptCoherent(rows, now, horizon);
    var after := Swept(rows, horizon);
    forall k | k in OpenMap(rows) ensures OpenMap(rows)[k] in after { OpenMapRow(rows, k); }
    hide Coherent;
    OpenMapIs(after, now, OpenMap(rows));
  }

  /** Only closed rows that ended before the horizon are deleted, never the last of an entity. */
  lemma SweepKeeps<K, P>(rows: Rows<K, P>, now: int, horizon: int, r: Version<K, P>)
    requires Coherent(rows, now) && r in rows && r !in Swept(rows, horizon)
    ensures Old(r, horizon)
    ensures exists s :: s in Swept(rows, horizon) && s.id == r.id && Before(r, s)
  {
    RemovedIsSucceeded(rows, now, horizon, r);
    assert r in ClosedOf(rows, r.id);
    var s := BoundaryExists(rows, r.id);
    RemovedFirst(rows, now, horizon, r, s);
  }

  /** Exactly what goes: a version that ended before the horizon and is not the last closed one of
      its entity. */
  lemma SweptExactly<K, P>(rows: Rows<K, P>, horizon: int, r: Version<K, P>)
    ensures r in Swept(rows, horizon) <==>
              && r in rows
              && (r.validTo.None? || r.validTo.value >= horizon
                  || forall s :: s in rows && s.id == r.id && s.validTo.Some? ==> s.validFrom <= r.validFrom)
  {
  }

  lemma {:induction false} Latest<K, P>(rows: Rows<K, P>) returns (l: Version<K, P>)
    requires rows != {}
    ensures l in rows && forall r :: r in rows ==> r.validFrom <= l.validFrom
    decreases rows
  {
    var r :| r in rows;
    l := r;
    if rows != {r} {
      assert rows - {r} != {} by { assert rows == rows - {r} + {r}; }
      var m := Latest(rows - {r});
      if r.validFrom <= m.validFrom { l := m; }
    }
  }

  ghost function ClosedOf<K, P>(rows: Rows<K, P>, id: nat): Rows<K, P> {
    set r | r in rows && r.id == id && r.validTo.Some?
  }

  lemma BoundaryExists<K, P>(rows: Rows<K, P>, id: nat) returns (b: Version<K, P>)
    requires ClosedOf(rows, id) != {}
    ensures b in rows && b.id == id && IsBoundary(rows, b)
  {
    b := Latest(ClosedOf(rows, id));
    forall s | s in rows && s.id == id && s.validTo.Some? ensures s.validFrom <= b.validFrom {
      assert s in ClosedOf(rows, id);
    }
  }

  /* ---------------------------------------------------------------- aggregates tile the past */

  /** The history of an entity that is still in the table begins at t. */
  ghost predicate StartsAt<K, P>(rows: Rows<K, P>, id: nat, t: int) {
    && (exists r :: r in rows && r.id == id && r.validFrom == t)
    && (forall r :: r in rows && r.id == id ==> t <= r.validFrom)
  }

  function OfEntity(aggregates: seq<Aggregate>, id: nat): seq<Aggregate> {
    if aggregates == [] then []
    else
      var init := OfEntity(aggregates[..|aggregates| - 1], id);
      var last := aggregates[|aggregates| - 1];
      if last.entityId == id then init + [last] else init
  }

  function TotalCount(aggregates: seq<Aggregate>): nat {
    if aggregates == [] then 0
    else TotalCount(aggregates[..|aggregates| - 1]) + aggregates[|aggregates| - 1].versionCount
  }

  /** Aggregates of one entity abut, and the last one ends where the surviving rows begin. */
  ghost predicate Tiles<K, P>(rows: Rows<K, P>, id: nat, tiles: seq<Aggregate>) {
    && (forall i {:trigger tiles[i]} :: 0 <= i < |tiles| - 1 ==> tiles[i].latestValidTo == tiles[i + 1].earliestValidFrom)
    && (tiles != [] ==> StartsAt(rows, id, tiles[|tiles| - 1].latestValidTo))
  }

  ghost predicate Tiled<K, P>(rows: Rows<K, P>, aggregates: seq<Aggregate>) {
    forall id :: Tiles(rows, id, OfEntity(aggregates, id))
  }

  /** The removed part of one entity. */
  function Gone<K(==), P(==)>(rows: Rows<K, P>, id: nat, horizon: int): Rows<K, P> {
    set r | r in VersionsOf(rows, id) && Removed(rows, r, horizon)
  }

  /** The aggregate of a sweep begins where the history began and ends where it begins now. */
  lemma AggregateSpans<K, P>(rows: Rows<K, P>, now: int, horizon: int, id: nat, a: Aggregate)
    requires Coherent(rows, now) && IsAggregate(Gone(rows, id, horizon), id, a)
    ensures StartsAt(rows, id, a.earliestValidFrom) && StartsAt(Swept(rows, horizon), id, a.latestValidTo)
  {
    var gone, after := Gone(rows, id, horizon), Swept(rows, horizon);
    var first :| first in gone && first.validFrom == a.earliestValidFrom;
    var last :| last in gone && last.validTo == Some(a.latestValidTo);
    forall r | r in rows && r.id == id ensures a.earliestValidFrom <= r.validFrom {
      if r in gone {
      } else {
        assert r in after;
        RemovedFirst(rows, now, horizon, first, r);
      }
    }
    RemovedIsSucceeded(rows, now, horizon, last);
    var t :| t in rows && t.id == id && t.validFrom == last.validTo.value && t != last;
    if Removed(rows, t, horizon) {
      assert t in gone;
      RemovedIsSucceeded(rows, now, horizon, t);
    }
    assert t in after;
    forall r | r in after && r.id == id ensures a.latestValidTo <= r.validFrom {
      RemovedFirst(rows, now, horizon, last, r);
    }
  }

  /** It counts the versions of the entity that are gone. */
  lemma AggregateCounts<K, P>(rows: Rows<K, P>, horizon: int, id: nat, a: Aggregate)
    requires IsAggregate(Gone(rows, id, horizon), id, a)
    ensures a.entityId == id
    ensures a.versionCount == |(set r | r in rows && r.id == id) - (set r | r in Swept(rows, horizon) && r.id == id)|
  {
    assert (set r | r in rows && r.id == id) - (set r | r in Swept(rows, horizon) && r.id == id) == Gone(rows, id, horizon);
  }

  /** What one sweep appends for one entity. */
  ghost predicate WroteOne<K, P>(rows: Rows<K, P>, horizon: int, id: nat, tiles: seq<Aggregate>) {
    if Gone(rows, id, horizon) == {} then tiles == []
    else |tiles| == 1 && IsAggregate(Gone(rows, id, horizon), id, tiles[0])
  }

  ghost predicate Wrote<K, P>(rows: Rows<K, P>, horizon: int, written: seq<Aggregate>) {
    forall id :: WroteOne(rows, horizon, id, OfEntity(written, id))
  }

  lemma {:induction false} OfEntityConcat(a: seq<Aggregate>, b: seq<Aggregate>, id: nat)
    ensures OfEntity(a + b, id) == OfEntity(a, id) + OfEntity(b, id)
    decreases |b|
  {
    if b == [] {
      assert a + b == a;
    } else {
      assert (a + b)[..|a + b| - 1] == a + b[..|b| - 1];
      OfEntityConcat(a, b[..|b| - 1], id);
    }
  }

  lemma {:induction false} TotalConcat(a: seq<Aggregate>, b: seq<Aggregate>)
    ensures TotalCount(a + b) == TotalCount(a) + TotalCount(b)
    decreases |b|
  {
    if b == [] {
      assert a + b == a;
    } else {
      assert (a + b)[..|a + b| - 1] == a + b[..|b| - 1];
      TotalConcat(a, b[..|b| - 1]);
    }
  }

  lemma StartUnique<K, P>(rows: Rows<K, P>, id: nat, t: int, u: int)
    requires StartsAt(rows, id, t) && StartsAt(rows, id, u)
    ensures t == u
  {
  }

  /** A sweep keeps the tiling of every entity. */
  lemma SweepTilesOne<K, P>(rows: Rows<K, P>, now: int, horizon: int, id: nat, tiles: seq<Aggregate>, more: seq<Aggregate>)
    requires Coherent(rows, now) && Tiles(rows, id, tiles) && WroteOne(rows, horizon, id, more)
    ensures Tiles(Swept(rows, horizon), id, tiles + more)
  {
    hide Coherent, IsAggregate, StartsAt, Swept, Gone;
    if Gone(rows, id, horizon) == {} {
      NothingGone(rows, horizon, id);
      assert tiles + more == tiles;
    } else {
      AggregateSpans(rows, now, horizon, id, more[0]);
      if tiles != [] { StartUnique(rows, id, tiles[|tiles| - 1].latestValidTo, more[0].earliestValidFrom); }
      TilesAppend(Swept(rows, horizon), id, tiles, more[0]);
      assert more == [more[0]];
    }
  }

  lemma NothingGone<K, P>(rows: Rows<K, P>, horizon: int, id: nat)
    requires Gone(rows, id, horizon) == {}
    ensures VersionsOf(Swept(rows, horizon), id) == VersionsOf(rows, id)
    ensures forall t :: StartsAt(rows, id, t) ==> StartsAt(Swept(rows, horizon), id, t)
  {
    forall r | r in rows && r.id == id ensures r in Swept(rows, horizon) {
      assert Removed(rows, r, horizon) ==> r in Gone(rows, id, horizon);
    }
  }

  lemma TilesAppend<K, P>(rows: Rows<K, P>, id: nat, tiles: seq<Aggregate>, a: Aggregate)
    requires forall i {:trigger tiles[i]} :: 0 <= i < |tiles| - 1 ==> tiles[i].latestValidTo == tiles[i + 1].earliestValidFrom
    requires tiles != [] ==> tiles[|tiles| - 1].latestValidTo == a.earliestValidFrom
    requires StartsAt(rows, id, a.latestValidTo)
    ensures Tiles(rows, id, tiles + [a])
  {
    hide StartsAt;
    var all := tiles + [a];
    forall i | 0 <= i < |all| - 1 ensures all[i].latestValidTo == all[i + 1].earliestValidFrom {
      if i < |tiles| - 1 { assert tiles[i].latestValidTo == tiles[i + 1].earliestValidFrom; }
    }
  }

  lemma SweepTiles<K, P>(rows: Rows<K, P>, now: int, horizon: int, aggregates: seq<Aggregate>, written: seq<Aggregate>)
    requires Coherent(rows, now) && Tiled(rows, aggregates) && Wrote(rows, horizon, written)
    ensures Tiled(Swept(rows, horizon), aggregates + written)
  {
    hide Coherent, Swept, Tiles, WroteOne;
    forall id ensures Tiles(Swept(rows, horizon), id, OfEntity(aggregates + written, id)) {
      OfEntityConcat(aggregates, written, id);
      assert WroteOne(rows, horizon, id, OfEntity(written, id));
      SweepTilesOne(rows, now, horizon, id, OfEntity(aggregates, id), OfEntity(written, id));
    }
  }

  /* ---------------------------------------------------------------- the sweep */

  ghost function GoneOf<K, P>(rows: Rows<K, P>, ids: set<nat>, horizon: int): Rows<K, P> {
    set r | r in rows && r.id in ids && Removed(rows, r, horizon)
  }

  ghost function OpenOf<K, P>(rows: Rows<K, P>, ids: set<nat>): Rows<K, P> { set r | r in rows && r.id in ids && r.Open() }

  ghost function OldOf<K, P>(rows: Rows<K, P>, ids: set<nat>, horizon: int): Rows<K, P> {
    set r | r in rows && r.id in ids && Old(r, horizon)
  }

  ghost function BoundedIds<K, P>(rows: Rows<K, P>, ids: set<nat>): set<nat> { set i | i in ids && ClosedOf(rows, i) != {} }

  function Ids<K(==), P(==)>(rows: Rows<K, P>): set<nat> { set r | r in rows :: r.id }

  /** The counters and the aggregates when the entities in `done` have been swept. */
  ghost predicate SweptSoFar<K, P>(before: Rows<K, P>, horizon: int, done: set<nat>, rows: Rows<K, P>,
                                   written: seq<Aggregate>, r: Report)
  {
    && rows == before - GoneOf(before, done, horizon)
    && (forall id :: if id in done then WroteOne(before, horizon, id, OfEntity(written, id)) else OfEntity(written, id) == [])
    && TotalCount(written) == r.versionsCollapsed == |GoneOf(before, done, horizon)|
    && r.aggregatesWritten == |written|
    && r.retainedCurrent == |OpenOf(before, done)|
    && r.retainedBoundary == |BoundedIds(before, done)|
    && r.eligible == |OldOf(before, done, horizon)|
  }

  /** What the counters of a sweep count: the rows that went; the open rows; the entities with a
      closed version; the versions that ended before the horizon. */
  lemma SweptCounts<K, P>(rows: Rows<K, P>, horizon: int)
    ensures Collapsible(rows, horizon) == rows - Swept(rows, horizon)
    ensures OpenOf(rows, Ids(rows)) == set r | r in rows && r.validTo.None?
    ensures BoundedIds(rows, Ids(rows)) == set r | r in rows && r.validTo.Some? :: r.id
    ensures OldOf(rows, Ids(rows), horizon) == set r | r in rows && r.validTo.Some? && r.validTo.value < horizon
  {
    hide Removed;
    forall r | r in rows && r.validTo.Some? ensures r.id in BoundedIds(rows, Ids(rows)) { assert r in ClosedOf(rows, r.id); }
  }

  lemma NothingOld<K, P>(rows: Rows<K, P>, id: nat, horizon: int)
    requires ClosedOf(rows, id) == {}
    ensures OldOf(rows, {id}, horizon) == {} && Gone(rows, id, horizon) == {}
  {
    forall r | r in rows && r.id == id ensures !r.validTo.Some? {
      assert r.validTo.Some? ==> r in ClosedOf(rows, id);
    }
  }

  lemma CollapsibleIsGone<K, P>(rows: Rows<K, P>, now: int, id: nat, horizon: int, closed: Rows<K, P>, boundary: Version<K, P>)
    requires Coherent(rows, now) && closed == ClosedOf(rows, id)
    requires boundary in closed && forall s :: s in closed ==> s.validFrom <= boundary.validFrom
    ensures (set v | v in closed && v.validTo.value < horizon && v.validFrom != boundary.validFrom) == Gone(rows, id, horizon)
    ensures (set v | v in (set w | w in closed && w.validTo.value < horizon) && v.validFrom != boundary.validFrom)
            == Gone(rows, id, horizon)
  {
    assert IsBoundary(rows, boundary);
    forall v | v in closed ensures IsBoundary(rows, v) <==> v.validFrom == boundary.validFrom {
    }
  }

  lemma Bounds<K, P>(rows: Rows<K, P>) returns (lo: Version<K, P>, hi: Version<K, P>)
    requires rows != {} && forall r :: r in rows ==> r.validTo.Some?
    ensures lo in rows && forall v :: v in rows ==> lo.validFrom <= v.validFrom
    ensures hi in rows && forall v :: v in rows ==> v.validTo.value <= hi.validTo.value
    decreases rows
  {
    var r :| r in rows;
    lo, hi := r, r;
    if rows != {r} {
      assert rows - {r} != {} by { assert rows == rows - {r} + {r}; }
      var l, h := Bounds(rows - {r});
      if l.validFrom < r.validFrom { lo := l; }
      if h.validTo.value > r.validTo.value { hi := h; }
    }
  }

  lemma DeletedIsGone<K, P>(snapshot: Rows<K, P>, rows: Rows<K, P>, now: int, id: nat, horizon: int,
                            collapsible: Rows<K, P>, validFroms: set<int>)
    requires Coherent(snapshot, now) && VersionsOf(rows, id) == VersionsOf(snapshot, id)
    requires collapsible == Gone(snapshot, id, horizon) && validFroms == set v | v in collapsible :: v.validFrom
    ensures (set r | r in rows && r.id == id && r.validTo.Some? && r.validFrom in validFroms) == collapsible
  {
    forall r | r in rows && r.id == id && r.validTo.Some? && r.validFrom in validFroms ensures r in collapsible {
      assert r in VersionsOf(rows, id);
      var v :| v in collapsible && v.validFrom == r.validFrom;
    }
    forall r | r in collapsible ensures r in rows {
      assert r in VersionsOf(snapshot, id);
    }
  }

  lemma SweepStart<K, P>(rows: Rows<K, P>, horizon: int)
    ensures SweptSoFar(rows, horizon, {}, rows, [], Report(0, 0, 0, 0, 0))
  {
    assert GoneOf(rows, {}, horizon) == {} && OpenOf(rows, {}) == {} && OldOf(rows, {}, horizon) == {};
    assert BoundedIds(rows, {}) == {};
  }

  lemma UntouchedEntity<K, P>(before: Rows<K, P>, horizon: int, done: set<nat>, rows: Rows<K, P>,
                              written: seq<Aggregate>, r: Report, id: nat)
    requires SweptSoFar(before, horizon, done, rows, written, r) && id !in done
    ensures VersionsOf(rows, id) == VersionsOf(before, id)
  {
    hide WroteOne;
  }

  lemma SplitIds<K, P>(rows: Rows<K, P>, horizon: int, done: set<nat>, id: nat)
    requires id !in done
    ensures GoneOf(rows, done + {id}, horizon) == GoneOf(rows, done, horizon) + Gone(rows, id, horizon)
    ensures |GoneOf(rows, done + {id}, horizon)| == |GoneOf(rows, done, horizon)| + |Gone(rows, id, horizon)|
    ensures |OpenOf(rows, done + {id})| == |OpenOf(rows, done)| + |OpenOf(rows, {id})|
    ensures |OldOf(rows, done + {id}, horizon)| == |OldOf(rows, done, horizon)| + |OldOf(rows, {id}, horizon)|
    ensures |BoundedIds(rows, done + {id})| == |BoundedIds(rows, done)| + (if ClosedOf(rows, id) != {} then 1 else 0)
  {
    hide Removed, Old;
    SplitGone(rows, horizon, done, id);
    assert OpenOf(rows, done + {id}) == OpenOf(rows, done) + OpenOf(rows, {id});
    assert OpenOf(rows, done) !! OpenOf(rows, {id});
    assert OldOf(rows, done + {id}, horizon) == OldOf(rows, done, horizon) + OldOf(rows, {id}, horizon);
    assert OldOf(rows, done, horizon) !! OldOf(rows, {id}, horizon);
    SplitBounded(rows, done, id);
  }

  lemma SplitGone<K, P>(rows: Rows<K, P>, horizon: int, done: set<nat>, id: nat)
    requires id !in done
    ensures GoneOf(rows, done + {id}, horizon) == GoneOf(rows, done, horizon) + Gone(rows, id, horizon)
    ensures |GoneOf(rows, done + {id}, horizon)| == |GoneOf(rows, done, horizon)| + |Gone(rows, id, horizon)|
  {
    hide Removed;
    assert GoneOf(rows, done + {id}, horizon) == GoneOf(rows, done, horizon) + Gone(rows, id, horizon);
    assert GoneOf(rows, done, horizon) !! Gone(rows, id, horizon);
  }

  lemma SplitBounded<K, P>(rows: Rows<K, P>, done: set<nat>, id: nat)
    requires id !in done
    ensures |BoundedIds(rows, done + {id})| == |BoundedIds(rows, done)| + (if ClosedOf(rows, id) != {} then 1 else 0)
  {
    hide ClosedOf;
    assert BoundedIds(rows, done + {id}) == BoundedIds(rows, done) + (if ClosedOf(rows, id) != {} then {id} else {});
  }

  lemma AppendedEntity<K, P>(rows: Rows<K, P>, horizon: int, id: nat, appended: seq<Aggregate>)
    requires WroteOne(rows, horizon, id, appended)
    ensures OfEntity(appended, id) == appended
    ensures forall other :: other != id ==> OfEntity(appended, other) == []
    ensures TotalCount(appended) == |Gone(rows, id, horizon)|
  {
    if appended != [] {
      assert appended[..0] == [] && appended == [appended[0]];
    }
  }

  lemma WrittenMore<K, P>(before: Rows<K, P>, horizon: int, done: set<nat>, written: seq<Aggregate>, id: nat,
                          appended: seq<Aggregate>, e: nat)
    requires id !in done && WroteOne(before, horizon, id, appended)
    requires forall i :: if i in done then WroteOne(before, horizon, i, OfEntity(written, i)) else OfEntity(written, i) == []
    ensures if e in done + {id} then WroteOne(before, horizon, e, OfEntity(written + appended, e))
            else OfEntity(written + appended, e) == []
  {
    AppendedEntity(before, horizon, id, appended);
    OfEntityConcat(written, appended, e);
    hide WroteOne;
    assert if e in done then WroteOne(before, horizon, e, OfEntity(written, e)) else OfEntity(written, e) == [];
    assert OfEntity(written, e) + [] == OfEntity(written, e);
    assert [] + appended == appended;
  }

  lemma SweepMore<K, P>(before: Rows<K, P>, horizon: int, done: set<nat>, rows: Rows<K, P>, written: seq<Aggregate>,
                        r: Report, id: nat, appended: seq<Aggregate>, after: Report)
    requires id !in done && WroteOne(before, horizon, id, appended)
    requires SweptSoFar(before, horizon, done, rows, written, r)
    requires after == Report(r.versionsCollapsed + |Gone(before, id, horizon)|, r.aggregatesWritten + |appended|,
                             r.retainedCurrent + |OpenOf(before, {id})|,
                             r.retainedBoundary + (if ClosedOf(before, id) != {} then 1 else 0),
                             r.eligible + |OldOf(before, {id}, horizon)|)
    ensures SweptSoFar(before, horizon, done + {id}, rows - Gone(before, id, horizon), written + appended, after)
  {
    hide WroteOne, Gone, GoneOf, OpenOf, OldOf, BoundedIds, ClosedOf, TotalCount, OfEntity;
    AppendedEntity(before, horizon, id, appended);
    SplitIds(before, horizon, done, id);
    TotalConcat(written, appended);
    forall e ensures if e in done + {id} then WroteOne(before, horizon, e, OfEntity(written + appended, e))
                     else OfEntity(written + appended, e) == []
    {
      WrittenMore(before, horizon, done, written, id, appended, e);
    }
    assert rows - Gone(before, id, horizon) == before - GoneOf(before, done + {id}, horizon);
  }

  lemma SweepEnd<K, P>(before: Rows<K, P>, horizon: int, done: set<nat>, rows: Rows<K, P>, written: seq<Aggregate>, r: Report)
    requires SweptSoFar(before, horizon, done, rows, written, r) && done == Ids(before)
    ensures rows == Swept(before, horizon) && Wrote(before, horizon, written)
    ensures TotalCount(written) == r.versionsCollapsed == |Collapsible(before, horizon)|
    ensures r.aggregatesWritten == |written| && r.eligible == |OldOf(before, done, horizon)|
    ensures r.retainedCurrent == |OpenOf(before, done)| && r.retainedBoundary == |BoundedIds(before, done)|
  {
    forall id ensures WroteOne(before, horizon, id, OfEntity(written, id)) {
      if id !in done {
        assert Gone(before, id, horizon) == {};
      }
    }
    assert GoneOf(before, done, horizon) == Collapsible(before, horizon);
  }

  lemma InClosed<K, P>(rows: Rows<K, P>, id: nat, b: Version<K, P>)
    requires b in rows && b.id == id && IsBoundary(rows, b)
    ensures b in ClosedOf(rows, id) && forall s :: s in ClosedOf(rows, id) ==> s.validFrom <= b.validFrom
  {
  }

  lemma EligibleIsOld<K, P>(rows: Rows<K, P>, id: nat, horizon: int, closed: Rows<K, P>)
    requires closed == ClosedOf(rows, id)
    ensures (set v | v in closed && v.validTo.value < horizon) == OldOf(rows, {id}, horizon)
  {
  }

  lemma WroteNone<K, P>(rows: Rows<K, P>, horizon: int, id: nat)
    requires Gone(rows, id, horizon) == {}
    ensures WroteOne(rows, horizon, id, [])
  {
  }

  lemma WroteThis<K, P>(rows: Rows<K, P>, horizon: int, id: nat, first: Version<K, P>, last: Version<K, P>)
    requires first in Gone(rows, id, horizon) && last in Gone(rows, id, horizon) && last.validTo.Some?
    requires forall v :: v in Gone(rows, id, horizon) ==>
      first.validFrom <= v.validFrom && v.validTo.Some? && v.validTo.value <= last.validTo.value
    ensures WroteOne(rows, horizon, id, [Aggregate(id, |Gone(rows, id, horizon)|, first.validFrom, last.validTo.value)])
  {
    hide Gone;
  }

  class HistoryTable<K(==), P(==)> {
    var rows: Rows<K, P>
    var aggregates: seq<Aggregate>

    constructor (rows: Rows<K, P>, aggregates: seq<Aggregate>)
      ensures this.rows == rows && this.aggregates == aggregates
    {
      this.rows, this.aggregates := rows, aggregates;
    }

    /** The INSERT of the aggregate and the DELETE of the detail rows. */
    method Collapse(snapshot: Rows<K, P>, id: nat, horizon: int, ghost now: int, collapsible: Rows<K, P>)
      returns (ghost appended: seq<Aggregate>)
      requires Coherent(snapshot, now) && VersionsOf(rows, id) == VersionsOf(snapshot, id)
      requires collapsible == Gone(snapshot, id, horizon) && collapsible != {}
      requires forall v :: v in collapsible ==> v.validTo.Some?
      modifies this
      ensures rows == old(rows) - Gone(snapshot, id, horizon)
      ensures aggregates == old(aggregates) + appended && |appended| == 1
      ensures WroteOne(snapshot, horizon, id, appended)
    {
      hide Coherent, WroteOne, Removed, IsBoundary, Gone, VersionsOf;
      ghost var lo, hi := Bounds(collapsible);
      var first :| first in collapsible && forall v :: v in collapsible ==> first.validFrom <= v.validFrom;
      var last :| last in collapsible && forall v :: v in collapsible ==> v.validTo.value <= last.validTo.value;
      var a := Aggregate(id, |collapsible|, first.validFrom, last.validTo.value);
      WroteThis(snapshot, horizon, id, first, last);
      aggregates := aggregates + [a];
      appended := [a];
      var validFroms := set v | v in collapsible :: v.validFrom;
      DeletedIsGone(snapshot, rows, now, id, horizon, collapsible, validFroms);
      rows := rows - set r | r in rows && r.id == id && r.validTo.Some? && r.validFrom in validFroms;
    }

    /** One entity: count its rows, find the boundary and collapse what is older. */
    method SweepEntity(snapshot: Rows<K, P>, id: nat, horizon: int, ghost now: int, before: Report)
      returns (after: Report, ghost appended: seq<Aggregate>)
      requires Coherent(snapshot, now) && VersionsOf(rows, id) == VersionsOf(snapshot, id)
      modifies this
      ensures rows == old(rows) - Gone(snapshot, id, horizon)
      ensures aggregates == old(aggregates) + appended
      ensures WroteOne(snapshot, horizon, id, appended)
      ensures after == Report(before.versionsCollapsed + |Gone(snapshot, id, horizon)|,
                              before.aggregatesWritten + |appended|,
                              before.retainedCurrent + |OpenOf(snapshot, {id})|,
                              before.retainedBoundary + (if ClosedOf(snapshot, id) != {} then 1 else 0),
                              before.eligible + |OldOf(snapshot, {id}, horizon)|)
    {
      hide Coherent, WroteOne, Removed, IsBoundary, Gone, OldOf;
      appended := [];
      var versions := VersionsOf(snapshot, id);
      var current := set v | v in versions && v.Open();
      var closed := set v | v in versions && v.validTo.Some?;
      assert current == OpenOf(snapshot, {id}) && closed == ClosedOf(snapshot, id);
      hide OpenOf, VersionsOf;
      after := before.(retainedCurrent := before.retainedCurrent + |current|);
      if closed == {} {
        NothingOld(snapshot, id, horizon);
        WroteNone(snapshot, horizon, id);
        return;
      }
      ghost var b := BoundaryExists(snapshot, id);
      InClosed(snapshot, id, b);
      var boundary :| boundary in closed && forall s :: s in closed ==> s.validFrom <= boundary.validFrom;
      var eligible := set v | v in closed && v.validTo.value < horizon;
      EligibleIsOld(snapshot, id, horizon, closed);
      var collapsible := set v | v in eligible && v.validFrom != boundary.validFrom;
      CollapsibleIsGone(snapshot, now, id, horizon, closed, boundary);
      after := after.(eligible := after.eligible + |eligible|, retainedBoundary := after.retainedBoundary + 1);
      if collapsible == {} {
        WroteNone(snapshot, horizon, id);
        return;
      }
      appended := Collapse(snapshot, id, horizon, now, collapsible);
      after := after.(versionsCollapsed := after.versionsCollapsed + |collapsible|,
                      aggregatesWritten := after.aggregatesWritten + 1);
    }

    /** The sweep of one table: exactly the collapsible rows go, each entity that loses rows
        gets one aggregate over them, and the counters count what they say. */
    method SweepKind(horizon: int, ghost now: int) returns (report: Report, ghost written: seq<Aggregate>)
      requires Coherent(rows, now)
      modifies this
      ensures rows == Swept(old(rows), horizon)
      ensures aggregates == old(aggregates) + written && Wrote(old(rows), horizon, written)
      ensures report.versionsCollapsed == |Collapsible(old(rows), horizon)| == TotalCount(written)
      ensures report.aggregatesWritten == |written|
      ensures var ids := Ids(old(rows));
              && report.retainedCurrent == |OpenOf(old(rows), ids)| && report.retainedBoundary == |BoundedIds(old(rows), ids)|
              && report.eligible == |OldOf(old(rows), ids, horizon)|
    {
      hide Coherent, WroteOne, Gone, SweptSoFar, Wrote;
      var snapshot := rows;
      var todo := Ids(snapshot);
      report, written := Report(0, 0, 0, 0, 0), [];
      ghost var done: set<nat> := {};
      SweepStart(snapshot, horizon);
      while todo != {}
        invariant todo <= Ids(snapshot) && done == Ids(snapshot) - todo
        invariant aggregates == old(aggregates) + written
        invariant SweptSoFar(snapshot, horizon, done, rows, written, report)
        decreases todo
      {
        var id :| id in todo;
        ghost var appended;
        ghost var r0 := report;
        ghost var rows0 := rows;
        UntouchedEntity(snapshot, horizon, done, rows, written, report, id);
        report, appended := SweepEntity(snapshot, id, horizon, now, report);
        SweepMore(snapshot, horizon, done, rows0, written, r0, id, appended, report);
        written := written + appended;
        todo := todo - {id};
        done := done + {id};
      }
      SweepEnd(snapshot, horizon, done, rows, written, report);
    }
  }
}
