/** Whole runs of one bitemporal table: any interleaving of writes
    (packages/db/src/infra_twin/db/repositories.py) and retention sweeps
    (services/reconciliation/src/infra_twin/reconciliation/retention.py). */
module History {
  import opened Model
  import opened Versions
  import opened Retention

  datatype Event<K, P> =
    | Inserted(row: Version<K, P>)
    | Closed(row: Version<K, P>)
    | Superseded(row: Version<K, P>, data: P)
    | Touched(row: Version<K, P>)
    | Sweep(horizon: int, written: seq<Aggregate>)

  datatype Timed<K, P> = Timed(now: int, event: Event<K, P>)

  /** `inserted` counts the versions ever written. */
  datatype State<K, P> = State(rows: Rows<K, P>, aggregates: seq<Aggregate>, inserted: nat)

  ghost predicate Enabled<K, P>(s: State<K, P>, t: Timed<K, P>) {
    match t.event
    case Inserted(r) => Insertable(s.rows, r, t.now)
    case Closed(r) => r in s.rows && r.Open()
    case Superseded(r, _) => r in s.rows && r.Open() && r.validFrom < t.now
    case Touched(r) => r in s.rows && r.Open()
    case Sweep(horizon, written) => Wrote(s.rows, horizon, written)
  }

  ghost function Next<K, P>(s: State<K, P>, t: Timed<K, P>): State<K, P> {
    match t.event
    case Inserted(r) => s.(rows := Insert(s.rows, r), inserted := s.inserted + 1)
    case Closed(r) => s.(rows := CloseRow(s.rows, r, t.now))
    case Superseded(r, data) => s.(rows := Supersede(s.rows, r, data, t.now), inserted := s.inserted + 1)
    case Touched(r) => s.(rows := Touch(s.rows, r, t.now))
    case Sweep(horizon, written) => s.(rows := Swept(s.rows, horizon), aggregates := s.aggregates + written)
  }

  ghost function Run<K, P>(events: seq<Timed<K, P>>): State<K, P> {
    if events == [] then State({}, [], 0) else Next(Run(events[..|events| - 1]), events[|events| - 1])
  }

  /** Transaction times do not go back, and each event is possible where it happens. */
  ghost predicate Possible<K, P>(events: seq<Timed<K, P>>) {
    events != [] ==>
      && Possible(events[..|events| - 1])
      && Enabled(Run(events[..|events| - 1]), events[|events| - 1])
      && (|events| > 1 ==> events[|events| - 2].now <= events[|events| - 1].now)
  }

  ghost predicate Sound<K, P>(s: State<K, P>, now: int) {
    Coherent(s.rows, now) && Tiled(s.rows, s.aggregates) && |s.rows| + TotalCount(s.aggregates) == s.inserted
  }

  lemma LaterCoherent<K, P>(rows: Rows<K, P>, now: int, later: int)
    requires Coherent(rows, now) && now <= later
    ensures Coherent(rows, later)
  {
  }

  /** Rewriting a row in place does not move the start of any entity's history. */
  lemma ReplaceTiled<K, P>(rows: Rows<K, P>, r: Version<K, P>, c: Version<K, P>, aggregates: seq<Aggregate>)
    requires Tiled(rows, aggregates) && r in rows && c.id == r.id && c.validFrom == r.validFrom
    ensures Tiled(rows - {r} + {c}, aggregates)
  {
    var after := rows - {r} + {c};
    forall id ensures Tiles(after, id, OfEntity(aggregates, id)) {
      var tiles := OfEntity(aggregates, id);
      assert Tiles(rows, id, tiles);
      if tiles != [] { ReplaceStart(rows, r, c, id, tiles[|tiles| - 1].latestValidTo); }
    }
  }

  lemma ReplaceStart<K, P>(rows: Rows<K, P>, r: Version<K, P>, c: Version<K, P>, id: nat, t: int)
    requires StartsAt(rows, id, t) && r in rows && c.id == r.id && c.validFrom == r.validFrom
    ensures StartsAt(rows - {r} + {c}, id, t)
  {
    var after := rows - {r} + {c};
    var s :| s in rows && s.id == id && s.validFrom == t;
    assert (if s == r then c else s) in after;
  }

  lemma InsertTiled<K, P>(rows: Rows<K, P>, n: Version<K, P>, now: int, aggregates: seq<Aggregate>)
    requires Tiled(rows, aggregates) && Dated(rows, now) && n.validFrom == now
    ensures Tiled(rows + {n}, aggregates)
  {
    forall id ensures Tiles(rows + {n}, id, OfEntity(aggregates, id)) {
      var tiles := OfEntity(aggregates, id);
      assert Tiles(rows, id, tiles);
      if tiles != [] {
        var t := tiles[|tiles| - 1].latestValidTo;
        var s :| s in rows && s.id == id && s.validFrom == t;
        assert s in rows + {n};
      }
    }
  }

  lemma ReplaceCount<K, P>(rows: Rows<K, P>, r: Version<K, P>, c: Version<K, P>)
    requires r in rows && (c == r || c !in rows)
    ensures |rows - {r} + {c}| == |rows|
  {
    assert |rows - {r}| == |rows| - 1;
    if c == r { assert rows - {r} + {c} == rows; }
  }

  lemma SameStart<K, P>(rows: Rows<K, P>, now: int, r: Version<K, P>, c: Version<K, P>)
    requires Coherent(rows, now) && r in rows && c.id == r.id && c.validFrom == r.validFrom
    ensures c == r || c !in rows
  {
  }

  lemma SupersededSound<K, P>(s: State<K, P>, r: Version<K, P>, data: P, now: int)
    requires Sound(s, now) && Enabled(s, Timed(now, Superseded(r, data)))
    ensures Sound(Next(s, Timed(now, Superseded(r, data))), now)
  {
    hide Coherent, Tiled;
    var c := r.(validTo := Some(now));
    var mid := CloseRow(s.rows, r, now);
    CloseCoherent(s.rows, now, r);
    SupersedeCoherent(s.rows, now, r, data);
    ReplaceTiled(s.rows, r, c, s.aggregates);
    SameStart(s.rows, now, r, c);
    ReplaceCount(s.rows, r, c);
    CoherentDated(mid, now);
    InsertTiled(mid, NewVersion(r, data, now), now, s.aggregates);
    FreshVersion(s.rows, now, r, data);
  }

  lemma NextSound<K, P>(s: State<K, P>, t: Timed<K, P>)
    requires Sound(s, t.now) && Enabled(s, t)
    ensures Sound(Next(s, t), t.now)
  {
    hide Coherent, Tiled;
    match t.event {
      case Inserted(r) =>
        InsertCoherent(s.rows, t.now, r);
        CoherentDated(s.rows, t.now);
        InsertTiled(s.rows, r, t.now, s.aggregates);
      case Closed(r) =>
        var c := r.(validTo := Some(t.now));
        CloseCoherent(s.rows, t.now, r);
        ReplaceTiled(s.rows, r, c, s.aggregates);
        SameStart(s.rows, t.now, r, c);
        ReplaceCount(s.rows, r, c);
      case Superseded(r, data) =>
        SupersededSound(s, r, data, t.now);
      case Touched(r) =>
        var c := r.(lastSeen := t.now);
        TouchCoherent(s.rows, t.now, r);
        ReplaceTiled(s.rows, r, c, s.aggregates);
        SameStart(s.rows, t.now, r, c);
        ReplaceCount(s.rows, r, c);
      case Sweep(horizon, written) =>
        SweptCoherent(s.rows, t.now, horizon);
        SweepTiles(s.rows, t.now, horizon, s.aggregates, written);
        SweepCount(s.rows, horizon, s.aggregates, written);
    }
  }

  lemma CoherentDated<K, P>(rows: Rows<K, P>, now: int)
    requires Coherent(rows, now)
    ensures Dated(rows, now)
  {
  }

  lemma FreshVersion<K, P>(rows: Rows<K, P>, now: int, r: Version<K, P>, data: P)
    requires Coherent(rows, now) && r in rows && r.Open() && r.validFrom < now
    ensures NewVersion(r, data, now) !in CloseRow(rows, r, now)
  {
    LastVersion(rows, now, r);
  }

  lemma {:induction false} CountWritten<K, P>(rows: Rows<K, P>, horizon: int, ids: set<nat>, written: seq<Aggregate>)
    requires Wrote(rows, horizon, written)
    ensures SumOver(written, ids) == |GoneOf(rows, ids, horizon)|
    decreases ids
  {
    if ids == {} {
      assert GoneOf(rows, {}, horizon) == {};
      SumNone(written);
    } else {
      var id :| id in ids;
      CountWritten(rows, horizon, ids - {id}, written);
      SplitIds(rows, horizon, ids - {id}, id);
      assert ids - {id} + {id} == ids;
      SumSplit(written, ids - {id}, id);
      assert WroteOne(rows, horizon, id, OfEntity(written, id));
      AppendedEntity(rows, horizon, id, OfEntity(written, id));
    }
  }

  /** The counts of the aggregates of some entities. */
  ghost function SumOver(a: seq<Aggregate>, ids: set<nat>): nat {
    if a == [] then 0
    else SumOver(a[..|a| - 1], ids) + (if a[|a| - 1].entityId in ids then a[|a| - 1].versionCount else 0)
  }

  lemma {:induction false} SumNone(a: seq<Aggregate>)
    ensures SumOver(a, {}) == 0
    decreases |a|
  {
    if a != [] { SumNone(a[..|a| - 1]); }
  }

  lemma {:induction false} SumSplit(a: seq<Aggregate>, ids: set<nat>, id: nat)
    requires id !in ids
    ensures SumOver(a, ids + {id}) == SumOver(a, ids) + TotalCount(OfEntity(a, id))
    decreases |a|
  {
    if a != [] {
      var init, last := a[..|a| - 1], a[|a| - 1];
      SumSplit(init, ids, id);
      if last.entityId == id { TotalConcat(OfEntity(init, id), [last]); assert [last][..0] == []; }
    }
  }

  lemma {:induction false} SumAll(a: seq<Aggregate>, ids: set<nat>)
    requires forall i :: 0 <= i < |a| ==> a[i].entityId in ids
    ensures SumOver(a, ids) == TotalCount(a)
    decreases |a|
  {
    if a != [] { SumAll(a[..|a| - 1], ids); }
  }

  lemma {:induction false} EntityListed(a: seq<Aggregate>, i: nat)
    requires i < |a|
    ensures OfEntity(a, a[i].entityId) != []
    decreases |a|
  {
    if i < |a| - 1 { EntityListed(a[..|a| - 1], i); }
  }

  lemma SweepCount<K, P>(rows: Rows<K, P>, horizon: int, aggregates: seq<Aggregate>, written: seq<Aggregate>)
    requires Wrote(rows, horizon, written)
    ensures |Swept(rows, horizon)| + TotalCount(aggregates + written) == |rows| + TotalCount(aggregates)
  {
    var ids := Ids(rows);
    forall i | 0 <= i < |written| ensures written[i].entityId in ids {
      var id := written[i].entityId;
      EntityListed(written, i);
      assert WroteOne(rows, horizon, id, OfEntity(written, id));
      var r :| r in Gone(rows, id, horizon);
    }
    CountWritten(rows, horizon, ids, written);
    SumAll(written, ids);
    assert GoneOf(rows, ids, horizon) == Collapsible(rows, horizon);
    TotalConcat(aggregates, written);
    assert |rows - Collapsible(rows, horizon)| == |rows| - |Collapsible(rows, horizon)|;
  }

  /** Over every run of writes and sweeps: the rows stay coherent, the aggregates of each entity
      tile its past up to its first surviving row, and the versions ever written are those still
      stored plus those the aggregates count. */
  lemma {:induction false} EveryRun<K, P>(events: seq<Timed<K, P>>)
    requires Possible(events)
    ensures Sound(Run(events), if events == [] then 0 else events[|events| - 1].now)
    decreases |events|
  {
    if events == [] {
      assert Tiled<K, P>({}, []);
    } else {
      var init, t := events[..|events| - 1], events[|events| - 1];
      EveryRun(init);
      hide Coherent, Tiled;
      if init == [] {
        EmptyCoherent<K, P>(t.now);
      } else {
        LaterCoherent(Run(init).rows, init[|init| - 1].now, t.now);
      }
      NextSound(Run(init), t);
    }
  }

  lemma EmptyCoherent<K, P>(now: int)
    ensures Coherent<K, P>({}, now)
  {
  }
}
