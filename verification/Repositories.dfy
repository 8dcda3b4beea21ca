/** The repositories over one connection (packages/db/src/infra_twin/db/repositories.py): the
    statements they issue, each proved to be the database function of Store. */
module Repositories {
  import opened Model
  import opened Observations
  import opened Versions
  import opened Store
  import opened Merging

  /** A transaction in progress: what it sees of the database. */
  class Connection {
    var db: Db

    constructor (start: Db)
      ensures db == start
    {
      db := start;
    }
  }

  /** The primary key and the one-open-row index, as INSERT checks them. */
  predicate Conflicts<K(==), P(==)>(rows: Rows<K, P>, r: Version<K, P>) {
    exists s :: s in rows && ((s.id == r.id && s.validFrom == r.validFrom) || (s.Open() && r.Open() && s.key == r.key))
  }

  /** After closing the open row of an id, a new version conflicts exactly when that row was
      written in this very transaction. */
  lemma ConflictIsSameInstant<K, P>(rows: Rows<K, P>, now: int, r: Version<K, P>, data: P)
    requires Coherent(rows, now) && r in rows && r.Open()
    ensures Conflicts(CloseRow(rows, r, now), NewVersion(r, data, now)) <==> r.validFrom == now
  {
    LastVersion(rows, now, r);
    OpenStarted(rows, now, r);
    var closed := r.(validTo := Some(now));
    assert closed in CloseRow(rows, r, now) && closed.id == r.id;
    forall s | s in rows && s != r && s.id == r.id ensures s.validFrom < now { }
    forall s | s in rows && s != r && s.Open() ensures s.key != r.key { OneOpenApart(rows, now, r, s); }
  }

  lemma CloseManyIsCloseRow<K, P>(rows: Rows<K, P>, now: int, r: Version<K, P>)
    requires Coherent(rows, now) && r in rows && r.Open()
    ensures CloseMany(rows, {r.key}, now) == CloseRow(rows, r, now)
  {
    hide Coherent, CloseMany;
    CloseManyNone(rows, now);
    CloseManyOne(rows, {}, now, r);
    assert {} + {r.key} == {r.key};
  }

  lemma CloseManyAbsent<K, P>(rows: Rows<K, P>, now: int, key: K)
    requires forall r :: r in rows && r.Open() ==> r.key != key
    ensures CloseMany(rows, {key}, now) == rows
  {
    forall r | r in rows ensures r in CloseMany(rows, {key}, now) { assert ClosedIf(r, {key}, now) == r; }
  }

  /** The elements of a set, in no particular order. */
  method Listing<T(==)>(s: set<T>) returns (rows: seq<T>)
    ensures forall x :: x in rows <==> x in s
    ensures forall i, j :: 0 <= i < j < |rows| ==> rows[i] != rows[j]
  {
    rows := [];
    var rest := s;
    while rest != {}
      invariant rest <= s && forall x :: x in s <==> x in rest || x in rows
      invariant forall x :: x in rows ==> x !in rest
      invariant forall i, j :: 0 <= i < j < |rows| ==> rows[i] != rows[j]
      decreases |rest|
    {
      var x :| x in rest;
      rows, rest := rows + [x], rest - {x};
    }
  }

  class CiRepository {
    const conn: Connection

    constructor (conn: Connection)
      ensures this.conn == conn
    {
      this.conn := conn;
    }

    method GetCurrent(key: CiKey) returns (current: Option<CiRow>)
      requires Coherent(conn.db.cis, conn.db.now)
      ensures current == Current(conn.db.cis, key)
      ensures current.Some? <==> key in OpenMap(conn.db.cis)
    {
      if r :| r in conn.db.cis && r.Open() && r.key == key {
        OpenRow(conn.db.cis, conn.db.now, r);
        current := Some(r);
      } else {
        current := None;
      }
    }

    method GetCurrentById(id: nat) returns (current: Option<CiRow>)
      requires Coherent(conn.db.cis, conn.db.now)
      ensures current == CurrentById(conn.db.cis, id)
    {
      if r :| r in conn.db.cis && r.Open() && r.id == id {
        OpenRow(conn.db.cis, conn.db.now, r);
        current := Some(r);
      } else {
        current := None;
      }
    }

    /** The rows valid at an instant: at most one per key and per id. */
    method ValidAt(ts: int) returns (rows: Rows<CiKey, CiData>)
      requires Coherent(conn.db.cis, conn.db.now)
      ensures rows == AsOf(conn.db.cis, ts)
      ensures forall r, s :: r in rows && s in rows && (r.key == s.key || r.id == s.id) ==> r == s
    {
      rows := set r | r in conn.db.cis && r.validFrom <= ts && (r.validTo.None? || r.validTo.value > ts);
      forall r, s | r in rows && s in rows && (r.key == s.key || r.id == s.id) ensures r == s {
        AsOfUnique(conn.db.cis, conn.db.now, ts, r, s);
      }
    }

    /** INSERT: refused on a conflict. */
    method Insert(r: CiRow) returns (ok: bool)
      modifies conn
      ensures ok == !Conflicts(old(conn.db.cis), r)
      ensures conn.db == if ok then old(conn.db).(cis := old(conn.db.cis) + {r}) else old(conn.db)
    {
      ok := !Conflicts(conn.db.cis, r);
      if ok { conn.db := conn.db.(cis := conn.db.cis + {r}); }
    }

    /** Insert, version or touch. */
    method Upsert(key: CiKey, name: Option<string>, attributes: map<string, string>) returns (result: Outcome<CiRow>)
      requires Tables(conn.db)
      modifies conn
      ensures match UpsertCi(old(conn.db), key, name, attributes)
              case Ok((after, row)) => result == Ok(row) && conn.db == after
              case Abort => result == Abort
    {
      var now := conn.db.now;
      var current := GetCurrent(key);
      if current.None? {
        var row := Version(conn.db.nextId, key, CiData(name, attributes, 1.0, now), now, now, None);
        conn.db := conn.db.(nextId := conn.db.nextId + 1);
        var ok := Insert(row);
        return if ok then Ok(row) else Abort;
      }
      var r := current.value;
      if !CiChanged(r, name, attributes) {
        var touched := r.(lastSeen := now);
        conn.db := conn.db.(cis := conn.db.cis - {r} + {touched});
        return Ok(touched);
      }
      ConflictIsSameInstant(conn.db.cis, now, r, CiUpdate(r, name, attributes));
      conn.db := conn.db.(cis := CloseRow(conn.db.cis, r, now));
      var row := Version(r.id, key, CiData(name, attributes, 1.0, r.data.firstSeen), now, now, None);
      var ok := Insert(row);
      return if ok then Ok(row) else Abort;
    }

    /** Close the open row of a key, if any. */
    method Close(key: CiKey) returns (was: bool)
      requires Coherent(conn.db.cis, conn.db.now)
      modifies conn
      ensures was == (key in OpenMap(old(conn.db).cis))
      ensures conn.db == CloseCis(old(conn.db), {key})
    {
      var current := GetCurrent(key);
      was := current.Some?;
      if was {
        CloseManyIsCloseRow(conn.db.cis, conn.db.now, current.value);
        conn.db := conn.db.(cis := CloseRow(conn.db.cis, current.value, conn.db.now));
      } else {
        CloseManyAbsent(conn.db.cis, conn.db.now, key);
      }
    }
  }

  class EdgeRepository {
    const conn: Connection

    constructor (conn: Connection)
      ensures this.conn == conn
    {
      this.conn := conn;
    }

    method Find(key: EdgeKey) returns (current: Option<EdgeRow>)
      requires Coherent(conn.db.edges, conn.db.now)
      ensures current == Current(conn.db.edges, key)
      ensures current.Some? <==> key in OpenMap(conn.db.edges)
    {
      if r :| r in conn.db.edges && r.Open() && r.key == key {
        OpenRow(conn.db.edges, conn.db.now, r);
        current := Some(r);
      } else {
        current := None;
      }
    }

    /** The open edges, in no particular order. */
    method GetCurrent() returns (rows: seq<EdgeRow>)
      requires Coherent(conn.db.edges, conn.db.now)
      ensures Lists(conn.db.edges, OpenMap(conn.db.edges).Keys, rows)
    {
      rows := Listing(set r | r in conn.db.edges && r.Open());
      AllListed(conn.db.edges, conn.db.now, rows);
    }

    method Insert(r: EdgeRow) returns (ok: bool)
      modifies conn
      ensures ok == !Conflicts(old(conn.db.edges), r)
      ensures conn.db == if ok then old(conn.db).(edges := old(conn.db.edges) + {r}) else old(conn.db)
    {
      ok := !Conflicts(conn.db.edges, r);
      if ok { conn.db := conn.db.(edges := conn.db.edges + {r}); }
    }

    /** Close the open row and insert the next version of the same edge. */
    method Replace(r: EdgeRow, data: EdgeData) returns (result: Outcome<EdgeRow>)
      requires Coherent(conn.db.edges, conn.db.now) && r in conn.db.edges && r.Open()
      modifies conn
      ensures result == if r.validFrom == old(conn.db).now then Abort else Ok(NewVersion(r, data, old(conn.db).now))
      ensures result.Ok? ==> conn.db == old(conn.db).(edges := Supersede(old(conn.db).edges, r, data, old(conn.db).now))
    {
      var row := Version(r.id, r.key, data, conn.db.now, conn.db.now, None);
      ConflictIsSameInstant(conn.db.edges, conn.db.now, r, data);
      conn.db := conn.db.(edges := CloseRow(conn.db.edges, r, conn.db.now));
      var ok := Insert(row);
      return if ok then Ok(row) else Abort;
    }

    /** Insert, aggregate, version, or leave alone. Provenance is mandatory. */
    method Upsert(key: EdgeKey, data: EdgeData) returns (result: Outcome<EdgeRow>)
      requires Tables(conn.db)
      modifies conn
      ensures match UpsertEdge(old(conn.db), key, data)
              case Ok((after, row)) => result == Ok(row) && conn.db == after
              case Abort => result == Abort
    {
      if data.evidence == [] { return Abort; }
      var current := Find(key);
      if current.None? {
        var row := Version(conn.db.nextId, key, FirstSight(data), conn.db.now, conn.db.now, None);
        conn.db := conn.db.(nextId := conn.db.nextId + 1);
        var ok := Insert(row);
        return if ok then Ok(row) else Abort;
      }
      match UpsertChange(current.value.data, data) {
        case Rejected => return Abort;
        case Unchanged => return Ok(current.value);
        case Written(d) =>
          result := Replace(current.value, d);
      }
    }

    method Close(key: EdgeKey) returns (was: bool)
      requires Coherent(conn.db.edges, conn.db.now)
      modifies conn
      ensures was == (key in OpenMap(old(conn.db).edges))
      ensures conn.db == CloseEdges(old(conn.db), {key})
    {
      var current := Find(key);
      was := current.Some?;
      if was {
        CloseManyIsCloseRow(conn.db.edges, conn.db.now, current.value);
        conn.db := conn.db.(edges := CloseRow(conn.db.edges, current.value, conn.db.now));
      } else {
        CloseManyAbsent(conn.db.edges, conn.db.now, key);
      }
    }

    /** Refused for a declared edge or a confidence that is not lower. */
    method WriteDecayedVersion(current: EdgeRow, confidence: real, mark: Evidence) returns (result: Outcome<EdgeRow>)
      requires Coherent(conn.db.edges, conn.db.now) && current in conn.db.edges && current.Open()
      modifies conn
      ensures result.Ok? <==> current.data.source == Inferred && confidence < current.data.confidence
                              && current.validFrom != old(conn.db).now
      ensures result.Ok? ==>
                var d := EdgeData(Inferred, confidence, current.data.evidence + [mark]);
                && result.value == NewVersion(current, d, old(conn.db).now)
                && conn.db == old(conn.db).(edges := Supersede(old(conn.db).edges, current, d, old(conn.db).now))
    {
      if current.data.source != Inferred || confidence >= current.data.confidence { return Abort; }
      result := Replace(current, EdgeData(current.data.source, confidence, current.data.evidence + [mark]));
    }
  }

  lemma AllListed(edges: Rows<EdgeKey, EdgeData>, now: int, rows: seq<EdgeRow>)
    requires Coherent(edges, now) && forall r :: r in rows <==> r in edges && r.Open()
    requires forall i, j :: 0 <= i < j < |rows| ==> rows[i] != rows[j]
    ensures Lists(edges, OpenMap(edges).Keys, rows)
  {
    forall r | r in rows ensures r.key in OpenMap(edges) && r == OpenMap(edges)[r.key] { OpenRow(edges, now, r); }
    forall k | k in OpenMap(edges) ensures k in KeySet(rows) { OpenMapRow(edges, k); }
    forall i, j | 0 <= i < j < |rows| ensures rows[i].key != rows[j].key { OneOpenApart(edges, now, rows[i], rows[j]); }
    hide Coherent, OpenMap;
    assert KeySet(rows) == OpenMap(edges).Keys;
  }
}
