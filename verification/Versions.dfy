/** A bitemporal table (packages/db/src/infra_twin/db/repositories.py, migrations/0001_init.sql).

    The table is a set of rows with primary key (id, valid_from). Writers only insert an open
    row, close an open row, do both in one step (a new version of the same id), or touch
    last_seen. `now` is the transaction time. */
module Versions {
  import opened Model

  /** `lastSeen` is meaningful for CIs only; an edge row keeps the instant it was written. */
  datatype Version<K, P> =
    Version(id: nat, key: K, data: P, lastSeen: int, validFrom: int, validTo: Option<int>)
  {
    predicate Open() { validTo.None? }
    predicate At(ts: int) { validFrom <= ts && (validTo.None? || validTo.value > ts) }
  }

  type Rows<K(==), P(==)> = set<Version<K, P>>

  /* ---------------------------------------------------------------- the invariant */

  ghost predicate Dated<K, P>(rows: Rows<K, P>, now: int) {
    forall r :: r in rows ==> r.validFrom <= now && (r.validTo.Some? ==> r.validFrom <= r.validTo.value <= now)
  }

  ghost predicate Keyed<K, P>(rows: Rows<K, P>) {
    forall r, s :: r in rows && s in rows && r.id == s.id ==> r.key == s.key && (r.validFrom == s.validFrom ==> r == s)
  }

  ghost predicate Before<K, P>(r: Version<K, P>, s: Version<K, P>) {
    r.validTo.Some? && r.validTo.value <= s.validFrom
  }

  /** Versions of one identity key never overlap in time. */
  ghost predicate Apart<K, P>(rows: Rows<K, P>) {
    forall r, s :: r in rows && s in rows && r.key == s.key && r != s ==> Before(r, s) || Before(s, r)
  }

  ghost predicate Succeeded<K, P>(rows: Rows<K, P>, r: Version<K, P>) {
    r.validTo.Some? && exists t :: t in rows && t.id == r.id && t.validFrom == r.validTo.value && t != r
  }

  /** The versions of one id form a chain without gaps. */
  ghost predicate Contiguous<K, P>(rows: Rows<K, P>) {
    forall r, s {:trigger Succeeded(rows, r), s in rows} ::
      r in rows && s in rows && r.id == s.id && r.validFrom < s.validFrom ==> Succeeded(rows, r)
  }

  ghost predicate Coherent<K, P>(rows: Rows<K, P>, now: int) {
    Dated(rows, now) && Keyed(rows) && Apart(rows) && Contiguous(rows)
  }

  /** First versions of different ids and keys, none closed yet. */
  lemma FirstVersionsCoherent<K, P>(rows: Rows<K, P>, now: int)
    requires forall r :: r in rows ==> r.Open() && r.validFrom <= now
    requires forall r, s :: r in rows && s in rows && (r.id == s.id || r.key == s.key) ==> r == s
    ensures Coherent(rows, now)
  {
  }

  /* ---------------------------------------------------------------- reading */

  ghost function Current<K, P>(rows: Rows<K, P>, key: K): (c: Option<Version<K, P>>)
    ensures c.Some? ==> c.value in rows && c.value.Open() && c.value.key == key
    ensures c.None? ==> forall r :: r in rows && r.Open() ==> r.key != key
  {
    if r :| r in rows && r.Open() && r.key == key then Some(r) else None
  }

  ghost function CurrentById<K, P>(rows: Rows<K, P>, id: nat): (c: Option<Version<K, P>>)
    ensures c.Some? ==> c.value in rows && c.value.Open() && c.value.id == id
    ensures c.None? ==> forall r :: r in rows && r.Open() ==> r.id != id
  {
    if r :| r in rows && r.Open() && r.id == id then Some(r) else None
  }

  ghost function OpenKeys<K, P>(rows: Rows<K, P>): set<K> { set r | r in rows && r.Open() :: r.key }

  ghost function OpenIds<K, P>(rows: Rows<K, P>): set<nat> { set r | r in rows && r.Open() :: r.id }

  /** The current state of the table: its open rows by identity key. */
  ghost function OpenMap<K, P>(rows: Rows<K, P>): (m: map<K, Version<K, P>>)
    ensures m.Keys == OpenKeys(rows)
  {
    map k | k in OpenKeys(rows) :: Current(rows, k).value
  }

  ghost function AsOf<K, P>(rows: Rows<K, P>, ts: int): Rows<K, P> { set r | r in rows && r.At(ts) }

  lemma OneOpen<K, P>(rows: Rows<K, P>, now: int, r: Version<K, P>, s: Version<K, P>)
    requires Coherent(rows, now) && r in rows && s in rows && r.Open() && s.Open()
    requires r.key == s.key || r.id == s.id
    ensures r == s
  {
  }

  lemma OpenRow<K, P>(rows: Rows<K, P>, now: int, r: Version<K, P>)
    requires Coherent(rows, now) && r in rows && r.Open()
    ensures Current(rows, r.key) == Some(r) && CurrentById(rows, r.id) == Some(r)
    ensures r.key in OpenMap(rows) && OpenMap(rows)[r.key] == r
  {
    hide Coherent;
    OneOpen(rows, now, r, Current(rows, r.key).value);
    OneOpen(rows, now, r, CurrentById(rows, r.id).value);
  }

  lemma OpenMapRow<K, P>(rows: Rows<K, P>, key: K)
    requires key in OpenMap(rows)
    ensures OpenMap(rows)[key] in rows && OpenMap(rows)[key].Open() && OpenMap(rows)[key].key == key
  {
  }

  /** At every instant at most one row per identity key and per id is valid. */
  lemma AsOfUnique<K, P>(rows: Rows<K, P>, now: int, ts: int, r: Version<K, P>, s: Version<K, P>)
    requires Coherent(rows, now) && r in AsOf(rows, ts) && s in AsOf(rows, ts)
    requires r.key == s.key || r.id == s.id
    ensures r == s
  {
  }

  /** Reading at the present instant, or later, gives the open rows. */
  lemma NowIsCurrent<K, P>(rows: Rows<K, P>, now: int, ts: int, r: Version<K, P>)
    requires Coherent(rows, now) && ts >= now
    ensures r in AsOf(rows, ts) <==> r in rows && r.validTo.None?
  {
    hide Keyed, Apart, Contiguous;
  }

  /** A version is read from the instant that opens it up to, not including, the one that closes it. */
  lemma ReadBetween<K, P>(rows: Rows<K, P>, r: Version<K, P>, t: int)
    requires r in rows && r.validTo == Some(t) && r.validFrom < t
    ensures r in AsOf(rows, r.validFrom) && r in AsOf(rows, t - 1) && r !in AsOf(rows, t) && r !in AsOf(rows, r.validFrom - 1)
  {
  }

  /* ---------------------------------------------------------------- writing */

  function Insert<K(==), P(==)>(rows: Rows<K, P>, r: Version<K, P>): Rows<K, P> { rows + {r} }

  function CloseRow<K(==), P(==)>(rows: Rows<K, P>, r: Version<K, P>, now: int): Rows<K, P> {
    rows - {r} + {r.(validTo := Some(now))}
  }

  function NewVersion<K, P>(r: Version<K, P>, data: P, now: int): Version<K, P> {
    Version(r.id, r.key, data, now, now, None)
  }

  function Supersede<K(==), P(==)>(rows: Rows<K, P>, r: Version<K, P>, data: P, now: int): Rows<K, P> {
    CloseRow(rows, r, now) + {NewVersion(r, data, now)}
  }

  function Touch<K(==), P(==)>(rows: Rows<K, P>, r: Version<K, P>, now: int): Rows<K, P> {
    rows - {r} + {r.(lastSeen := now)}
  }

  ghost predicate Insertable<K, P>(rows: Rows<K, P>, r: Version<K, P>, now: int) {
    && r.Open() && r.validFrom == now
    && (forall s :: s in rows ==> s.id != r.id && !(s.Open() && s.key == r.key))
  }

  lemma InsertCoherent<K, P>(rows: Rows<K, P>, now: int, r: Version<K, P>)
    requires Coherent(rows, now) && Insertable(rows, r, now)
    ensures Coherent(Insert(rows, r), now)
  {
    var after := Insert(rows, r);
    forall a, b | a in after && b in after && a.id == b.id && a.validFrom < b.validFrom
      ensures Succeeded(after, a)
    {
      assert Succeeded(rows, a);
      var t :| t in rows && t.id == a.id && t.validFrom == a.validTo.value && t != a;
      assert t in after;
    }
  }

  /** Rewriting an open row in place leaves the chains contiguous. */
  lemma ReplaceContiguous<K, P>(rows: Rows<K, P>, r: Version<K, P>, c: Version<K, P>)
    requires Contiguous(rows) && Keyed(rows) && r in rows && r.Open() && c.id == r.id && c.validFrom == r.validFrom
    ensures Contiguous(rows - {r} + {c})
  {
    var after := rows - {r} + {c};
    forall a, b | a in after && b in after && a.id == b.id && a.validFrom < b.validFrom
      ensures Succeeded(after, a)
    {
      var a0, b0 := if a == c then r else a, if b == c then r else b;
      assert Succeeded(rows, a0);
      var t :| t in rows && t.id == a0.id && t.validFrom == a0.validTo.value && t != a0;
      assert (if t == r then c else t) in after;
    }
  }

  lemma CloseCoherent<K, P>(rows: Rows<K, P>, now: int, r: Version<K, P>)
    requires Coherent(rows, now) && r in rows && r.Open()
    ensures Coherent(CloseRow(rows, r, now), now)
  {
    ReplaceContiguous(rows, r, r.(validTo := Some(now)));
    hide Contiguous;
  }

  lemma SupersedeCoherent<K, P>(rows: Rows<K, P>, now: int, r: Version<K, P>, data: P)
    requires Coherent(rows, now) && r in rows && r.Open() && r.validFrom < now
    ensures Coherent(Supersede(rows, r, data, now), now)
  {
    CloseCoherent(rows, now, r);
    var mid, c, n := CloseRow(rows, r, now), r.(validTo := Some(now)), NewVersion(r, data, now);
    var after := Supersede(rows, r, data, now);
    assert c in after && n in after;
    LastVersion(rows, now, r);
    forall a, b | a in after && b in after && a.id == b.id && a.validFrom < b.validFrom
      ensures Succeeded(after, a)
    {
      if a == c {
        assert n.validFrom == c.validTo.value && n != c;
      } else {
        if b == n { assert a in rows && a.validFrom < c.validFrom && c in mid; }
        assert Succeeded(mid, a);
        var t :| t in mid && t.id == a.id && t.validFrom == a.validTo.value && t != a;
        assert t in after;
      }
    }
  }

  /** The open row of an id is its last version. */
  lemma LastVersion<K, P>(rows: Rows<K, P>, now: int, r: Version<K, P>)
    requires Coherent(rows, now) && r in rows && r.Open()
    ensures forall s :: s in rows && s.key == r.key && s != r ==> Before(s, r)
    ensures forall s :: s in rows && s.id == r.id && s != r ==> s.validFrom < r.validFrom && Before(s, r)
  {
    forall s | s in rows && s.id == r.id && s != r ensures s.validFrom < r.validFrom {
      assert r.validFrom < s.validFrom ==> Succeeded(rows, r);
    }
  }

  lemma TouchCoherent<K, P>(rows: Rows<K, P>, now: int, r: Version<K, P>)
    requires Coherent(rows, now) && r in rows && r.Open()
    ensures Coherent(Touch(rows, r, now), now)
  {
    ReplaceContiguous(rows, r, r.(lastSeen := now));
    hide Contiguous;
  }

  /** Close the open rows of several keys. */
  function CloseMany<K(==), P(==)>(rows: Rows<K, P>, keys: set<K>, now: int): Rows<K, P> {
    set r | r in rows :: ClosedIf(r, keys, now)
  }

  function ClosedIf<K(==), P>(r: Version<K, P>, keys: set<K>, now: int): Version<K, P> {
    if r.Open() && r.key in keys then r.(validTo := Some(now)) else r
  }

  lemma Preimage<K, P>(rows: Rows<K, P>, keys: set<K>, now: int, a: Version<K, P>) returns (r: Version<K, P>)
    requires a in CloseMany(rows, keys, now)
    ensures r in rows && ClosedIf(r, keys, now) == a
  {
    r :| r in rows && ClosedIf(r, keys, now) == a;
  }

  lemma CloseManyPair<K, P>(rows: Rows<K, P>, keys: set<K>, now: int, a: Version<K, P>, b: Version<K, P>)
    requires Dated(rows, now) && Keyed(rows) && Apart(rows)
    requires a in CloseMany(rows, keys, now) && b in CloseMany(rows, keys, now)
    ensures a.id == b.id ==> a.key == b.key && (a.validFrom == b.validFrom ==> a == b)
    ensures a.key == b.key && a != b ==> Before(a, b) || Before(b, a)
  {
    var r := Preimage(rows, keys, now, a);
    var s := Preimage(rows, keys, now, b);
  }

  lemma CloseManyCoherent<K, P>(rows: Rows<K, P>, keys: set<K>, now: int)
    requires Coherent(rows, now)
    ensures Coherent(CloseMany(rows, keys, now), now)
  {
    var after := CloseMany(rows, keys, now);
    assert Dated(after, now);
    assert Keyed(after) && Apart(after) by {
      hide Dated, Keyed, Apart, Contiguous, CloseMany;
      CloseManyPairs(rows, keys, now);
    }
    CloseManyContiguous(rows, keys, now);
  }

  lemma CloseManyPairs<K, P>(rows: Rows<K, P>, keys: set<K>, now: int)
    requires Dated(rows, now) && Keyed(rows) && Apart(rows)
    ensures Keyed(CloseMany(rows, keys, now)) && Apart(CloseMany(rows, keys, now))
  {
    var after := CloseMany(rows, keys, now);
    hide CloseMany;
    forall a, b | a in after && b in after
      ensures a.id == b.id ==> a.key == b.key && (a.validFrom == b.validFrom ==> a == b)
      ensures a.key == b.key && a != b ==> Before(a, b) || Before(b, a)
    {
      CloseManyPair(rows, keys, now, a, b);
    }
  }

  lemma CloseManyContiguous<K, P>(rows: Rows<K, P>, keys: set<K>, now: int)
    requires Keyed(rows) && Contiguous(rows)
    ensures Contiguous(CloseMany(rows, keys, now))
  {
    var after := CloseMany(rows, keys, now);
    forall a, b | a in after && b in after && a.id == b.id && a.validFrom < b.validFrom
      ensures Succeeded(after, a)
    {
      var r := Preimage(rows, keys, now, a);
      var s := Preimage(rows, keys, now, b);
      assert Succeeded(rows, r);
      var t :| t in rows && t.id == r.id && t.validFrom == r.validTo.value && t != r;
      assert ClosedIf(t, keys, now) in after && a == r;
    }
  }

  lemma CloseManyNone<K, P>(rows: Rows<K, P>, now: int)
    ensures CloseMany(rows, {}, now) == rows
  {
    forall r | r in rows ensures r in CloseMany(rows, {}, now) { assert ClosedIf(r, {}, now) == r; }
  }

  /** Closing one more key is closing its open row. */
  lemma CloseManyOne<K, P>(rows: Rows<K, P>, keys: set<K>, now: int, r: Version<K, P>)
    requires Coherent(rows, now) && r in rows && r.Open() && r.key !in keys
    ensures r in CloseMany(rows, keys, now)
    ensures CloseMany(rows, keys + {r.key}, now) == CloseRow(CloseMany(rows, keys, now), r, now)
  {
    var mid, after := CloseMany(rows, keys, now), CloseMany(rows, keys + {r.key}, now);
    assert ClosedIf(r, keys, now) == r;
    forall s | s in rows ensures ClosedIf(s, keys + {r.key}, now) in CloseRow(mid, r, now) {
      assert ClosedIf(s, keys, now) in mid;
      if s != r && s.Open() { OneOpenApart(rows, now, r, s); }
    }
    forall x | x in CloseRow(mid, r, now) ensures x in after {
      if x == r.(validTo := Some(now)) {
        assert ClosedIf(r, keys + {r.key}, now) == x;
      } else {
        var s :| s in rows && ClosedIf(s, keys, now) == x;
        if s.Open() && s != r { OneOpenApart(rows, now, r, s); }
        assert ClosedIf(s, keys + {r.key}, now) == x;
      }
    }
  }

  /* ---------------------------------------------------------------- effect on the current state */

  lemma OpenMapIs<K, P>(rows: Rows<K, P>, now: int, m: map<K, Version<K, P>>)
    requires Coherent(rows, now)
    requires forall k :: k in m ==> m[k] in rows && m[k].Open() && m[k].key == k
    requires forall r :: r in rows && r.Open() ==> r.key in m
    ensures OpenMap(rows) == m
  {
    hide Coherent;
    forall k | k in m ensures k in OpenMap(rows) && OpenMap(rows)[k] == m[k] {
      OpenRow(rows, now, m[k]);
    }
  }

  lemma InsertOpen<K, P>(rows: Rows<K, P>, now: int, r: Version<K, P>)
    requires Coherent(rows, now) && Insertable(rows, r, now)
    ensures OpenMap(Insert(rows, r)) == OpenMap(rows)[r.key := r]
  {
    InsertCoherent(rows, now, r);
    hide Coherent;
    OpenMapIs(Insert(rows, r), now, OpenMap(rows)[r.key := r]);
  }

  lemma OneOpenApart<K, P>(rows: Rows<K, P>, now: int, r: Version<K, P>, s: Version<K, P>)
    requires Coherent(rows, now) && r in rows && s in rows && r.Open() && s.Open() && r != s
    ensures r.key != s.key && r.id != s.id
  {
  }

  lemma SupersedeOpen<K, P>(rows: Rows<K, P>, now: int, r: Version<K, P>, data: P)
    requires Coherent(rows, now) && r in rows && r.Open() && r.validFrom < now
    ensures OpenMap(Supersede(rows, r, data, now)) == OpenMap(rows)[r.key := NewVersion(r, data, now)]
  {
    SupersedeCoherent(rows, now, r, data);
    hide Coherent;
    OpenRow(rows, now, r);
    var m := OpenMap(rows)[r.key := NewVersion(r, data, now)];
    OpenMapIs(Supersede(rows, r, data, now), now, m);
  }

  lemma TouchOpen<K, P>(rows: Rows<K, P>, now: int, r: Version<K, P>)
    requires Coherent(rows, now) && r in rows && r.Open()
    ensures OpenMap(Touch(rows, r, now)) == OpenMap(rows)[r.key := r.(lastSeen := now)]
  {
    TouchCoherent(rows, now, r);
    hide Coherent;
    OpenRow(rows, now, r);
    var m := OpenMap(rows)[r.key := r.(lastSeen := now)];
    OpenMapIs(Touch(rows, r, now), now, m);
  }

  lemma CloseManyOpen<K, P>(rows: Rows<K, P>, keys: set<K>, now: int)
    requires Coherent(rows, now)
    ensures OpenMap(CloseMany(rows, keys, now)) == OpenMap(rows) - keys
  {
    CloseManyCoherent(rows, keys, now);
    hide Coherent;
    var m := OpenMap(rows) - keys;
    forall k | k in m ensures m[k] in CloseMany(rows, keys, now) && m[k].Open() && m[k].key == k {
      OpenMapRow(rows, k);
      assert ClosedIf(m[k], keys, now) == m[k];
    }
    OpenMapIs(CloseMany(rows, keys, now), now, m);
  }

  /* ---------------------------------------------------------------- time travel */

  /** What a row says about the past: all but when it ended and when it was last seen. */
  datatype Fact<K, P> = Fact(id: nat, key: K, data: P, validFrom: int)

  ghost function FactOf<K, P>(r: Version<K, P>): Fact<K, P> { Fact(r.id, r.key, r.data, r.validFrom) }

  ghost function FactsAt<K, P>(rows: Rows<K, P>, ts: int): set<Fact<K, P>> {
    set r | r in rows && r.At(ts) :: FactOf(r)
  }

  /** Every instant before `now` is remembered as it was. */
  ghost predicate Stable<K, P>(before: Rows<K, P>, after: Rows<K, P>, now: int) {
    forall ts :: ts < now ==> FactsAt(after, ts) == FactsAt(before, ts)
  }

  lemma InsertStable<K, P>(rows: Rows<K, P>, now: int, r: Version<K, P>)
    requires r.validFrom == now
    ensures Stable(rows, Insert(rows, r), now)
  {
  }

  lemma ReplaceStable<K, P>(rows: Rows<K, P>, now: int, r: Version<K, P>, c: Version<K, P>)
    requires r in rows && FactOf(c) == FactOf(r)
    requires forall ts :: ts < now ==> (c.At(ts) <==> r.At(ts))
    ensures Stable(rows, rows - {r} + {c}, now)
  {
    forall ts | ts < now ensures FactsAt(rows - {r} + {c}, ts) == FactsAt(rows, ts) {
      forall f | f in FactsAt(rows, ts) ensures f in FactsAt(rows - {r} + {c}, ts) {
        var s :| s in rows && s.At(ts) && FactOf(s) == f;
        assert (if s == r then c else s) in rows - {r} + {c};
      }
    }
  }

  lemma CloseStable<K, P>(rows: Rows<K, P>, now: int, r: Version<K, P>)
    requires r in rows && r.Open()
    ensures Stable(rows, CloseRow(rows, r, now), now)
  {
    ReplaceStable(rows, now, r, r.(validTo := Some(now)));
  }

  lemma SupersedeStable<K, P>(rows: Rows<K, P>, now: int, r: Version<K, P>, data: P)
    requires r in rows && r.Open()
    ensures Stable(rows, Supersede(rows, r, data, now), now)
  {
    hide FactsAt;
    CloseStable(rows, now, r);
    InsertStable(CloseRow(rows, r, now), now, NewVersion(r, data, now));
  }

  lemma TouchStable<K, P>(rows: Rows<K, P>, now: int, r: Version<K, P>)
    requires r in rows && r.Open()
    ensures Stable(rows, Touch(rows, r, now), now)
  {
    ReplaceStable(rows, now, r, r.(lastSeen := now));
  }

  lemma CloseManyStable<K, P>(rows: Rows<K, P>, keys: set<K>, now: int)
    ensures Stable(rows, CloseMany(rows, keys, now), now)
  {
    var after := CloseMany(rows, keys, now);
    forall ts | ts < now ensures FactsAt(after, ts) == FactsAt(rows, ts) {
      forall f | f in FactsAt(rows, ts) ensures f in FactsAt(after, ts) {
        var s :| s in rows && s.At(ts) && FactOf(s) == f;
        assert ClosedIf(s, keys, now) in after;
      }
    }
  }

  lemma StableTrans<K, P>(a: Rows<K, P>, b: Rows<K, P>, c: Rows<K, P>, now: int)
    requires Stable(a, b, now) && Stable(b, c, now)
    ensures Stable(a, c, now)
  {
  }

  /** The one effect every successful upsert has: r is now the open row of its key, the rest of
      the current state and the past are as they were. */
  ghost predicate Puts<K, P>(before: Rows<K, P>, after: Rows<K, P>, now: int, r: Version<K, P>) {
    && Coherent(after, now) && r in after && r.Open()
    && OpenMap(after) == OpenMap(before)[r.key := r]
    && Stable(before, after, now)
  }

  lemma InsertPuts<K, P>(rows: Rows<K, P>, now: int, r: Version<K, P>)
    requires Coherent(rows, now) && Insertable(rows, r, now)
    ensures Puts(rows, Insert(rows, r), now, r)
  {
    hide Coherent, OpenMap, Stable;
    InsertCoherent(rows, now, r);
    InsertOpen(rows, now, r);
    InsertStable(rows, now, r);
  }

  lemma SupersedePuts<K, P>(rows: Rows<K, P>, now: int, r: Version<K, P>, data: P)
    requires Coherent(rows, now) && r in rows && r.Open() && r.validFrom < now
    ensures Puts(rows, Supersede(rows, r, data, now), now, NewVersion(r, data, now))
  {
    hide Coherent, OpenMap, Stable;
    SupersedeCoherent(rows, now, r, data);
    SupersedeOpen(rows, now, r, data);
    SupersedeStable(rows, now, r, data);
  }

  lemma TouchPuts<K, P>(rows: Rows<K, P>, now: int, r: Version<K, P>)
    requires Coherent(rows, now) && r in rows && r.Open()
    ensures Puts(rows, Touch(rows, r, now), now, r.(lastSeen := now))
  {
    hide Coherent, OpenMap, Stable;
    TouchCoherent(rows, now, r);
    TouchOpen(rows, now, r);
    TouchStable(rows, now, r);
  }

  lemma SamePuts<K, P>(rows: Rows<K, P>, now: int, r: Version<K, P>)
    requires Coherent(rows, now) && r in rows && r.Open()
    ensures Puts(rows, rows, now, r)
  {
    OpenRow(rows, now, r);
  }

  lemma OpenStarted<K, P>(rows: Rows<K, P>, now: int, r: Version<K, P>)
    requires Coherent(rows, now) && r in rows
    ensures r.validFrom <= now
  {
  }
}
