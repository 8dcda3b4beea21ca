/** The change feed, derived from validity intervals alone
    (services/query/src/infra_twin/query/change_feed.py). */
module ChangeFeed {
  import opened Model
  import opened Versions
  import opened Retention

  datatype Kind = Created | Updated | Removed

  datatype Change<K> = Change(kind: Kind, id: nat, key: K, at: int)

  predicate InWindow(t: int, since: int, until: int) { since <= t < until }

  /** EXISTS a version of the same id that closed when this one opened. */
  predicate PrecededBy<K(==), P(==)>(rows: Rows<K, P>, r: Version<K, P>) {
    exists p :: p in rows && p.id == r.id && p.validTo == Some(r.validFrom)
  }

  /** EXISTS a version of the same id that opened when this one closed. */
  predicate FollowedBy<K(==), P(==)>(rows: Rows<K, P>, r: Version<K, P>) {
    exists s :: s in rows && s.id == r.id && r.validTo == Some(s.validFrom)
  }

  predicate IsRemoved<K(==), P(==)>(rows: Rows<K, P>, r: Version<K, P>, since: int, until: int) {
    r.validTo.Some? && InWindow(r.validTo.value, since, until) && !FollowedBy(rows, r)
  }

  function OpenEvent<K(==), P(==)>(rows: Rows<K, P>, r: Version<K, P>): Change<K> {
    Change(if PrecededBy(rows, r) then Updated else Created, r.id, r.key, r.validFrom)
  }

  function RemoveEvent<K, P>(r: Version<K, P>): Change<K>
    requires r.validTo.Some?
  {
    Change(Removed, r.id, r.key, r.validTo.value)
  }

  /** The two halves of the UNION ALL. */
  function Feed<K(==), P(==)>(rows: Rows<K, P>, since: int, until: int): set<Change<K>> {
    (set r | r in rows && InWindow(r.validFrom, since, until) :: OpenEvent(rows, r)) +
    (set r | r in rows && IsRemoved(rows, r, since, until) :: RemoveEvent(r))
  }

  ghost function IdsOf<K>(feed: set<Change<K>>, kind: Kind): set<nat> {
    set e | e in feed && e.kind == kind :: e.id
  }

  /** The ids that are open just before t. */
  ghost function LiveBefore<K, P>(rows: Rows<K, P>, t: int): set<nat> {
    set r | r in rows && r.validFrom < t && (r.validTo.None? || r.validTo.value >= t) :: r.id
  }

  /** What a consumer of created and removed events believes at the end of the window. */
  ghost function Replay<K, P>(rows: Rows<K, P>, since: int, until: int): set<nat> {
    LiveBefore(rows, since) + IdsOf(Feed(rows, since, until), Created) - IdsOf(Feed(rows, since, until), Removed)
  }

  ghost predicate ZeroWidth<K, P>(r: Version<K, P>) { r.validTo == Some(r.validFrom) }

  /** A version opened and closed by one transaction on top of an earlier version. */
  ghost predicate Zombie<K, P>(rows: Rows<K, P>, since: int, until: int) {
    exists p, r :: p in rows && r in rows && p.id == r.id && p.validFrom < r.validFrom
                && ZeroWidth(r) && InWindow(r.validFrom, since, until)
  }

  /* ---------------------------------------------------------------- chains */

  /** Any version but the last of its id has positive width and a version that follows it. */
  lemma Continues<K, P>(rows: Rows<K, P>, now: int, r: Version<K, P>, s: Version<K, P>)
    requires Coherent(rows, now) && r in rows && s in rows && r.id == s.id && r.validFrom < s.validFrom
    ensures FollowedBy(rows, r) && r.validFrom < r.validTo.value <= s.validFrom
  {
    assert Succeeded(rows, r);
    var t :| t in rows && t.id == r.id && t.validFrom == r.validTo.value && t != r;
  }

  ghost function EarlierOf<K, P>(rows: Rows<K, P>, id: nat, t: int): Rows<K, P> {
    set q | q in rows && q.id == id && q.validFrom < t
  }

  ghost function LaterOf<K, P>(rows: Rows<K, P>, id: nat, t: int): Rows<K, P> {
    set q | q in rows && q.id == id && q.validFrom > t
  }

  lemma Fewer<K, P>(rows: Rows<K, P>, a: Version<K, P>, b: Version<K, P>)
    requires a in rows && b in rows && a.id == b.id && a.validFrom < b.validFrom
    ensures EarlierOf(rows, a.id, a.validFrom) < EarlierOf(rows, b.id, b.validFrom)
    ensures LaterOf(rows, b.id, b.validFrom) < LaterOf(rows, a.id, a.validFrom)
  {
    assert a in EarlierOf(rows, b.id, b.validFrom) && a !in EarlierOf(rows, a.id, a.validFrom);
    assert b in LaterOf(rows, a.id, a.validFrom) && b !in LaterOf(rows, b.id, b.validFrom);
  }

  lemma ZeroWidthIsLast<K, P>(rows: Rows<K, P>, now: int, r: Version<K, P>, s: Version<K, P>)
    requires Coherent(rows, now) && r in rows && s in rows && r.id == s.id && ZeroWidth(r)
    ensures s.validFrom <= r.validFrom
  {
    if r.validFrom < s.validFrom { Continues(rows, now, r, s); }
  }

  lemma LatestBefore<K, P>(rows: Rows<K, P>, r: Version<K, P>, s: Version<K, P>) returns (p: Version<K, P>)
    requires r in rows && s in rows && r.id == s.id && r.validFrom < s.validFrom
    ensures p in rows && p.id == s.id && p.validFrom < s.validFrom
    ensures forall q :: q in rows && q.id == s.id && q.validFrom < s.validFrom ==> q.validFrom <= p.validFrom
  {
    var earlier := set q | q in rows && q.id == s.id && q.validFrom < s.validFrom;
    assert r in earlier;
    p := Latest(earlier);
  }

  /** A version is preceded by another exactly when the id has an earlier version. */
  lemma NotFirst<K, P>(rows: Rows<K, P>, now: int, r: Version<K, P>, s: Version<K, P>)
    requires Coherent(rows, now) && r in rows && s in rows && r.id == s.id && r.validFrom < s.validFrom
    ensures exists p :: p in rows && p.id == s.id && p.validTo == Some(s.validFrom) && p.validFrom < s.validFrom
    ensures PrecededBy(rows, s)
  {
    var p := LatestBefore(rows, r, s);
    assert Succeeded(rows, p);
    var t :| t in rows && t.id == p.id && t.validFrom == p.validTo.value && t != p;
    assert Before(p, s);
    assert p.validFrom < t.validFrom;
    assert t.validFrom <= s.validFrom;
  }

  lemma PredecessorIsEarlier<K, P>(rows: Rows<K, P>, now: int, r: Version<K, P>) returns (p: Version<K, P>)
    requires Coherent(rows, now) && r in rows && PrecededBy(rows, r) && !ZeroWidth(r)
    ensures p in rows && p.id == r.id && p.validTo == Some(r.validFrom) && p.validFrom < r.validFrom
  {
    p :| p in rows && p.id == r.id && p.validTo == Some(r.validFrom);
  }

  /** Going back from a version, the chain reaches the start of the window or a created event. */
  lemma {:induction false} Origin<K, P>(rows: Rows<K, P>, now: int, since: int, until: int, r: Version<K, P>)
    requires Coherent(rows, now) && r in rows && !ZeroWidth(r)
    requires r.validFrom < until && (r.validTo.None? || r.validTo.value >= since)
    ensures r.id in LiveBefore(rows, since) || r.id in IdsOf(Feed(rows, since, until), Created)
    decreases EarlierOf(rows, r.id, r.validFrom)
  {
    if r.validFrom >= since {
      if PrecededBy(rows, r) {
        var p := PredecessorIsEarlier(rows, now, r);
        Fewer(rows, p, r);
        Origin(rows, now, since, until, p);
      } else {
        assert OpenEvent(rows, r) in Feed(rows, since, until);
      }
    }
  }

  /** Going forward, the chain reaches the end of the window or a removed event. */
  lemma {:induction false} Outcome<K, P>(rows: Rows<K, P>, now: int, since: int, until: int, r: Version<K, P>)
    requires Coherent(rows, now) && r in rows && !ZeroWidth(r) && !Zombie(rows, since, until)
    requires r.validFrom < until && (r.validTo.None? || r.validTo.value >= since)
    ensures r.id in LiveBefore(rows, until) || r.id in IdsOf(Feed(rows, since, until), Removed)
    decreases LaterOf(rows, r.id, r.validFrom)
  {
    if r.validTo.Some? && r.validTo.value < until {
      if FollowedBy(rows, r) {
        var s :| s in rows && s.id == r.id && r.validTo == Some(s.validFrom);
        assert r.validFrom < s.validFrom;
        Fewer(rows, r, s);
        Outcome(rows, now, since, until, s);
      } else {
        assert RemoveEvent(r) in Feed(rows, since, until);
      }
    }
  }

  lemma CreatedRow<K, P>(rows: Rows<K, P>, since: int, until: int, id: nat) returns (r: Version<K, P>)
    requires id in IdsOf(Feed(rows, since, until), Created)
    ensures r in rows && r.id == id && InWindow(r.validFrom, since, until) && !PrecededBy(rows, r)
  {
    var e :| e in Feed(rows, since, until) && e.kind == Created && e.id == id;
    r :| r in rows && InWindow(r.validFrom, since, until) && OpenEvent(rows, r) == e;
  }

  lemma RemovedRow<K, P>(rows: Rows<K, P>, since: int, until: int, id: nat) returns (r: Version<K, P>)
    requires id in IdsOf(Feed(rows, since, until), Removed)
    ensures r in rows && r.id == id && IsRemoved(rows, r, since, until)
  {
    var e :| e in Feed(rows, since, until) && e.kind == Removed && e.id == id;
    r :| r in rows && IsRemoved(rows, r, since, until) && RemoveEvent(r) == e;
  }

  lemma RemovedIsGone<K, P>(rows: Rows<K, P>, now: int, since: int, until: int, id: nat)
    requires Coherent(rows, now) && id in IdsOf(Feed(rows, since, until), Removed)
    ensures id !in LiveBefore(rows, until)
  {
    var q := RemovedRow(rows, since, until, id);
    forall r | r in rows && r.id == id && r.validFrom < until ensures r.validTo.Some? && r.validTo.value < until {
      if q.validFrom < r.validFrom {
        Continues(rows, now, q, r);
      } else if r != q {
        assert Before(r, q);
      }
    }
  }

  /* ---------------------------------------------------------------- replay */

  /** Replay never loses an id. */
  lemma ReplayCovers<K, P>(rows: Rows<K, P>, now: int, since: int, until: int)
    requires Coherent(rows, now) && since <= until
    ensures LiveBefore(rows, until) <= Replay(rows, since, until)
  {
    hide Feed, IdsOf;
    forall id | id in LiveBefore(rows, until) ensures id in Replay(rows, since, until) {
      var r :| r in rows && r.id == id && r.validFrom < until && (r.validTo.None? || r.validTo.value >= until);
      Origin(rows, now, since, until, r);
      if id in IdsOf(Feed(rows, since, until), Removed) { RemovedIsGone(rows, now, since, until, id); }
    }
  }

  lemma ReplayRight<K, P>(rows: Rows<K, P>, now: int, since: int, until: int)
    requires Coherent(rows, now) && since <= until && !Zombie(rows, since, until)
    ensures Replay(rows, since, until) == LiveBefore(rows, until)
  {
    hide Feed, IdsOf, Zombie;
    ReplayCovers(rows, now, since, until);
    forall id | id in Replay(rows, since, until) ensures id in LiveBefore(rows, until) {
      if id in LiveBefore(rows, since) {
        var r :| r in rows && r.id == id && r.validFrom < since && (r.validTo.None? || r.validTo.value >= since);
        Outcome(rows, now, since, until, r);
      } else {
        var r := CreatedRow(rows, since, until, id);
        CreatedIsReal(rows, now, r);
        Outcome(rows, now, since, until, r);
      }
    }
  }

  /** A created event is never reported for a version of zero width. */
  lemma CreatedIsReal<K, P>(rows: Rows<K, P>, now: int, r: Version<K, P>)
    requires Coherent(rows, now) && r in rows && !PrecededBy(rows, r)
    ensures !ZeroWidth(r)
    ensures r.validTo.Some? ==> r.validTo.value > r.validFrom
  {
  }

  lemma ReplayWrong<K, P>(rows: Rows<K, P>, now: int, since: int, until: int)
    requires Coherent(rows, now) && since <= until && Zombie(rows, since, until)
    ensures Replay(rows, since, until) != LiveBefore(rows, until)
  {
    hide Feed, IdsOf;
    var p, r :| p in rows && r in rows && p.id == r.id && p.validFrom < r.validFrom
                && ZeroWidth(r) && InWindow(r.validFrom, since, until);
    var id := r.id;
    NotFirst(rows, now, p, r);
    var q :| q in rows && q.id == r.id && q.validTo == Some(r.validFrom) && q.validFrom < r.validFrom;
    Origin(rows, now, since, until, q);
    assert id !in LiveBefore(rows, until) by {
      forall s | s in rows && s.id == id ensures s.validTo.Some? && s.validTo.value < until {
        ZeroWidthIsLast(rows, now, r, s);
        if s.validFrom < r.validFrom { Continues(rows, now, s, r); }
      }
    }
    assert id !in IdsOf(Feed(rows, since, until), Removed) by {
      if id in IdsOf(Feed(rows, since, until), Removed) { NotRemoved(rows, now, since, until, r); }
    }
  }

  lemma NotRemoved<K, P>(rows: Rows<K, P>, now: int, since: int, until: int, r: Version<K, P>)
    requires Coherent(rows, now) && r in rows && ZeroWidth(r)
    ensures r.id !in IdsOf(Feed(rows, since, until), Removed)
  {
    if r.id in IdsOf(Feed(rows, since, until), Removed) {
      var s := RemovedRow(rows, since, until, r.id);
      ZeroWidthIsLast(rows, now, r, s);
      if s.validFrom < r.validFrom { Continues(rows, now, s, r); } else { ZeroFollowsItself(rows, r); }
    }
  }

  lemma ZeroFollowsItself<K, P>(rows: Rows<K, P>, r: Version<K, P>)
    requires r in rows && ZeroWidth(r)
    ensures FollowedBy(rows, r) && PrecededBy(rows, r)
  {
  }

  /** Replaying created and removed events over the ids open just before the window gives exactly
      the ids open just before its end, if and only if no version in the window was opened and
      closed at one instant on top of an earlier version. */
  lemma ReplayExact<K, P>(rows: Rows<K, P>, now: int, since: int, until: int)
    requires Coherent(rows, now) && since <= until
    ensures Replay(rows, since, until) == LiveBefore(rows, until) <==> !Zombie(rows, since, until)
  {
    hide Coherent, Replay, LiveBefore, Zombie;
    if Zombie(rows, since, until) { ReplayWrong(rows, now, since, until); } else { ReplayRight(rows, now, since, until); }
  }

  /* ---------------------------------------------------------------- counting */

  ghost function EventsOf<K>(feed: set<Change<K>>, kind: Kind): set<Change<K>> { set e | e in feed && e.kind == kind }

  ghost predicate OnePerId<K>(events: set<Change<K>>) {
    forall a, b :: a in events && b in events && a.id == b.id ==> a == b
  }

  lemma {:induction false} CountIds<K>(events: set<Change<K>>)
    requires OnePerId(events)
    ensures |set e | e in events :: e.id| == |events|
    decreases events
  {
    if events != {} {
      var a :| a in events;
      CountIds(events - {a});
      assert (set e | e in events :: e.id) == (set e | e in events - {a} :: e.id) + {a.id};
    }
  }

  lemma OneCreated<K, P>(rows: Rows<K, P>, now: int, since: int, until: int)
    requires Coherent(rows, now)
    ensures OnePerId(EventsOf(Feed(rows, since, until), Created))
  {
    var events := EventsOf(Feed(rows, since, until), Created);
    forall a, b | a in events && b in events && a.id == b.id ensures a == b {
      var r :| r in rows && InWindow(r.validFrom, since, until) && OpenEvent(rows, r) == a;
      var s :| s in rows && InWindow(s.validFrom, since, until) && OpenEvent(rows, s) == b;
      if r.validFrom < s.validFrom { NotFirst(rows, now, r, s); }
      if s.validFrom < r.validFrom { NotFirst(rows, now, s, r); }
    }
  }

  lemma OneRemoved<K, P>(rows: Rows<K, P>, now: int, since: int, until: int)
    requires Coherent(rows, now)
    ensures OnePerId(EventsOf(Feed(rows, since, until), Removed))
  {
    var events := EventsOf(Feed(rows, since, until), Removed);
    forall a, b | a in events && b in events && a.id == b.id ensures a == b {
      var r :| r in rows && IsRemoved(rows, r, since, until) && RemoveEvent(r) == a;
      var s :| s in rows && IsRemoved(rows, s, since, until) && RemoveEvent(s) == b;
      if r.validFrom < s.validFrom { Continues(rows, now, r, s); }
      if s.validFrom < r.validFrom { Continues(rows, now, s, r); }
    }
  }

  /** An id has at most one created and one removed event in a window. */
  lemma CountEvents<K, P>(rows: Rows<K, P>, now: int, since: int, until: int)
    requires Coherent(rows, now)
    ensures |EventsOf(Feed(rows, since, until), Created)| == |IdsOf(Feed(rows, since, until), Created)|
    ensures |EventsOf(Feed(rows, since, until), Removed)| == |IdsOf(Feed(rows, since, until), Removed)|
  {
    var feed := Feed(rows, since, until);
    OneCreated(rows, now, since, until);
    OneRemoved(rows, now, since, until);
    CountIds(EventsOf(feed, Created));
    CountIds(EventsOf(feed, Removed));
    hide Feed;
    assert IdsOf(feed, Created) == set e | e in EventsOf(feed, Created) :: e.id;
    assert IdsOf(feed, Removed) == set e | e in EventsOf(feed, Removed) :: e.id;
  }

  /** Created events are about ids that were not open, removed ones about ids that are. */
  lemma ReplayCount<K, P>(rows: Rows<K, P>, now: int, since: int, until: int)
    requires Coherent(rows, now) && since <= until
    ensures |Replay(rows, since, until)| == |LiveBefore(rows, since)| + |IdsOf(Feed(rows, since, until), Created)|
                                            - |IdsOf(Feed(rows, since, until), Removed)|
  {
    hide Feed, IdsOf;
    var live := LiveBefore(rows, since);
    var created, removed := IdsOf(Feed(rows, since, until), Created), IdsOf(Feed(rows, since, until), Removed);
    forall id | id in created ensures id !in live {
      var c := CreatedRow(rows, since, until, id);
      if r :| r in rows && r.id == id && r.validFrom < since { NotFirst(rows, now, r, c); }
    }
    forall id | id in removed ensures id in live + created {
      var r := RemovedRow(rows, since, until, id);
      assert ZeroWidth(r) ==> FollowedBy(rows, r);
      Origin(rows, now, since, until, r);
    }
    assert |live + created| == |live| + |created|;
    assert |live + created - removed| == |live + created| - |removed|;
  }

  /** The number of created events minus the number of removed ones is the change in the number of
      open ids, if and only if no version in the window was opened and closed at one instant on top
      of an earlier version. */
  lemma CountsBalance<K, P>(rows: Rows<K, P>, now: int, since: int, until: int)
    requires Coherent(rows, now) && since <= until
    ensures |EventsOf(Feed(rows, since, until), Created)| - |EventsOf(Feed(rows, since, until), Removed)|
            == |LiveBefore(rows, until)| - |LiveBefore(rows, since)|
            <==> !Zombie(rows, since, until)
  {
    hide Feed, IdsOf, EventsOf, Zombie, Replay, LiveBefore;
    CountEvents(rows, now, since, until);
    ReplayCount(rows, now, since, until);
    ReplayExact(rows, now, since, until);
    ReplayCovers(rows, now, since, until);
    SameSize(LiveBefore(rows, until), Replay(rows, since, until));
  }

  lemma SameSize(a: set<nat>, b: set<nat>)
    requires a <= b
    ensures |a| == |b| <==> a == b
  {
    assert b == a + (b - a);
  }

  /** A first version is reported created, and a last one removed, exactly when its width is positive. */
  lemma KindIsRight<K, P>(rows: Rows<K, P>, now: int, r: Version<K, P>)
    requires Coherent(rows, now) && r in rows
    ensures (forall p :: p in rows && p.id == r.id ==> r.validFrom <= p.validFrom) ==>
              (OpenEvent(rows, r).kind == Created <==> !ZeroWidth(r))
    ensures (exists p :: p in rows && p.id == r.id && p.validFrom < r.validFrom) ==> OpenEvent(rows, r).kind == Updated
    ensures r.validTo.Some? && (forall s :: s in rows && s.id == r.id ==> s.validFrom <= r.validFrom) ==>
              (!FollowedBy(rows, r) <==> !ZeroWidth(r))
  {
    if p :| p in rows && p.id == r.id && p.validFrom < r.validFrom { NotFirst(rows, now, p, r); }
    if ZeroWidth(r) { assert PrecededBy(rows, r) && FollowedBy(rows, r); }
  }

  ghost predicate HasEarlier<K, P>(rows: Rows<K, P>, r: Version<K, P>) {
    exists p :: p in rows && p.id == r.id && p.validFrom < r.validFrom
  }

  ghost predicate HasLater<K, P>(rows: Rows<K, P>, r: Version<K, P>) {
    exists s :: s in rows && s.id == r.id && s.validFrom > r.validFrom
  }

  /** The event tells of the opening of the version: of a first one, unless it is closed by the
      transaction that opened it, that the thing was created; of any other, that it was updated. */
  ghost predicate TellsOpening<K, P>(rows: Rows<K, P>, r: Version<K, P>, e: Change<K>) {
    && r in rows && e.id == r.id && e.key == r.key && e.at == r.validFrom
    && e.kind == if HasEarlier(rows, r) || r.validTo == Some(r.validFrom) then Updated else Created
  }

  /** The event tells of the end of a last version that lasted. */
  ghost predicate TellsEnd<K, P>(rows: Rows<K, P>, r: Version<K, P>, e: Change<K>) {
    && r in rows && e.id == r.id && e.key == r.key && r.validTo == Some(e.at) && r.validFrom < e.at
    && e.kind == Removed && !HasLater(rows, r)
  }

  /** Exactly which events a window reports. */
  lemma FeedTells<K, P>(rows: Rows<K, P>, now: int, since: int, until: int, e: Change<K>)
    requires Coherent(rows, now)
    ensures e in Feed(rows, since, until) <==>
              since <= e.at < until && ((exists r :: TellsOpening(rows, r, e)) || exists r :: TellsEnd(rows, r, e))
  {
    forall r | r in rows ensures TellsOpening(rows, r, e) <==> OpenEvent(rows, r) == e { OpeningTold(rows, now, r, e); }
    forall r | r in rows && r.validTo.Some? ensures TellsEnd(rows, r, e) <==> !FollowedBy(rows, r) && RemoveEvent(r) == e {
      EndTold(rows, now, r, e);
    }
    hide Coherent, TellsOpening, TellsEnd, OpenEvent, RemoveEvent, FollowedBy;
  }

  lemma OpeningTold<K, P>(rows: Rows<K, P>, now: int, r: Version<K, P>, e: Change<K>)
    requires Coherent(rows, now) && r in rows
    ensures TellsOpening(rows, r, e) <==> OpenEvent(rows, r) == e
  {
    KindIsRight(rows, now, r);
    hide Coherent;
  }

  lemma EndTold<K, P>(rows: Rows<K, P>, now: int, r: Version<K, P>, e: Change<K>)
    requires Coherent(rows, now) && r in rows && r.validTo.Some?
    ensures TellsEnd(rows, r, e) <==> !FollowedBy(rows, r) && RemoveEvent(r) == e
  {
    KindIsRight(rows, now, r);
    if s :| s in rows && s.id == r.id && s.validFrom > r.validFrom { Continues(rows, now, r, s); }
  }

  /** A retention sweep changes no window that starts at or after its horizon. */
  lemma SweepKeepsFeed<K, P>(rows: Rows<K, P>, now: int, horizon: int, since: int, until: int)
    requires Coherent(rows, now) && horizon <= since
    ensures Feed(Swept(rows, horizon), since, until) == Feed(rows, since, until)
  {
    var after := Swept(rows, horizon);
    forall r | r in rows && InWindow(r.validFrom, since, until)
      ensures r in after && PrecededBy(after, r) == PrecededBy(rows, r)
    {
      if p :| p in rows && p.id == r.id && p.validTo == Some(r.validFrom) { assert p in after; }
    }
    forall r | r in rows && r.validTo.Some? && InWindow(r.validTo.value, since, until)
      ensures r in after && FollowedBy(after, r) == FollowedBy(rows, r)
    {
      if s :| s in rows && s.id == r.id && r.validTo == Some(s.validFrom) { assert s in after; }
    }
    forall e | e in Feed(rows, since, until) ensures e in Feed(after, since, until) {
      if r :| r in rows && InWindow(r.validFrom, since, until) && OpenEvent(rows, r) == e {
        assert OpenEvent(after, r) == e;
      } else {
        var r :| r in rows && IsRemoved(rows, r, since, until) && RemoveEvent(r) == e;
        assert IsRemoved(after, r, since, until);
      }
    }
  }
}
