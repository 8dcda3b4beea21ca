/** The change events of both tables, newest first
    (services/query/src/infra_twin/query/change_feed.py). */
module Events {
  import opened Model
  import Observations
  import opened Versions
  import opened Store
  import opened ChangeFeed

  datatype Event = CiEvent(ci: Change<CiKey>) | EdgeEvent(edge: Change<EdgeKey>)
  {
    function Kind(): Kind { if CiEvent? then ci.kind else edge.kind }
    function Id(): nat { if CiEvent? then ci.id else edge.id }
    function At(): int { if CiEvent? then ci.at else edge.at }
  }

  ghost function CiEvents(feed: set<Change<CiKey>>): set<Event> { set c | c in feed :: CiEvent(c) }

  ghost function EdgeEvents(feed: set<Change<EdgeKey>>): set<Event> { set c | c in feed :: EdgeEvent(c) }

  /** The events of a window: the feeds of the two tables. */
  ghost function AllEvents(cis: Rows<CiKey, CiData>, edges: Rows<EdgeKey, Observations.EdgeData>, since: int, until: int): set<Event> {
    CiEvents(Feed(cis, since, until)) + EdgeEvents(Feed(edges, since, until))
  }

  /* ---------------------------------------------------------------- one event per row */

  ghost predicate SameOpening<K, P>(r: Version<K, P>, s: Version<K, P>) { r.id == s.id && r.validFrom == s.validFrom }

  ghost predicate SameRemoval<K, P>(rows: Rows<K, P>, r: Version<K, P>, s: Version<K, P>, since: int, until: int) {
    && IsRemoved(rows, r, since, until) && IsRemoved(rows, s, since, until)
    && r.id == s.id && r.validTo == s.validTo
  }

  /** UNION ALL repeats nothing: no two rows open, and no two rows close, with one event. */
  lemma NothingTwice<K, P>(rows: Rows<K, P>, now: int, since: int, until: int, r: Version<K, P>, s: Version<K, P>)
    requires Coherent(rows, now) && r in rows && s in rows
    requires SameOpening(r, s) || SameRemoval(rows, r, s, since, until)
    ensures r == s
  {
    if r.validFrom < s.validFrom { Continues(rows, now, r, s); }
    if s.validFrom < r.validFrom { Continues(rows, now, s, r); }
  }

  /* ---------------------------------------------------------------- the list */

  /** The list holds the elements of the set, each once. */
  ghost predicate ListsOnce<T>(list: seq<T>, all: set<T>) { multiset(list) == multiset(all) }

  lemma ListsMore<T>(list: seq<T>, all: set<T>, x: T)
    requires ListsOnce(list, all) && x !in all
    ensures ListsOnce(list + [x], all + {x})
  {
  }

  lemma ListedOnce<T>(list: seq<T>, all: set<T>, i: nat)
    requires ListsOnce(list, all) && i < |list|
    ensures list[i] in all && list[i] !in list[..i]
  {
    var x := list[i];
    assert list == list[..i] + [x] + list[i + 1..];
    assert multiset(list)[x] >= multiset(list[..i])[x] + 1;
    assert x in list[..i] <==> multiset(list[..i])[x] > 0;
    assert multiset(list)[x] == multiset(all)[x] <= 1;
  }

  lemma ListsAll<T>(list: seq<T>, all: set<T>)
    requires ListsOnce(list, all)
    ensures forall x :: x in list <==> x in all
  {
    assert forall x :: x in list <==> x in multiset(list);
  }

  ghost predicate NewestFirst(s: seq<Event>) { forall i, j :: 0 <= i < j < |s| ==> s[i].At() >= s[j].At() }

  function PlaceByTime(e: Event, s: seq<Event>): seq<Event> {
    if s == [] || e.At() >= s[0].At() then [e] + s else [s[0]] + PlaceByTime(e, s[1..])
  }

  function ByTime(s: seq<Event>): seq<Event> { if s == [] then [] else PlaceByTime(s[0], ByTime(s[1..])) }

  lemma {:induction false} PlaceByTimeSorts(e: Event, s: seq<Event>)
    requires NewestFirst(s)
    ensures NewestFirst(PlaceByTime(e, s)) && multiset(PlaceByTime(e, s)) == multiset(s) + multiset{e}
    decreases |s|
  {
    hide NewestFirst;
    if s == [] || e.At() >= s[0].At() {
      NewestAhead(e, s);
    } else {
      NewestTail(s);
      PlaceByTimeSorts(e, s[1..]);
      NewestThen(s[0], PlaceByTime(e, s[1..]), e, s[1..]);
      assert multiset(s) == multiset{s[0]} + multiset(s[1..]);
    }
  }

  lemma NewestAhead(e: Event, s: seq<Event>)
    requires NewestFirst(s) && (s == [] || e.At() >= s[0].At())
    ensures NewestFirst([e] + s) && multiset([e] + s) == multiset(s) + multiset{e}
  {
  }

  lemma NewestTail(s: seq<Event>)
    requires NewestFirst(s) && s != []
    ensures NewestFirst(s[1..]) && s == [s[0]] + s[1..] && forall i :: 0 <= i < |s[1..]| ==> s[0].At() >= s[1..][i].At()
  {
  }

  lemma NewestThen(h: Event, rest: seq<Event>, e: Event, tail: seq<Event>)
    requires NewestFirst(rest) && multiset(rest) == multiset(tail) + multiset{e}
    requires h.At() >= e.At() && forall i :: 0 <= i < |tail| ==> h.At() >= tail[i].At()
    ensures NewestFirst([h] + rest)
  {
    forall i | 0 <= i < |rest| ensures h.At() >= rest[i].At() {
      assert rest[i] in multiset(rest);
      if rest[i] != e { assert rest[i] in multiset(tail); }
    }
  }

  lemma {:induction false} ByTimeSorts(s: seq<Event>)
    ensures NewestFirst(ByTime(s)) && multiset(ByTime(s)) == multiset(s)
    decreases |s|
  {
    hide PlaceByTime;
    if s != [] {
      ByTimeSorts(s[1..]);
      PlaceByTimeSorts(s[0], ByTime(s[1..]));
      assert s == [s[0]] + s[1..];
    }
  }

  lemma InFeedWindow<K, P>(rows: Rows<K, P>, since: int, until: int)
    ensures forall c :: c in Feed(rows, since, until) ==> InWindow(c.at, since, until)
  {
  }

  /** The rows of the first query as events. */
  method CiChanges(feed: set<Change<CiKey>>) returns (events: seq<Event>)
    ensures ListsOnce(events, CiEvents(feed))
  {
    events := [];
    var todo := feed;
    while todo != {}
      invariant todo <= feed && ListsOnce(events, CiEvents(feed - todo))
      decreases |todo|
    {
      var c :| c in todo;
      ListsMore(events, CiEvents(feed - todo), CiEvent(c));
      assert CiEvents(feed - (todo - {c})) == CiEvents(feed - todo) + {CiEvent(c)};
      events, todo := events + [CiEvent(c)], todo - {c};
    }
    assert feed - todo == feed;
  }

  /** The rows of the second query as events. */
  method EdgeChanges(feed: set<Change<EdgeKey>>) returns (events: seq<Event>)
    ensures ListsOnce(events, EdgeEvents(feed))
  {
    events := [];
    var todo := feed;
    while todo != {}
      invariant todo <= feed && ListsOnce(events, EdgeEvents(feed - todo))
      decreases |todo|
    {
      var c :| c in todo;
      ListsMore(events, EdgeEvents(feed - todo), EdgeEvent(c));
      assert EdgeEvents(feed - (todo - {c})) == EdgeEvents(feed - todo) + {EdgeEvent(c)};
      events, todo := events + [EdgeEvent(c)], todo - {c};
    }
    assert feed - todo == feed;
  }

  /** Both feeds, each event once, newest first. */
  method ChangeEvents(cis: Rows<CiKey, CiData>, edges: Rows<EdgeKey, Observations.EdgeData>, since: int, until: int)
    returns (events: seq<Event>)
    ensures NewestFirst(events) && ListsOnce(events, AllEvents(cis, edges, since, until))
    ensures forall e :: e in events ==> InWindow(e.At(), since, until)
  {
    InFeedWindow(cis, since, until);
    InFeedWindow(edges, since, until);
    hide Feed, ByTime, NewestFirst;
    var first := CiChanges(Feed(cis, since, until));
    var second := EdgeChanges(Feed(edges, since, until));
    ByTimeSorts(first + second);
    events := ByTime(first + second);
    ListsAll(events, AllEvents(cis, edges, since, until));
  }
}
