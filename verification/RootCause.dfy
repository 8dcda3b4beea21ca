/** Ranking recent changes upstream of an incident
    (services/query/src/infra_twin/query/rca.py). Ages and lookback are whole seconds. */
module RootCause {
  import opened Model
  import opened Reals
  import opened Reach
  import opened Traversal
  import opened Queries
  import opened Versions
  import opened Store
  import opened ChangeFeed
  import opened Events
  import Observations

  datatype Cause = Cause(event: Event, distance: nat, score: real)

  function KindWeight(kind: Kind): real {
    match kind case Removed => 3.0 case Updated => 2.0 case Created => 1.0
  }

  function Proximity(distance: nat): real { 1.0 / (1.0 + distance as real) }

  function Recency(age: int, lookback: int): real
    requires lookback + age > 0
  {
    lookback as real / (lookback + age) as real
  }

  function Score(kind: Kind, distance: nat, age: int, lookback: int): real
    requires lookback + age > 0
  {
    KindWeight(kind) * (Proximity(distance) + Recency(age, lookback))
  }

  /** How far upstream the subject of an event is: the CI, or the nearer known endpoint. */
  function Subject(e: Event, near: map<nat, nat>): Option<nat> {
    match e
    case CiEvent(c) => if c.id in near then Some(near[c.id]) else None
    case EdgeEvent(c) =>
      var f, t := c.key.fromId, c.key.toId;
      if f in near && t in near then Some(if near[f] <= near[t] then near[f] else near[t])
      else if f in near then Some(near[f])
      else if t in near then Some(near[t])
      else None
  }

  /* ---------------------------------------------------------------- the score */

  /** A larger denominator makes a smaller fraction. */
  lemma Fractions(l: real, x: real, y: real)
    requires 0.0 < l && 0.0 < x <= y
    ensures 0.0 < l / y <= l / x && (x < y ==> l / y < l / x)
  {
    var p, q := l / x, l / y;
    Ratio(l, x);
    Ratio(l, y);
    Unit(x);
    Unit(y);
    hide Times;
    Scale(0.0, q, y);
    Scale(0.0, p, x);
    Sum(p, x, y - x);
    assert x + (y - x) == y;
    if x < y {
      Unit(y - x);
      Scale(0.0, p, y - x);
    } else {
      assert x == y;
    }
    Scale(q, p, y);
  }

  /** Inside the window recency lies in [1/2, 1). */
  lemma RecencyRange(age: int, lookback: int)
    requires 0 < age <= lookback
    ensures 0.5 <= Recency(age, lookback) < 1.0
  {
    var l, s := lookback as real, (lookback + age) as real;
    var r := l / s;
    Ratio(l, s);
    Unit(s);
    hide Times;
    Scale(r, 1.0, s);
    Sum(r, r, s);
    Scale(1.0, r + r, s);
  }

  lemma ProximityStep(d: nat, e: nat)
    requires d <= e
    ensures 0.0 < Proximity(e) <= Proximity(d) <= 1.0
    ensures d < e ==> Proximity(e) < Proximity(d)
  {
    Fractions(1.0, 1.0 + d as real, 1.0 + e as real);
    Fractions(1.0, 1.0, 1.0 + d as real);
  }

  /** A later change has the higher recency. */
  lemma RecencyStep(age: int, older: int, lookback: int)
    requires 0 < age < older && 0 < lookback
    ensures Recency(older, lookback) < Recency(age, lookback)
  {
    Fractions(lookback as real, (lookback + age) as real, (lookback + older) as real);
  }

  /** Closer and later both raise the score of one kind of change. */
  lemma ScoreMonotone(kind: Kind, d: nat, e: nat, age: int, older: int, lookback: int)
    requires d <= e && 0 < age <= older <= lookback
    ensures Score(kind, e, older, lookback) <= Score(kind, d, age, lookback)
    ensures d < e || age < older ==> Score(kind, e, older, lookback) < Score(kind, d, age, lookback)
  {
    ProximityStep(d, e);
    if age < older { RecencyStep(age, older, lookback); }
    hide Proximity, Recency;
  }

  lemma ScoreRange(kind: Kind, d: nat, age: int, lookback: int)
    requires 0 < age <= lookback
    ensures KindWeight(kind) * (Proximity(d) + 0.5) <= Score(kind, d, age, lookback) < 2.0 * KindWeight(kind)
  {
    RecencyRange(age, lookback);
    ProximityStep(0, d);
    hide Proximity, Recency;
  }

  /** Any removal within the depth outscores any creation in the window. */
  ghost predicate RemovalsFirst(maxDepth: nat) {
    forall d: nat, e: nat, age: int, other: int, lookback: int ::
      d <= maxDepth && e <= maxDepth && 0 < age <= lookback && 0 < other <= lookback
      ==> Score(Removed, d, age, lookback) > Score(Created, e, other, lookback)
  }

  /** Up to five hops the kind decides between removals and creations; beyond, it does not. */
  lemma RemovalsFirstUpToFive(maxDepth: nat)
    ensures RemovalsFirst(maxDepth) <==> maxDepth <= 5
  {
    if maxDepth <= 5 {
      forall d: nat, e: nat, age: int, other: int, lookback: int |
        d <= maxDepth && e <= maxDepth && 0 < age <= lookback && 0 < other <= lookback
        ensures Score(Removed, d, age, lookback) > Score(Created, e, other, lookback)
      {
        ScoreRange(Removed, d, age, lookback);
        ScoreRange(Created, e, other, lookback);
        ProximityStep(d, 5);
        assert Proximity(5) == 1.0 / 6.0;
        hide Score, Proximity;
      }
    } else {
      assert Score(Removed, 6, 1000, 1000) == 3.0 * (1.0 / 7.0 + 1000.0 / 2000.0);
      assert Score(Created, 0, 1, 1000) == 1.0 + 1000.0 / 1001.0;
      assert Score(Removed, 6, 1000, 1000) < Score(Created, 0, 1, 1000);
    }
  }

  /* ---------------------------------------------------------------- the ranking */

  function EntityRank(e: Event): nat { if e.CiEvent? then 0 else 1 }

  /** The sort key: higher score, then closer, then later, then CIs before edges, then id. */
  predicate NoLater(a: Cause, b: Cause) {
    a.score > b.score || (a.score == b.score &&
      (a.distance < b.distance || (a.distance == b.distance &&
        (a.event.At() > b.event.At() || (a.event.At() == b.event.At() &&
          (EntityRank(a.event) < EntityRank(b.event) || (EntityRank(a.event) == EntityRank(b.event) && a.event.Id() <= b.event.Id())))))))
  }

  ghost predicate Ranked(s: seq<Cause>) { forall i, j :: 0 <= i < j < |s| ==> NoLater(s[i], s[j]) }

  function Place(c: Cause, s: seq<Cause>): seq<Cause> {
    if s == [] || NoLater(c, s[0]) then [c] + s else [s[0]] + Place(c, s[1..])
  }

  function Sorted(s: seq<Cause>): seq<Cause> { if s == [] then [] else Place(s[0], Sorted(s[1..])) }

  lemma NoLaterTotal(a: Cause, b: Cause)
    ensures NoLater(a, b) || NoLater(b, a)
  {
  }

  lemma NoLaterTransitive(a: Cause, b: Cause, c: Cause)
    requires NoLater(a, b) && NoLater(b, c)
    ensures NoLater(a, c)
  {
  }

  lemma {:induction false} PlaceRanked(c: Cause, s: seq<Cause>)
    requires Ranked(s)
    ensures Ranked(Place(c, s)) && multiset(Place(c, s)) == multiset(s) + multiset{c}
    decreases |s|
  {
    hide NoLater;
    if s == [] || NoLater(c, s[0]) {
      assert multiset([c] + s) == multiset(s) + multiset{c};
      forall j | 0 < j < |s| ensures NoLater(c, s[j]) { NoLaterTransitive(c, s[0], s[j]); }
    } else {
      PlaceRanked(c, s[1..]);
      NoLaterTotal(c, s[0]);
      assert s == [s[0]] + s[1..];
      HeadRanked(s[0], Place(c, s[1..]), c, s[1..]);
    }
  }

  lemma HeadRanked(h: Cause, rest: seq<Cause>, c: Cause, tail: seq<Cause>)
    requires Ranked(rest) && multiset(rest) == multiset(tail) + multiset{c}
    requires NoLater(h, c) && forall i :: 0 <= i < |tail| ==> NoLater(h, tail[i])
    ensures Ranked([h] + rest)
  {
    hide NoLater;
    forall i | 0 <= i < |rest| ensures NoLater(h, rest[i]) {
      assert rest[i] in multiset(rest);
      if rest[i] != c { assert rest[i] in multiset(tail); }
    }
  }

  lemma {:induction false} SortedRanked(s: seq<Cause>)
    ensures Ranked(Sorted(s)) && multiset(Sorted(s)) == multiset(s)
    decreases |s|
  {
    hide NoLater, Place;
    if s != [] {
      SortedRanked(s[1..]);
      PlaceRanked(s[0], Sorted(s[1..]));
      assert s == [s[0]] + s[1..];
    }
  }

  /* ---------------------------------------------------------------- root cause */

  /** The cause an event stands for. */
  function CauseOf(e: Event, near: map<nat, nat>, incidentAt: int, lookback: int): Cause
    requires Subject(e, near).Some? && lookback + (incidentAt - e.At()) > 0
  {
    var d := Subject(e, near).value;
    Cause(e, d, Score(e.Kind(), d, incidentAt - e.At(), lookback))
  }

  ghost predicate InLookback(events: set<Event>, incidentAt: int, lookback: int) {
    forall e :: e in events ==> InWindow(e.At(), incidentAt - lookback, incidentAt)
  }

  /** The causes among some events: those whose subject is in the neighbourhood. */
  ghost function CausesAmong(events: set<Event>, near: map<nat, nat>, incidentAt: int, lookback: int): set<Cause>
    requires InLookback(events, incidentAt, lookback)
  {
    set e | e in events && Subject(e, near).Some? :: CauseOf(e, near, incidentAt, lookback)
  }

  lemma CausesAppend(events: set<Event>, e: Event, near: map<nat, nat>, incidentAt: int, lookback: int)
    requires InLookback(events + {e}, incidentAt, lookback) && e !in events
    ensures var before, after := CausesAmong(events, near, incidentAt, lookback), CausesAmong(events + {e}, near, incidentAt, lookback);
            if Subject(e, near).Some?
            then after == before + {CauseOf(e, near, incidentAt, lookback)} && CauseOf(e, near, incidentAt, lookback) !in before
            else after == before
  {
    hide Score, Subject;
  }

  ghost function Prefix(events: seq<Event>, i: nat): set<Event>
    requires i <= |events|
  {
    set e | e in events[..i]
  }

  lemma PrefixStep(events: seq<Event>, all: set<Event>, i: nat)
    requires ListsOnce(events, all) && i < |events|
    ensures events[i] !in Prefix(events, i) && Prefix(events, i + 1) == Prefix(events, i) + {events[i]} && Prefix(events, i + 1) <= all
  {
    ListedOnce(events, all, i);
    ListsAll(events, all);
    hide ListsOnce;
    assert events[..i + 1] == events[..i] + [events[i]];
  }

  /** The order of a ranking: by score, then nearer, then later, then CIs before edges, then by id. */
  lemma RankingOrder(s: seq<Cause>, i: nat, j: nat)
    requires Ranked(s) && i < j < |s|
    ensures s[i].score >= s[j].score
    ensures s[i].score == s[j].score ==> s[i].distance <= s[j].distance
    ensures s[i].score == s[j].score && s[i].distance == s[j].distance ==> s[i].event.At() >= s[j].event.At()
    ensures s[i].score == s[j].score && s[i].distance == s[j].distance && s[i].event.At() == s[j].event.At() ==>
              && (s[i].event.EdgeEvent? ==> s[j].event.EdgeEvent?)
              && (s[i].event.CiEvent? == s[j].event.CiEvent? ==> s[i].event.Id() <= s[j].event.Id())
  {
    assert NoLater(s[i], s[j]);
  }

  /* ---------------------------------------------------------------- what is listed */

  ghost predicate Listed(causes: seq<Cause>, e: Event) { exists c :: c in causes && c.event == e }

  /** A change of a CI is listed if the CI is in the neighbourhood, a change of an edge if one of
      its ends is. */
  ghost predicate ListsKnown(causes: seq<Cause>, events: set<Event>, near: map<nat, nat>) {
    && (forall e :: e in events && e.CiEvent? ==> (Listed(causes, e) <==> e.ci.id in near))
    && (forall e :: e in events && e.EdgeEvent? ==> (Listed(causes, e) <==> e.edge.key.fromId in near || e.edge.key.toId in near))
  }

  /** A cause is as far as its CI, or as the nearer known end of its edge. */
  ghost predicate Placed(c: Cause, near: map<nat, nat>) {
    match c.event
    case CiEvent(ci) => ci.id in near && c.distance == near[ci.id]
    case EdgeEvent(edge) =>
      var f, t := edge.key.fromId, edge.key.toId;
      && ((f in near && c.distance == near[f]) || (t in near && c.distance == near[t]))
      && (f in near ==> c.distance <= near[f]) && (t in near ==> c.distance <= near[t])
  }

  lemma CausesArePlaced(causes: seq<Cause>, events: set<Event>, near: map<nat, nat>, incidentAt: int, lookback: int)
    requires InLookback(events, incidentAt, lookback) && ListsOnce(causes, CausesAmong(events, near, incidentAt, lookback))
    ensures ListsKnown(causes, events, near)
    ensures forall c :: c in causes ==> c.event in events && Placed(c, near)
  {
    hide Score, ListsOnce;
    ListsAll(causes, CausesAmong(events, near, incidentAt, lookback));
    forall e | e in events
      ensures e.CiEvent? ==> (Listed(causes, e) <==> e.ci.id in near)
      ensures e.EdgeEvent? ==> (Listed(causes, e) <==> e.edge.key.fromId in near || e.edge.key.toId in near)
    {
      if Subject(e, near).Some? { assert CauseOf(e, near, incidentAt, lookback) in causes; }
    }
  }

  /** The scores: 3 to 2 to 1 by kind, times nearness (1 over the distance plus 1) plus recency. */
  lemma Scores(d: nat, age: int, lookback: int)
    requires 0 < age <= lookback
    ensures Score(Updated, d, age, lookback) == 2.0 * Score(Created, d, age, lookback)
    ensures Score(Removed, d, age, lookback) == 3.0 * Score(Created, d, age, lookback)
    ensures Score(Created, d, lookback, lookback) == 1.0 / (1.0 + d as real) + 0.5
    ensures Score(Created, d, age, lookback) - Score(Created, d, lookback, lookback) + 0.5 == lookback as real / (lookback + age) as real
  {
    RecencyAtEdge(lookback);
    hide Recency, Proximity;
    ProximityIs(d);
    RecencyIs(age, lookback);
  }

  lemma RecencyAtEdge(lookback: int)
    requires lookback > 0
    ensures Recency(lookback, lookback) == 0.5
  {
    Ratio(lookback as real, (lookback + lookback) as real);
    var r := Recency(lookback, lookback);
    assert r * (2.0 * lookback as real) == lookback as real;
  }

  lemma ProximityIs(d: nat)
    ensures Proximity(d) == 1.0 / (1.0 + d as real)
  {
  }

  lemma RecencyIs(age: int, lookback: int)
    requires 0 < age <= lookback
    ensures Recency(age, lookback) == lookback as real / (lookback + age) as real
  {
  }

  lemma AllInLookback(cis: Rows<CiKey, CiData>, edges: Rows<EdgeKey, Observations.EdgeData>, incidentAt: int, lookback: int)
    ensures InLookback(AllEvents(cis, edges, incidentAt - lookback, incidentAt), incidentAt, lookback)
  {
    InFeedWindow(cis, incidentAt - lookback, incidentAt);
    InFeedWindow(edges, incidentAt - lookback, incidentAt);
    hide Feed;
  }

  /** The causes of an incident: every event of the two feeds over the lookback whose subject is
      upstream of the target, each once, best first. */
  method FindCauses(links: seq<Link>, present: set<nat>, cis: Rows<CiKey, CiData>, edges: Rows<EdgeKey, Observations.EdgeData>,
                    target: nat, incidentAt: int, lookback: int, maxDepth: nat)
    returns (causes: seq<Cause>)
    ensures InLookback(AllEvents(cis, edges, incidentAt - lookback, incidentAt), incidentAt, lookback)
    ensures Ranked(causes)
    ensures var near := NeighborhoodOf(UpstreamQuery(links, 0.0), present, target, maxDepth);
            var events := AllEvents(cis, edges, incidentAt - lookback, incidentAt);
            && ListsOnce(causes, CausesAmong(events, near, incidentAt, lookback))
            && ListsKnown(causes, events, near) && forall c :: c in causes ==> c.event in events && Placed(c, near)
  {
    hide Score, NeighborhoodOf, NoLater, Subject, AllEvents, CausesAmong, Ranked, Prefix, ListsKnown, Placed;
    var near := BuildNeighborhood(links, present, target, maxDepth, 0.0);
    var events := ChangeEvents(cis, edges, incidentAt - lookback, incidentAt);
    ghost var all := AllEvents(cis, edges, incidentAt - lookback, incidentAt);
    AllInLookback(cis, edges, incidentAt, lookback);
    var found: seq<Cause> := [];
    PrefixEnds(events, all, near, incidentAt, lookback);
    for i := 0 to |events|
      invariant Prefix(events, i) <= all
      invariant ListsOnce(found, CausesAmong(Prefix(events, i), near, incidentAt, lookback))
    {
      var e := events[i];
      PrefixStep(events, all, i);
      CausesAppend(Prefix(events, i), e, near, incidentAt, lookback);
      if e.At() < incidentAt && Subject(e, near).Some? {
        var d := Subject(e, near).value;
        ListsMore(found, CausesAmong(Prefix(events, i), near, incidentAt, lookback), CauseOf(e, near, incidentAt, lookback));
        found := found + [Cause(e, d, Score(e.Kind(), d, incidentAt - e.At(), lookback))];
      }
    }
    causes := Sorted(found);
    SortedRanked(found);
    CausesArePlaced(causes, all, near, incidentAt, lookback);
  }

  lemma PrefixEnds(events: seq<Event>, all: set<Event>, near: map<nat, nat>, incidentAt: int, lookback: int)
    requires ListsOnce(events, all) && InLookback(all, incidentAt, lookback)
    ensures Prefix(events, 0) == {} && Prefix(events, |events|) == all
    ensures CausesAmong({}, near, incidentAt, lookback) == {}
  {
    ListsAll(events, all);
    hide ListsOnce;
    assert events[..|events|] == events;
  }

  /* ---------------------------------------------------------------- one ranking */

  ghost predicate Antisymmetric(causes: set<Cause>) {
    forall a, b :: a in causes && b in causes && NoLater(a, b) && NoLater(b, a) ==> a == b
  }

  lemma BestIsBest(a: seq<Cause>, b: seq<Cause>)
    requires Ranked(b) && multiset(a) == multiset(b) && a != [] && b != []
    ensures b[0] in multiset(a) && (a[0] == b[0] || NoLater(b[0], a[0]))
  {
    hide NoLater;
    assert a[0] in multiset(a) && b[0] in multiset(b);
    var i :| 0 <= i < |b| && b[i] == a[0];
  }

  lemma WithoutHead(a: seq<Cause>)
    requires a != [] && Ranked(a)
    ensures Ranked(a[1..]) && a[0] in multiset(a) && multiset(a[1..]) == multiset(a) - multiset{a[0]}
  {
    hide NoLater;
    assert a == [a[0]] + a[1..];
  }

  lemma {:induction false} OneRanking(a: seq<Cause>, b: seq<Cause>, causes: set<Cause>)
    requires Ranked(a) && Ranked(b) && multiset(a) == multiset(b) && Antisymmetric(causes)
    requires forall c :: c in multiset(a) ==> c in causes
    ensures a == b
    decreases |a|
  {
    hide NoLater, Ranked;
    assert |a| == |multiset(a)| == |multiset(b)| == |b|;
    if a != [] {
      BestIsBest(a, b);
      BestIsBest(b, a);
      WithoutHead(a);
      WithoutHead(b);
      OneRanking(a[1..], b[1..], causes);
      assert a == [a[0]] + a[1..] && b == [b[0]] + b[1..];
    }
  }

  lemma WeightsDiffer(k: Kind, l: Kind, x: real)
    requires x > 0.0 && KindWeight(k) * x == KindWeight(l) * x
    ensures k == l
  {
  }

  lemma SameScoreSameKind(k: Kind, l: Kind, d: nat, age: int, lookback: int)
    requires 0 < age <= lookback && Score(k, d, age, lookback) == Score(l, d, age, lookback)
    ensures k == l
  {
    RecencyRange(age, lookback);
    ProximityStep(0, d);
    WeightsDiffer(k, l, Proximity(d) + Recency(age, lookback));
  }

  lemma SameChange<K, P>(rows: Rows<K, P>, since: int, until: int, a: Change<K>, b: Change<K>)
    requires Keyed(rows) && a in Feed(rows, since, until) && b in Feed(rows, since, until)
    requires a.kind == b.kind && a.id == b.id && a.at == b.at
    ensures a == b
  {
    assert exists r :: r in rows && r.id == a.id && r.key == a.key;
    assert exists s :: s in rows && s.id == b.id && s.key == b.key;
  }

  /** The sort key leaves no two causes tied, so the order in which the database returns the
      events does not show. */
  lemma RankingIsUnique(cis: Rows<CiKey, CiData>, edges: Rows<EdgeKey, Observations.EdgeData>, near: map<nat, nat>,
                        incidentAt: int, lookback: int, a: seq<Cause>, b: seq<Cause>)
    requires Keyed(cis) && Keyed(edges)
    requires InLookback(AllEvents(cis, edges, incidentAt - lookback, incidentAt), incidentAt, lookback)
    requires var causes := CausesAmong(AllEvents(cis, edges, incidentAt - lookback, incidentAt), near, incidentAt, lookback);
             ListsOnce(a, causes) && ListsOnce(b, causes) && Ranked(a) && Ranked(b)
    ensures a == b
  {
    hide Score, Subject, Feed, Keyed, Ranked;
    var all := AllEvents(cis, edges, incidentAt - lookback, incidentAt);
    var causes := CausesAmong(all, near, incidentAt, lookback);
    forall c, d | c in causes && d in causes && NoLater(c, d) && NoLater(d, c) ensures c == d {
      var e, f := c.event, d.event;
      SameScoreSameKind(e.Kind(), f.Kind(), c.distance, incidentAt - e.At(), lookback);
      if e.CiEvent? {
        SameChange(cis, incidentAt - lookback, incidentAt, e.ci, f.ci);
      } else {
        SameChange(edges, incidentAt - lookback, incidentAt, e.edge, f.edge);
      }
    }
    OneRanking(a, b, causes);
  }

  /** No cause is missed: a current CI whose blast radius reports the target, capped or not, has
      each of its changes in the window ranked, at no greater distance. */
  lemma NoCauseMissed(links: seq<Link>, present: set<nat>, e: Event, target: nat, maxDepth: nat, maxFanout: nat)
    requires e.CiEvent? && e.Id() in present && e.Id() != target
    requires target in FoundCis(ImpactQuery(links, 0.0, maxFanout), present, e.Id(), maxDepth)
    ensures var near := NeighborhoodOf(UpstreamQuery(links, 0.0), present, target, maxDepth);
            && Subject(e, near).Some?
            && Subject(e, near).value <= FoundCis(ImpactQuery(links, 0.0, maxFanout), present, e.Id(), maxDepth)[target]
  {
    hide FoundCis, NeighborhoodOf;
    BlastIsUpstream(links, present, target, e.Id(), maxDepth, 0.0, maxFanout);
  }

  /** No cause is invented: a ranked change of another CI is one whose blast radius reports the
      target at the ranked distance, unless that blast radius was truncated. */
  lemma EveryCauseImpacts(links: seq<Link>, present: set<nat>, e: Event, target: nat, maxDepth: nat, maxFanout: nat)
    requires e.CiEvent? && e.Id() in present && target in present && e.Id() != target
    requires AllTruncated(ImpactQuery(links, 0.0, maxFanout), e.Id(), maxDepth) == {}
    ensures var near := NeighborhoodOf(UpstreamQuery(links, 0.0), present, target, maxDepth);
            var blast := FoundCis(ImpactQuery(links, 0.0, maxFanout), present, e.Id(), maxDepth);
            Subject(e, near).Some? <==> target in blast
    ensures var near := NeighborhoodOf(UpstreamQuery(links, 0.0), present, target, maxDepth);
            var blast := FoundCis(ImpactQuery(links, 0.0, maxFanout), present, e.Id(), maxDepth);
            target in blast ==> Subject(e, near) == Some(blast[target])
  {
    hide FoundCis, NeighborhoodOf, AllTruncated;
    var near := NeighborhoodOf(UpstreamQuery(links, 0.0), present, target, maxDepth);
    var blast := FoundCis(ImpactQuery(links, 0.0, maxFanout), present, e.Id(), maxDepth);
    if target in blast {
      Duality(links, present, target, e.Id(), maxDepth, 0.0, maxFanout, blast[target]);
    }
    if e.Id() in near {
      Duality(links, present, target, e.Id(), maxDepth, 0.0, maxFanout, near[e.Id()]);
    }
  }

  /** A CI that is no longer current is in no neighbourhood: its changes, its own removal among
      them, are never ranked, unless it is the target. */
  lemma GoneCisAreMissed(links: seq<Link>, present: set<nat>, e: Event, target: nat, maxDepth: nat)
    requires e.CiEvent? && e.Id() !in present && e.Id() != target
    ensures Subject(e, NeighborhoodOf(UpstreamQuery(links, 0.0), present, target, maxDepth)).None?
  {
    hide ArcsOf, Distances;
  }
}
