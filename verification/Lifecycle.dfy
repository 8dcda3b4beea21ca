/** The life of one inferred edge: first sight, re-observations
    (packages/db/src/infra_twin/db/repositories.py) and aging steps
    (services/reconciliation/src/infra_twin/reconciliation/aging.py), in any order. */
module Lifecycle {
  import opened Model
  import opened Confidence
  import opened Observations

  /** What the aging sweep decides for one open edge. Skip: a declared edge, not even counted. */
  datatype Action = Skip | Untouched | Close | Decay(data: EdgeData)

  predicate AlreadyDecayed(evidence: seq<Evidence>, now: int) {
    exists e :: e in evidence && e.source == DECAY_SOURCE && e.observedAt == now
  }

  function AgeAction(d: EdgeData, now: int, detail: string): Action {
    if d.source != Inferred then Skip
    else
      match LastObservedAt(d.evidence)
      case None => Untouched
      case Some(last) =>
        var age := now - last;
        if age < 0 then Untouched
        else if age > EDGE_TTL then Close
        else if age > FRESHNESS_WINDOW then
          if AlreadyDecayed(d.evidence, now) then Untouched
          else
            var confidence := DecayedConfidence(d.confidence, age).value;
            if confidence >= d.confidence then Untouched
            else Decay(Decayed(d, confidence, now, detail))
        else Untouched
  }

  lemma {:induction false} AppendKeepsMarker(s: seq<Evidence>, e: Evidence)
    requires !IsMarker(e)
    ensures LastObservedAt(s + [e]) == LastObservedAt(s)
    ensures PriorCount(s + [e]) == PriorCount(s)
    decreases |s|
  {
    if s != [] {
      AppendKeepsMarker(s[1..], e);
      assert (s + [e])[1..] == s[1..] + [e];
    }
  }

  /** A decay lowers the confidence to no less than the floor, moves neither the time of the
      last observation nor the count, and happens only between the window and the limit. */
  lemma DecayStep(d: EdgeData, now: int, detail: string)
    ensures var a := AgeAction(d, now, detail);
            a.Decay? ==>
              && d.source == Inferred && FLOOR <= a.data.confidence < d.confidence
              && a.data.source == Inferred
              && LastObservedAt(a.data.evidence) == LastObservedAt(d.evidence) && LastObservedAt(d.evidence).Some?
              && PriorCount(a.data.evidence) == PriorCount(d.evidence)
              && FRESHNESS_WINDOW < now - LastObservedAt(d.evidence).value <= EDGE_TTL
  {
    AppendKeepsMarker(d.evidence, Evidence(DECAY_SOURCE, now, Some(detail)));
  }

  /** When an edge is closed and when it is weakened: past thirty days without a sight, and between
      seven and thirty, once per sweep, as long as it is above 0.2. */
  lemma AgeExact(d: EdgeData, now: int, detail: string)
    ensures AgeAction(d, now, detail).Close? <==>
              d.source == Inferred && LastObservedAt(d.evidence).Some? && now - LastObservedAt(d.evidence).value > 30 * 86400
    ensures AgeAction(d, now, detail).Decay? <==>
              && d.source == Inferred && LastObservedAt(d.evidence).Some?
              && 7 * 86400 < now - LastObservedAt(d.evidence).value <= 30 * 86400 && d.confidence > 0.2
              && forall e :: e in d.evidence && e.observedAt == now ==> e.source != "inferred-edge-decay"
    ensures AgeAction(d, now, detail).Decay? ==>
              DecayedConfidence(d.confidence, now - LastObservedAt(d.evidence).value) == Some(AgeAction(d, now, detail).data.confidence)
  {
    if LastObservedAt(d.evidence).Some? && now - LastObservedAt(d.evidence).value >= 0 {
      DecayRange(d.confidence, now - LastObservedAt(d.evidence).value);
      hide DecayedConfidence;
    }
  }

  /** A second sweep at the same instant has nothing to do. */
  lemma AgeIdempotent(d: EdgeData, now: int, detail: string, again: string)
    requires !AgeAction(d, now, detail).Close?
    ensures var e := if AgeAction(d, now, detail).Decay? then AgeAction(d, now, detail).data else d;
            AgeAction(e, now, again) == if d.source == Inferred then Untouched else Skip
  {
    var a := AgeAction(d, now, detail);
    if a.Decay? {
      DecayStep(d, now, detail);
      var mark := Evidence(DECAY_SOURCE, now, Some(detail));
      assert mark in a.data.evidence;
    }
  }

  /* ---------------------------------------------------------------- whole lives */

  datatype Event = Seen(incoming: EdgeData) | Swept(now: int, detail: string)

  /** The content of the open version after the events; None once closed. */
  function Live(first: EdgeData, events: seq<Event>): Option<EdgeData>
    requires first.evidence != []
  {
    if events == [] then Some(FirstSight(first))
    else
      match Live(first, events[..|events| - 1])
      case None => None
      case Some(d) => After(d, events[|events| - 1])
  }

  function After(d: EdgeData, e: Event): Option<EdgeData> {
    match e
    case Seen(incoming) =>
      (match UpsertChange(d, incoming)
       case Unchanged => Some(d)
       case Written(x) => Some(x)
       case Rejected => None)
    case Swept(now, detail) =>
      (match AgeAction(d, now, detail)
       case Close => None
       case Decay(x) => Some(x)
       case _ => Some(d))
  }

  predicate InferredSight(e: EdgeData) { e.source == Inferred && e.evidence != [] }

  ghost predicate Inferring(events: seq<Event>) {
    forall i :: 0 <= i < |events| && events[i].Seen? ==> InferredSight(events[i].incoming)
  }

  function Sightings(events: seq<Event>): nat {
    if events == [] then 0
    else Sightings(events[..|events| - 1]) + (if events[|events| - 1].Seen? then 1 else 0)
  }

  /** What every open version of an inferred edge looks like after n sights. */
  ghost predicate WellObserved(d: EdgeData, n: nat)
    requires n >= 1
  {
    && d.source == Inferred && d.evidence != []
    && IsMarker(d.evidence[0]) && d.evidence[0].detail == Some(Decimal(n))
    && FLOOR <= d.confidence <= Curve(n)
  }

  ghost predicate OneMarker(evidence: seq<Evidence>) {
    forall i :: 1 <= i < |evidence| ==> !IsMarker(evidence[i])
  }

  lemma MarkerCounts(d: EdgeData, n: nat)
    requires n >= 1 && WellObserved(d, n)
    ensures PriorCount(d.evidence) == n && LastObservedAt(d.evidence) == Some(d.evidence[0].observedAt)
  {
    CountReadsBack(n);
  }

  /** A re-observation adds one to the count whatever the 20-row window dropped, never lowers
      the confidence, and raises it strictly up to 49 sights. */
  lemma SeenStep(d: EdgeData, n: nat, incoming: EdgeData)
    requires n >= 1 && WellObserved(d, n) && InferredSight(incoming)
    ensures var r := UpsertChange(d, incoming);
            && r.Written? && WellObserved(r.data, n + 1) && OneMarker(r.data.evidence)
            && r.data.confidence == Curve(n + 1) && d.confidence <= r.data.confidence
            && (n <= 49 ==> d.confidence < r.data.confidence)
            && |r.data.evidence| <= 1 + EVIDENCE_WINDOW_CAP
  {
    ReobservedData(d, n, incoming);
    hide UpsertChange, LastRows, Curve, Decimal, CombinedRows;
    CurveRange(n, n + 1);
    StrictlyIncreasingUpTo49(n);
    CombinedHasNoMarker(d, incoming);
    var e := UpsertChange(d, incoming).data.evidence;
    assert forall i :: 1 <= i < |e| ==> e[i] == e[1..][i - 1];
  }

  lemma ReobservedData(d: EdgeData, n: nat, incoming: EdgeData)
    requires n >= 1 && WellObserved(d, n) && InferredSight(incoming)
    ensures var r := UpsertChange(d, incoming);
            r.Written? && r.data.source == Inferred && r.data.confidence == Curve(n + 1)
            && r.data.evidence != [] && r.data.evidence[1..] == CombinedRows(d, incoming)
            && IsMarker(r.data.evidence[0]) && r.data.evidence[0].detail == Some(Decimal(n + 1))
  {
    hide LastRows, Curve, Decimal, CombinedRows;
    MarkerCounts(d, n);
  }

  lemma CombinedHasNoMarker(d: EdgeData, incoming: EdgeData)
    ensures var rows := CombinedRows(d, incoming);
            |rows| <= EVIDENCE_WINDOW_CAP && forall i :: 0 <= i < |rows| ==> !IsMarker(rows[i])
  {
    var rows := CombinedRows(d, incoming);
    var all := WithoutMarkers(d.evidence) + WithoutMarkers(incoming.evidence);
    forall i | 0 <= i < |rows| ensures !IsMarker(rows[i]) {
      assert rows[i] == all[|all| - |rows| + i];
      assert all[|all| - |rows| + i] in all;
    }
  }

  /* ---------------------------------------------------------------- what a re-observation keeps */

  predicate IsCount(e: Evidence) { e.source == "aws-flowlogs-count" }

  /** The observation rows of an edge, oldest first: all but the count markers. */
  ghost function Observed(evidence: seq<Evidence>): seq<Evidence> {
    if evidence == [] then [] else (if IsCount(evidence[0]) then [] else [evidence[0]]) + Observed(evidence[1..])
  }

  lemma {:induction false} ObservedAppend(evidence: seq<Evidence>, e: Evidence)
    ensures Observed(evidence + [e]) == Observed(evidence) + (if IsCount(e) then [] else [e])
    decreases |evidence|
  {
    hide IsCount;
    var all := evidence + [e];
    if evidence == [] {
      assert all[1..] == [];
    } else {
      var rest := evidence[1..];
      assert all[0] == evidence[0] && all[1..] == rest + [e];
      ObservedAppend(rest, e);
      Regroup(if IsCount(evidence[0]) then [] else [evidence[0]], Observed(rest), if IsCount(e) then [] else [e]);
    }
  }

  lemma Regroup(a: seq<Evidence>, b: seq<Evidence>, c: seq<Evidence>)
    ensures a + (b + c) == a + b + c
  {
  }

  lemma CountIsMarker(e: Evidence)
    ensures IsCount(e) <==> IsMarker(e)
  {
  }

  lemma {:induction false} ObservedIs(evidence: seq<Evidence>)
    ensures WithoutMarkers(evidence) == Observed(evidence)
    decreases |evidence|
  {
    hide IsCount, IsMarker, Observed;
    if evidence == [] {
      NothingObserved();
    } else {
      var init, last := evidence[..|evidence| - 1], evidence[|evidence| - 1];
      ObservedIs(init);
      ObservedAppend(init, last);
      CountIsMarker(last);
      assert evidence == init + [last];
    }
  }

  lemma NothingObserved()
    ensures Observed([]) == []
  {
  }

  /** The rows of a sight, at most the last 20 of them, and before these the newest earlier rows
      that fit. */
  ghost predicate Windowed(prior: seq<Evidence>, recent: seq<Evidence>, rows: seq<Evidence>) {
    && |rows| == (if |prior| + |recent| <= 20 then |prior| + |recent| else 20)
    && (if |recent| >= 20 then rows == recent[|recent| - 20..] else rows == prior[|prior| - (|rows| - |recent|)..] + recent)
  }

  /** Behind the marker come those rows; the marker shows the time of the last of them. */
  ghost predicate Keeps(before: EdgeData, incoming: EdgeData, after: EdgeData) {
    && after.evidence != [] && incoming.evidence != [] && IsMarker(after.evidence[0])
    && var rows := after.evidence[1..];
       && Windowed(Observed(before.evidence), Observed(incoming.evidence), rows)
       && after.evidence[0].observedAt == (if rows == [] then incoming.evidence[0].observedAt else rows[|rows| - 1].observedAt)
  }

  lemma SeenKeeps(d: EdgeData, n: nat, incoming: EdgeData)
    requires n >= 1 && WellObserved(d, n) && InferredSight(incoming)
    ensures UpsertChange(d, incoming).Written? && Keeps(d, incoming, UpsertChange(d, incoming).data)
    ensures Observed(incoming.evidence) != [] ==>
              LastObservedAt(UpsertChange(d, incoming).data.evidence)
              == Some(Observed(incoming.evidence)[|Observed(incoming.evidence)| - 1].observedAt)
  {
    hide UpsertChange, WithoutMarkers, Observed, WellObserved, Windowed, LastObservedAt, LastRows, Curve, Decimal;
    ReobservedData(d, n, incoming);
    MarkerTime(d, n, incoming);
    ObservedIs(d.evidence);
    ObservedIs(incoming.evidence);
    Window(Observed(d.evidence), Observed(incoming.evidence));
    KeptShows(d, incoming, UpsertChange(d, incoming).data);
  }

  lemma Window(prior: seq<Evidence>, recent: seq<Evidence>)
    ensures Windowed(prior, recent, LastRows(prior + recent))
  {
    var all, rows := prior + recent, LastRows(prior + recent);
    if |recent| >= 20 { assert all[|all| - 20..] == recent[|recent| - 20..]; }
    else { assert rows == prior[|prior| - (|rows| - |recent|)..] + recent; }
  }

  lemma KeptShows(before: EdgeData, incoming: EdgeData, after: EdgeData)
    requires Keeps(before, incoming, after)
    ensures var recent := Observed(incoming.evidence);
            recent != [] ==> LastObservedAt(after.evidence) == Some(recent[|recent| - 1].observedAt)
  {
    hide Observed;
    var recent, rows := Observed(incoming.evidence), after.evidence[1..];
    if recent != [] { assert rows != [] && rows[|rows| - 1] == recent[|recent| - 1]; }
  }

  lemma MarkerTime(d: EdgeData, n: nat, incoming: EdgeData)
    requires n >= 1 && WellObserved(d, n) && InferredSight(incoming)
    ensures var r := UpsertChange(d, incoming);
            r.Written? && r.data.evidence[0].observedAt ==
              (if r.data.evidence[1..] == [] then incoming.evidence[0].observedAt
               else r.data.evidence[1..][|r.data.evidence[1..]| - 1].observedAt)
  {
    hide LastRows, Curve, Decimal, CombinedRows;
    MarkerCounts(d, n);
  }

  lemma SweptStep(d: EdgeData, n: nat, now: int, detail: string)
    requires n >= 1 && WellObserved(d, n)
    ensures var a := AgeAction(d, now, detail);
            a.Decay? ==> WellObserved(a.data, n) && (OneMarker(d.evidence) ==> OneMarker(a.data.evidence))
                         && a.data.evidence[0] == d.evidence[0]
  {
    DecayStep(d, now, detail);
  }

  lemma FirstStep(first: EdgeData)
    requires InferredSight(first) && first.confidence == BASELINE
    ensures WellObserved(FirstSight(first), 1)
    ensures OneMarker(FirstSight(first).evidence) <==> forall e :: e in first.evidence ==> !IsMarker(e)
  {
    CurveRange(1, 1);
    var e := FirstSight(first).evidence;
    assert Decimal(1) == "1" && HalfPow(0) == 1.0;
    assert forall i :: 1 <= i < |e| ==> e[i] == first.evidence[i - 1];
    if OneMarker(e) {
      forall x | x in first.evidence ensures !IsMarker(x) {
        var i :| 0 <= i < |first.evidence| && first.evidence[i] == x;
        assert e[i + 1] == x;
      }
    }
  }

  /** Every sight brings an observation, not just a marker. */
  ghost predicate Observing(events: seq<Event>) {
    forall i :: 0 <= i < |events| && events[i].Seen? ==> Observed(events[i].incoming.evidence) != []
  }

  /** When the edge was last seen: the time of the last row of the last sight; at first, of the
      newest row of the first one. */
  ghost function SeenAt(first: EdgeData, events: seq<Event>): int
    requires first.evidence != [] && Observing(events)
  {
    if events == [] then Newest(first.evidence)
    else
      var last := events[|events| - 1];
      assert last == events[|events| - 1];
      if last.Seen? then var rows := Observed(last.incoming.evidence); rows[|rows| - 1].observedAt
      else SeenAt(first, events[..|events| - 1])
  }

  /** Over every interleaving of re-observations and sweeps that leaves the edge open: the marker
      stays first and counts every sight, and the confidence stays between the floor and the
      curve of that count. The marker is the only one unless the first sight carried one that no
      re-observation has yet filtered out. The time it shows is the time of the last sight. */
  lemma {:induction false} LifeOfAnEdge(first: EdgeData, events: seq<Event>)
    requires InferredSight(first) && first.confidence == BASELINE && Inferring(events)
    ensures Live(first, events).Some? ==>
              var d := Live(first, events).value;
              && WellObserved(d, 1 + Sightings(events))
              && PriorCount(d.evidence) == 1 + Sightings(events)
              && d.confidence <= Curve(1 + Sightings(events)) < 1.0
              && ((forall e :: e in first.evidence ==> !IsMarker(e)) || Sightings(events) > 0 ==> OneMarker(d.evidence))
              && (Observing(events) ==> LastObservedAt(d.evidence) == Some(SeenAt(first, events)))
    decreases |events|
  {
    hide UpsertChange, AgeAction, WellObserved, PriorCount, LastObservedAt, OneMarker, Curve, FirstSight, Observed, Keeps;
    FirstStep(first);
    FirstSeen(first);
    if events != [] && Live(first, events[..|events| - 1]).Some? {
      var init, last := events[..|events| - 1], events[|events| - 1];
      LifeOfAnEdge(first, init);
      var d := Live(first, init).value;
      var n := 1 + Sightings(init);
      match last {
        case Seen(incoming) =>
          SeenStep(d, n, incoming);
          SeenKeeps(d, n, incoming);
        case Swept(now, detail) =>
          SweptStep(d, n, now, detail);
          DecayStep(d, now, detail);
      }
    }
    if Live(first, events).Some? {
      MarkerCounts(Live(first, events).value, 1 + Sightings(events));
      CurveRange(1 + Sightings(events), 1 + Sightings(events));
    }
  }

  lemma FirstSeen(first: EdgeData)
    requires InferredSight(first)
    ensures LastObservedAt(FirstSight(first).evidence) == Some(Newest(first.evidence))
  {
  }

  /** The next sweep closes the edge if and only if more than thirty days have passed since it was
      last seen. */
  lemma ClosedWhenStale(first: EdgeData, events: seq<Event>, now: int, detail: string)
    requires InferredSight(first) && first.confidence == BASELINE && Inferring(events) && Observing(events)
    requires Live(first, events).Some?
    ensures After(Live(first, events).value, Swept(now, detail)).None? <==> now - SeenAt(first, events) > 30 * 86400
  {
    hide Live, AgeAction, SeenAt, WellObserved, OneMarker;
    LifeOfAnEdge(first, events);
    AgeExact(Live(first, events).value, now, detail);
    LiveInferred(first, events);
  }

  lemma LiveInferred(first: EdgeData, events: seq<Event>)
    requires InferredSight(first) && first.confidence == BASELINE && Inferring(events) && Live(first, events).Some?
    ensures Live(first, events).value.source == Inferred
  {
    LifeOfAnEdge(first, events);
    hide Live, Curve, Decimal;
  }
}
