/** Evidence and the observation count of inferred edges
    (packages/db/src/infra_twin/db/repositories.py). What an upsert or a decay does to the
    content of an edge row is a function of the row and the incoming edge. */
module Observations {
  import opened Model
  import opened Confidence

  datatype Evidence = Evidence(source: string, observedAt: int, detail: Option<string>)

  /** The provenance of an edge: everything an upsert compares. */
  datatype EdgeData = EdgeData(source: EdgeSource, confidence: real, evidence: seq<Evidence>)

  const COUNT_SOURCE := "aws-flowlogs-count"
  const DECAY_SOURCE := "inferred-edge-decay"
  const EVIDENCE_WINDOW_CAP: nat := 20
  const TOLERANCE := 0.000001

  function Differ(a: real, b: real): bool { a - b > TOLERANCE || b - a > TOLERANCE }

  /* ---------------------------------------------------------------- numbers as text */

  function Digit(d: nat): char
    requires d < 10
  {
    ['0', '1', '2', '3', '4', '5', '6', '7', '8', '9'][d]
  }

  predicate IsDigit(c: char) { '0' <= c <= '9' }

  function DigitValue(c: char): (d: nat)
    requires IsDigit(c)
    ensures d < 10
  {
    (c as int) - ('0' as int)
  }

  function Decimal(n: nat): (s: string)
    ensures s != "" && forall i :: 0 <= i < |s| ==> IsDigit(s[i])
  {
    if n < 10 then [Digit(n)] else Decimal(n / 10) + [Digit(n % 10)]
  }

  function DigitsValue(s: string): nat
    requires forall i :: 0 <= i < |s| ==> IsDigit(s[i])
  {
    if s == "" then 0 else 10 * DigitsValue(s[..|s| - 1]) + DigitValue(s[|s| - 1])
  }

  /** An optional minus sign and ASCII digits. */
  function ParseInt(s: string): Option<int> {
    if s != "" && forall i :: 0 <= i < |s| ==> IsDigit(s[i]) then Some(DigitsValue(s))
    else if |s| > 1 && s[0] == '-' && forall i :: 1 <= i < |s| ==> IsDigit(s[i]) then Some(0 - DigitsValue(s[1..]) as int)
    else None
  }

  lemma {:induction false} DigitsOfDecimal(n: nat)
    ensures DigitsValue(Decimal(n)) == n
    decreases n
  {
    if n >= 10 {
      DigitsOfDecimal(n / 10);
      var s := Decimal(n);
      assert s[..|s| - 1] == Decimal(n / 10);
      assert DigitValue(Digit(n % 10)) == n % 10;
    } else {
      assert [Digit(n)][..0] == "";
      assert DigitValue(Digit(n)) == n;
    }
  }

  /** A stored count is read back. */
  lemma CountReadsBack(n: nat)
    ensures ParseInt(Decimal(n)) == Some(n)
  {
    DigitsOfDecimal(n);
  }

  /* ---------------------------------------------------------------- markers */

  predicate IsMarker(e: Evidence) { e.source == COUNT_SOURCE }

  /** observed_at of the first count marker. */
  function LastObservedAt(evidence: seq<Evidence>): Option<int> {
    if evidence == [] then None
    else if IsMarker(evidence[0]) then Some(evidence[0].observedAt)
    else LastObservedAt(evidence[1..])
  }

  /** The count in the first marker; 1 when there is none or it is not a number. */
  function PriorCount(evidence: seq<Evidence>): int {
    if evidence == [] then 1
    else if IsMarker(evidence[0]) then
      match evidence[0].detail
      case None => 1
      case Some(t) => (match ParseInt(t) case None => 1 case Some(n) => n)
    else PriorCount(evidence[1..])
  }

  function WithoutMarkers(evidence: seq<Evidence>): (r: seq<Evidence>)
    ensures forall e :: e in r <==> e in evidence && !IsMarker(e)
    ensures |r| <= |evidence|
  {
    if evidence == [] then []
    else
      var init := WithoutMarkers(evidence[..|evidence| - 1]);
      var last := evidence[|evidence| - 1];
      assert evidence == evidence[..|evidence| - 1] + [last];
      if IsMarker(last) then init else init + [last]
  }

  function Newest(evidence: seq<Evidence>): (t: int)
    requires evidence != []
    ensures exists i :: 0 <= i < |evidence| && evidence[i].observedAt == t
    ensures forall i :: 0 <= i < |evidence| ==> evidence[i].observedAt <= t
  {
    if |evidence| == 1 then evidence[0].observedAt
    else
      var t := Newest(evidence[..|evidence| - 1]);
      var u := evidence[|evidence| - 1].observedAt;
      if t >= u then t else u
  }

  function LastRows(s: seq<Evidence>): (r: seq<Evidence>)
    ensures |r| <= EVIDENCE_WINDOW_CAP && |r| <= |s| && r == s[|s| - |r|..]
  {
    if |s| <= EVIDENCE_WINDOW_CAP then s else s[|s| - EVIDENCE_WINDOW_CAP..]
  }

  function CountMarker(n: nat, at: int): Evidence { Evidence(COUNT_SOURCE, at, Some(Decimal(n))) }

  /* ---------------------------------------------------------------- upsert and decay */

  datatype Change =
    | Unchanged
    | Written(data: EdgeData)
    | Rejected               // a ValueError: empty evidence, or a stored count below 0

  function FirstSight(incoming: EdgeData): EdgeData
    requires incoming.evidence != []
  {
    if incoming.source == Inferred then
      incoming.(evidence := [CountMarker(1, Newest(incoming.evidence))] + incoming.evidence)
    else incoming
  }

  function CombinedRows(current: EdgeData, incoming: EdgeData): seq<Evidence> {
    LastRows(WithoutMarkers(current.evidence) + WithoutMarkers(incoming.evidence))
  }

  function Reobserved(current: EdgeData, incoming: EdgeData): Change
    requires incoming.evidence != []
  {
    var count := PriorCount(current.evidence) + 1;
    match ConfidenceForObservations(count)
    case None => Rejected
    case Some(confidence) =>
      var rows := CombinedRows(current, incoming);
      var at := if rows == [] then incoming.evidence[0].observedAt else rows[|rows| - 1].observedAt;
      Written(EdgeData(Inferred, confidence, [CountMarker(count, at)] + rows))
  }

  /** What EdgeRepository.upsert writes over the open row. */
  function UpsertChange(current: EdgeData, incoming: EdgeData): Change {
    if incoming.evidence == [] then Rejected
    else if current.source == Inferred && incoming.source == Inferred then Reobserved(current, incoming)
    else if current.source == incoming.source && !Differ(current.confidence, incoming.confidence)
            && current.evidence == incoming.evidence then Unchanged
    else Written(incoming)
  }

  /** The content of a decayed version; the marker is carried over. */
  function Decayed(current: EdgeData, confidence: real, now: int, detail: string): EdgeData {
    current.(confidence := confidence, evidence := current.evidence + [Evidence(DECAY_SOURCE, now, Some(detail))])
  }
}
