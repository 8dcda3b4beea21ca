/** The two confidence curves of inferred edges
    (packages/core-model/src/infra_twin/core_model/confidence.py), over exact reals. */
module Confidence {
  import opened Model

  const BASELINE := 0.6
  const DECAY_BASE := 0.5
  const FLOOR := 0.2
  const DAY: int := 86400
  const FRESHNESS_WINDOW: int := 7 * DAY
  const EDGE_TTL: int := 30 * DAY
  const DECAY_PER_DAY := 0.05
  const CAP := 1.0 - 0.000000000000001

  function HalfPow(n: nat): real { if n == 0 then 1.0 else DECAY_BASE * HalfPow(n - 1) }

  function RawCurve(count: nat): real
    requires count >= 1
  {
    1.0 - (1.0 - BASELINE) * HalfPow(count - 1)
  }

  function Curve(count: nat): real
    requires count >= 1
  {
    if RawCurve(count) < CAP then RawCurve(count) else CAP
  }

  /** None is the ValueError for a count below 1. */
  function ConfidenceForObservations(count: int): Option<real> {
    if count < 1 then None else Some(Curve(count))
  }

  lemma {:induction false} HalfPowShrinks(m: nat, n: nat)
    requires m <= n
    ensures 0.0 < HalfPow(n) <= HalfPow(m)
    ensures m < n ==> HalfPow(n) < HalfPow(m)
    decreases n
  {
    if n > 0 {
      if m < n { HalfPowShrinks(m, n - 1); } else { HalfPowShrinks(m - 1, n - 1); }
    }
  }

  lemma {:induction false} HalfPowSum(m: nat, n: nat)
    ensures HalfPow(m + n) == HalfPow(m) * HalfPow(n)
    decreases n
  {
    if n > 0 { HalfPowSum(m, n - 1); }
  }

  lemma CurveRange(m: nat, n: nat)
    requires 1 <= m <= n
    ensures BASELINE <= Curve(m) <= Curve(n) <= CAP < 1.0
  {
    HalfPowShrinks(0, m - 1);
    HalfPowShrinks(m - 1, n - 1);
  }

  /** The first sight gives 0.6; each further one halves the distance to 1, until the cap. */
  lemma CurveHalves(n: nat)
    requires n >= 1
    ensures Curve(1) == 0.6
    ensures n <= 48 ==> 1.0 - Curve(n + 1) == (1.0 - Curve(n)) / 2.0
    ensures n >= 50 ==> Curve(n) == 1.0 - 0.000000000000001
  {
    HalfPow48();
    HalfPowShrinks(n - 1, n);
    if n <= 48 { HalfPowShrinks(n, 48); } else { HalfPowShrinks(49, if n >= 50 then n - 1 else 49); }
  }

  /** The curve is documented as strictly increasing; the clamp makes it so only up to 49. */
  lemma StrictlyIncreasingUpTo49(n: nat)
    requires n >= 1
    ensures Curve(n) < Curve(n + 1) <==> n <= 49
  {
    HalfPowShrinks(n - 1, n);
    HalfPow48();
    if n <= 49 { HalfPowShrinks(n - 1, 48); } else { HalfPowShrinks(49, n - 1); HalfPowShrinks(49, n); }
  }

  lemma HalfPow48()
    ensures HalfPow(48) == 1.0 / 281474976710656.0
    ensures HalfPow(49) == 0.5 * HalfPow(48)
  {
    HalfPowSum(1, 1); HalfPowSum(1, 2);
    assert HalfPow(1) == 0.5 * HalfPow(0) == 0.5;
    assert HalfPow(3) == 0.125;
    HalfPowSum(3, 3); assert HalfPow(6) == 0.015625;
    HalfPowSum(6, 6); assert HalfPow(12) == 1.0 / 4096.0;
    HalfPowSum(12, 12); assert HalfPow(24) == 1.0 / 16777216.0;
    HalfPowSum(24, 24);
  }

  /** None is the ValueError for a negative age. */
  function DecayedConfidence(current: real, age: int): Option<real> {
    if age < 0 then None
    else if age <= FRESHNESS_WINDOW then Some(current)
    else
      var daysStale := (age - FRESHNESS_WINDOW) as real / DAY as real;
      var raw := current - DECAY_PER_DAY * daysStale;
      var clamped := if raw < current then raw else current;
      Some(if clamped > FLOOR then clamped else FLOOR)
  }

  /** The result never goes below the floor past the window, and it is documented never to
      raise the confidence: that holds exactly when the input is not below the floor. */
  lemma DecayRange(current: real, age: int)
    requires age >= 0
    ensures var r := DecayedConfidence(current, age).value;
            && (age > 7 * 86400 ==> r >= 0.2)
            && (age > 7 * 86400 && current > 0.2 ==> r < current)
            && (r <= current <==> age <= 7 * 86400 || current >= 0.2)
            && (age <= 7 * 86400 ==> r == current)
  {
  }

  /** Past the window a day takes 0.05, down to the floor. */
  lemma DecayPerDay(current: real, age: int)
    requires age >= 7 * 86400 && current >= 0.2
    ensures var today, tomorrow := DecayedConfidence(current, age).value, DecayedConfidence(current, age + 86400).value;
            tomorrow == if today - 0.05 > 0.2 then today - 0.05 else 0.2
  {
    var x, y := (age - FRESHNESS_WINDOW) as real / DAY as real, (age + 86400 - FRESHNESS_WINDOW) as real / DAY as real;
    assert y == x + 1.0;
  }

  lemma DecayRaisesBelowFloor()
    ensures DecayedConfidence(0.1, 8 * DAY) == Some(0.2)
  {
  }

  /** Later is never stronger, exactly unless a value below the floor leaves the window in between. */
  lemma DecayMonotone(current: real, a: int, b: int)
    requires 0 <= a <= b
    ensures DecayedConfidence(current, b).value <= DecayedConfidence(current, a).value
            <==> current >= FLOOR || a > FRESHNESS_WINDOW || b <= FRESHNESS_WINDOW
  {
  }
}
