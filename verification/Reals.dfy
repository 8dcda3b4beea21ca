/** Products of reals behind a name, so that proofs about confidences and scores can treat them as
    plain terms. */
module Reals {

  function Times(a: real, b: real): real { a * b }

  lemma Scale(a: real, b: real, y: real)
    requires y > 0.0
    ensures a <= b <==> Times(a, y) <= Times(b, y)
    ensures a < b <==> Times(a, y) < Times(b, y)
  {
    assert (b - a) * y == b * y - a * y;
    if a <= b { assert (b - a) * y >= 0.0; }
    if a < b { assert (b - a) * y > 0.0; }
    if a > b { assert (a - b) * y > 0.0; }
  }

  lemma Sum(a: real, b: real, y: real)
    ensures Times(a + b, y) == Times(a, y) + Times(b, y)
    ensures Times(a, b + y) == Times(a, b) + Times(a, y)
  {
  }

  lemma Unit(y: real)
    ensures Times(1.0, y) == y && Times(0.0, y) == 0.0
  {
  }

  lemma Ratio(x: real, y: real)
    requires y != 0.0
    ensures Times(x / y, y) == x
  {
  }

  lemma Commutes(a: real, b: real)
    ensures Times(a, b) == Times(b, a)
  {
  }

  lemma AtMost(a: real, b: real)
    requires 0.0 <= a && 0.0 <= b <= 1.0
    ensures 0.0 <= Times(a, b) <= a
  {
    assert a * (1.0 - b) >= 0.0;
  }

  /** A factor of at most 1 does not enlarge, and a product is 1 only when both factors are. */
  lemma Shrinks(a: real, b: real)
    requires 0.0 <= a <= 1.0 && 0.0 <= b <= 1.0
    ensures 0.0 <= Times(a, b) <= a && Times(a, b) <= b
    ensures Times(a, b) == 1.0 <==> a == 1.0 && b == 1.0
  {
    AtMost(a, b);
    AtMost(b, a);
    Commutes(a, b);
    Unit(1.0);
    hide Times;
  }

  lemma Regroup(a: real, b: real, c: real, d: real)
    ensures Times(Times(a, b), Times(c, d)) == Times(Times(a, c), Times(b, d))
  {
    assert (a * b) * (c * d) == (a * c) * (b * d);
  }

  /** A factor that changes nothing is 1, unless there is nothing to change. */
  lemma Absorbs(a: real, b: real)
    ensures a == Times(a, b) <==> a == 0.0 || b == 1.0
  {
    assert a - a * b == a * (1.0 - b);
    assert a != 0.0 && b != 1.0 ==> a * (1.0 - b) != 0.0;
  }
}
