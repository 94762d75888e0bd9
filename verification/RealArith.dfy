/** The few non-linear facts about reals that the statistics proofs rest on. */
module RealArith {

  function Abs(x: real): real {
    if x < 0.0 then -x else x
  }

  function Square(x: real): (r: real)
    ensures r >= 0.0
  {
    x * x
  }

  function Scale(f: real, d: real): real {
    f * d
  }

  lemma ScaleMonotone(f: real, g: real, d: real)
    requires f <= g && d >= 0.0
    ensures Scale(f, d) <= Scale(g, d)
  {
  }

  /** A fraction of a non-negative length stays within it. */
  lemma ScaleWithin(f: real, d: real)
    requires 0.0 <= f <= 1.0 && d >= 0.0
    ensures 0.0 <= Scale(f, d) <= d
  {
    ScaleMonotone(0.0, f, d);
    ScaleMonotone(f, 1.0, d);
  }

  lemma CancelFactor(x: real, y: real, d: real)
    requires d > 0.0 && x * d <= y * d
    ensures x <= y
  {
  }

  lemma MulMonotone(x: real, y: real, d: real)
    requires d >= 0.0 && x <= y
    ensures x * d <= y * d
  {
  }

  lemma QuotientTimes(x: real, d: real, q: real)
    requires d != 0.0 && q == x / d
    ensures q * d == x
  {
  }

  /** Quotients by a positive number, compared by cross multiplication. */
  lemma QuotientAtMost(x: real, d: real, bound: real)
    requires d > 0.0
    ensures x / d <= bound <==> x <= bound * d
  {
    var q := x / d;
    assert q * d == x;
    if x <= bound * d { CancelFactor(q, bound, d); }
    if q <= bound { MulMonotone(q, bound, d); }
  }

  lemma QuotientAtLeast(x: real, d: real, bound: real)
    requires d > 0.0
    ensures bound <= x / d <==> bound * d <= x
  {
    var q := x / d;
    assert q * d == x;
    if bound * d <= x { CancelFactor(bound, q, d); }
    if bound <= q { MulMonotone(bound, q, d); }
  }
}
