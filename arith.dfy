/**
 * Facts about real multiplication and division that the z-score reasoning
 * needs, each stated over plain variables so the solver sees them one at a time.
 */
module Arith {

  lemma QuotientProduct(x: real, y: real, u: real, v: real)
    requires u != 0.0 && v != 0.0
    ensures (x / u) * (y / v) == (x * y) / (u * v)
  {
  }

  lemma ProductPositive(x: real, y: real)
    requires x > 0.0 && y > 0.0
    ensures x * y > 0.0
  {
  }

  lemma SquareGap(x: real, y: real)
    requires y * y - x * y > 0.0 && x * y - x * x >= 0.0
    ensures !(x * x >= y * y)
  {
  }

  /** Squaring keeps the order of non-negative reals, in both directions. */
  lemma SquareMonotone(x: real, y: real)
    requires x >= 0.0 && y >= 0.0
    ensures x >= y <==> x * x >= y * y
  {
    if x >= y {
      assert x * x - x * y >= 0.0;
      assert x * y - y * y >= 0.0;
    } else {
      assert y * y - x * y > 0.0;
      assert x * y - x * x >= 0.0;
      SquareGap(x, y);
    }
  }
}
