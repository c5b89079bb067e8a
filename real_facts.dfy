/** Facts about products of reals that the solver does not find unaided when the
    factors are terms rather than plain variables. */
module RealFacts {

  lemma MulNonneg(x: real, y: real)
    requires x >= 0.0 && y >= 0.0
    ensures x * y >= 0.0
  {
  }

  lemma MulPos(x: real, y: real)
    requires x > 0.0 && y > 0.0
    ensures x * y > 0.0
  {
  }

  /** Multiplying by a factor of at least k keeps a bound of at least k. */
  lemma MulAtLeast(x: real, y: real, k: real)
    requires x >= 1.0 && y >= k && k >= 0.0
    ensures x * y >= k
  {
    MulNonneg(x - 1.0, y);
    assert x * y == y + (x - 1.0) * y;
  }

  lemma Expand(x: real, d: real)
    ensures (x + d) * (x + d) == x * x + 2.0 * (x * d) + d * d
  {
  }
}
