/** Facts about products and quotients of reals that the solver does not find unaided. */
module RealArith {
  lemma MulNonNegative(a: real, b: real)
    requires a >= 0.0 && b >= 0.0
    ensures a * b >= 0.0
  {
  }

  lemma MulPositive(a: real, b: real)
    requires a > 0.0 && b > 0.0
    ensures a * b > 0.0
  {
  }

  lemma DivNonNegative(a: real, b: real)
    requires a >= 0.0 && b > 0.0
    ensures a / b >= 0.0
  {
  }

  lemma DivPositive(a: real, b: real)
    requires a > 0.0 && b > 0.0
    ensures a / b > 0.0
  {
  }

  /*
   * The scaling lemmas take the product `x` as a parameter so that their
   * conclusions mention the caller's own term for it.
   */

  /** A fraction in [0, 1) of a positive size stays below it. */
  lemma ScaleBelow(k: real, n: real, x: real)
    requires 0.0 <= k < 1.0 && n > 0.0 && x == k * n
    ensures x < n
  {
    MulPositive(1.0 - k, n);
    assert (1.0 - k) * n == n - k * n;
  }

  /** A non-positive fraction of a size is at most zero. */
  lemma ScaleNonPositive(k: real, n: real, x: real)
    requires k <= 0.0 && n >= 0.0 && x == k * n
    ensures x <= 0.0
  {
    MulNonNegative(-k, n);
    assert -k * n == -(k * n);
  }

  /** Scaling by a factor in [0, 1] never increases. */
  lemma ScaleDown(v: real, k: real, x: real)
    requires v >= 0.0 && 0.0 <= k <= 1.0 && x == v * k
    ensures 0.0 <= x <= v
  {
    MulNonNegative(v, k);
    MulNonNegative(v, 1.0 - k);
    assert v * (1.0 - k) == v - v * k;
  }

  /** Scaling by a factor of at least 1 never decreases. */
  lemma ScaleUp(v: real, k: real, x: real)
    requires v >= 0.0 && k >= 1.0 && x == v * k
    ensures v <= x
  {
    MulNonNegative(v, k - 1.0);
    assert v * (k - 1.0) == v * k - v;
  }

  /**
   * Weights that are non-negative and sum to one keep a blend of values in
   * [0, 1) inside [0, 1).
   */
  lemma ConvexHalfOpen(wx: real, wy: real, wz: real, p: real, q: real, s: real)
    requires wx >= 0.0 && wy >= 0.0 && wz >= 0.0 && wx + wy + wz == 1.0
    requires 0.0 <= p < 1.0 && 0.0 <= q < 1.0 && 0.0 <= s < 1.0
    ensures 0.0 <= p * wx + q * wy + s * wz < 1.0
  {
    MulNonNegative(p, wx);
    MulNonNegative(q, wy);
    MulNonNegative(s, wz);
    // The gaps to 1 of each term: non-negative, and one of them positive.
    var gx, gy, gz := (1.0 - p) * wx, (1.0 - q) * wy, (1.0 - s) * wz;
    MulNonNegative(1.0 - p, wx);
    MulNonNegative(1.0 - q, wy);
    MulNonNegative(1.0 - s, wz);
    if wx > 0.0 { MulPositive(1.0 - p, wx); }
    else if wy > 0.0 { MulPositive(1.0 - q, wy); }
    else { MulPositive(1.0 - s, wz); }
    assert gx > 0.0 || gy > 0.0 || gz > 0.0;
    assert gx == wx - p * wx && gy == wy - q * wy && gz == wz - s * wz;
  }

  lemma NatAsReal(n: int)
    requires n >= 0
    ensures n as real >= 0.0
    ensures n > 0 ==> n as real > 0.0
  {
  }
}
