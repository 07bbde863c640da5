/** Small facts about real multiplication and division, each stated on its
    own so that the proofs that use them need no nonlinear search. */
module RealFacts {

  lemma ProductNonNegative(x: real, y: real)
    requires 0.0 <= x && 0.0 <= y
    ensures 0.0 <= x * y
  {
  }

  lemma ProductPositive(x: real, y: real)
    requires 0.0 < x && 0.0 < y
    ensures 0.0 < x * y
  {
  }

  /** A product of a non-negative and a non-positive factor. */
  lemma ProductNonPositive(x: real, y: real)
    requires x <= 0.0 && 0.0 <= y
    ensures x * y <= 0.0
  {
    ProductNonNegative(-x, y);
  }

  /** The sign of a product with a non-negative factor, and when it is at
      least that factor. */
  lemma ProductSign(m: real, x: real)
    requires 0.0 <= x
    ensures m <= 0.0 ==> m * x <= 0.0
    ensures m >= 1.0 ==> m * x >= x
    ensures m > 0.0 && x > 0.0 ==> m * x > 0.0
  {
    if m <= 0.0 {
      ProductNonPositive(m, x);
    }
    if m >= 1.0 {
      MultiplyMonotone(1.0, m, x);
    }
    if m > 0.0 && x > 0.0 {
      ProductPositive(m, x);
    }
  }

  /** Two amounts within their bounds add up to within the bounds' sum
      (stated on plain terms so that products can be passed in whole). */
  lemma SumWithin(x: real, y: real, xBound: real, yBound: real, total: real)
    requires x <= xBound && y <= yBound && xBound + yBound <= total
    ensures x + y <= total
  {
  }

  lemma Distribute(c: real, x: real, y: real)
    ensures c * (x + y) == c * x + c * y
  {
  }

  lemma DistributeRight(x: real, y: real, c: real)
    ensures (x + y) * c == x * c + y * c
  {
  }

  lemma Subtract(c: real, x: real, y: real)
    ensures c * (x - y) == c * x - c * y
  {
  }

  lemma SubtractRight(x: real, y: real, c: real)
    ensures (x - y) * c == x * c - y * c
  {
  }

  lemma Associate(a: real, b: real, c: real)
    ensures a * (b * c) == (a * b) * c
  {
  }

  lemma Commute(a: real, b: real)
    ensures a * b == b * a
  {
  }

  /** Multiplying by a non-negative factor keeps an ordering. */
  lemma Scale(c: real, x: real, y: real)
    requires 0.0 <= c && x <= y
    ensures c * x <= c * y
  {
    ProductNonNegative(c, y - x);
    Distribute(c, x, y - x);
  }

  /** The same ordering, with the factor on the right. */
  lemma MultiplyMonotone(a: real, b: real, c: real)
    requires a <= b && 0.0 <= c
    ensures a * c <= b * c
  {
    ProductNonNegative(b - a, c);
    DistributeRight(a, b - a, c);
  }

  lemma DivideCancels(a: real, k: real)
    requires k != 0.0
    ensures a * k / k == a
  {
  }

  /** Dividing and multiplying back by the same non-zero factor. */
  lemma DivideMultiply(a: real, k: real)
    requires k != 0.0
    ensures a / k * k == a
  {
  }

  lemma DivideNonNegative(x: real, c: real)
    requires 0.0 <= x && 0.0 < c
    ensures 0.0 <= x / c
  {
  }

  /** Dividing a product by one of its factors gives the other. */
  lemma DivideUndoes(x: real, a: real, k: real)
    requires k != 0.0 && x == a * k
    ensures x / k == a
  {
  }

  lemma DividePositive(x: real, c: real)
    requires 0.0 < x && 0.0 < c
    ensures 0.0 < x / c
  {
  }

  lemma DivideSubtract(a: real, b: real, c: real)
    requires c != 0.0
    ensures (b - a) / c == b / c - a / c
  {
  }

  /** Dividing by a positive factor keeps an ordering. */
  lemma DivideMonotone(a: real, b: real, c: real)
    requires a <= b && 0.0 < c
    ensures a / c <= b / c
  {
    DivideNonNegative(b - a, c);
    DivideSubtract(a, b, c);
  }
}
