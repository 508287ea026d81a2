/** Facts about exact real arithmetic used by the other modules: scaling
    preserves order, and positive factors cancel. */
module RealArith {

  /** Dividing by a positive number and multiplying back is the identity. */
  lemma DivTimesDivisor(a: real, m: real)
    requires m > 0.0
    ensures (a / m) * m == a
  {
  }

  /** Multiplying by a non-negative number keeps a non-strict order. */
  lemma ScaleLe(a: real, b: real, q: real)
    requires a <= b && q >= 0.0
    ensures a * q <= b * q
  {
  }

  /** A positive common factor cancels. */
  lemma Cancel(p: real, q: real, d: real)
    requires d > 0.0 && p * d == q * d
    ensures p == q
  {
  }

  /** A factor of a positive product with a positive partner is positive. */
  lemma PositiveFactor(r: real, m: real, u: real)
    requires m > 0.0 && u > 0.0 && r * m == u
    ensures r > 0.0
  {
  }

  /** If r * m is at most m for positive m, then r is at most 1. */
  lemma FactorAtMostOne(r: real, m: real, u: real)
    requires m > 0.0 && u <= m && r * m == u
    ensures r <= 1.0
  {
  }

  /** For positive m, r * m equals m exactly when r is 1. */
  lemma FactorOneIffEqual(r: real, m: real, u: real)
    requires m > 0.0 && r * m == u
    ensures r == 1.0 <==> u == m
  {
  }

  /** Multiplying by a positive number keeps a strict order. */
  lemma ScaleLt(a: real, b: real, q: real)
    requires a < b && q > 0.0
    ensures a * q < b * q
  {
  }
}
