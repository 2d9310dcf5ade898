/** Small facts about real arithmetic, stated once and called where a proof
    needs the solver to take a non-linear step. */
module RealArith {
  /** Magnitude of a real, as the C library's `abs`/`fabs`. */
  function Abs(x: real): real
  {
    if x < 0.0 then -x else x
  }

  lemma MulNonNeg(a: real, b: real)
    requires a >= 0.0 && b >= 0.0
    ensures a * b >= 0.0
  {
  }

  lemma MulPos(a: real, b: real)
    requires a > 0.0 && b > 0.0
    ensures a * b > 0.0
  {
  }

  lemma SquareNonNeg(a: real)
    ensures a * a >= 0.0
  {
  }

  lemma MulLe(a: real, b: real, c: real)
    requires a >= 0.0 && b <= c
    ensures a * b <= a * c
  {
  }

  lemma MulDiv(a: real, b: real, c: real)
    requires c != 0.0
    ensures a * (b / c) == (a * b) / c
  {
  }

  lemma DivAdd(a: real, b: real, c: real)
    requires c != 0.0
    ensures a / c + b / c == (a + b) / c
  {
  }

  lemma DivByCommon(a: real, c: real, t: real)
    requires t != 0.0 && c != 0.0
    ensures (a / t) / (c / t) == a / c
  {
  }

  lemma DivPos(a: real, b: real)
    requires a > 0.0 && b > 0.0
    ensures a / b > 0.0
  {
  }

  lemma DivWithinUnit(a: real, b: real)
    requires 0.0 <= a <= b && b > 0.0
    ensures 0.0 <= a / b <= 1.0
  {
  }

  lemma CrossMultiply(a: real, b: real, c: real, d: real)
    requires b > 0.0 && d > 0.0
    ensures a / b == c / d <==> a * d == c * b
  {
  }

  lemma ZeroProduct(a: real, b: real)
    ensures a * b == 0.0 <==> a == 0.0 || b == 0.0
  {
  }

  lemma DivMul(a: real, b: real)
    requires b != 0.0
    ensures (a / b) * b == a
  {
  }

  lemma SelfQuotient(x: real)
    requires x != 0.0
    ensures x / x == 1.0
  {
  }

  /** Transitivity, for chaining two equalities whose middle term is a
      product the solver would otherwise expand. */
  lemma EqChain(x: real, y: real, z: real)
    requires x == y && y == z
    ensures x == z
  {
  }

  /** Equal numerators over equal denominators. */
  lemma DivCongruence(n1: real, d1: real, n2: real, d2: real)
    requires n1 == n2 && d1 == d2 && d1 != 0.0
    ensures n1 / d1 == n2 / d2
  {
  }
}
