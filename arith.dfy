/** Sign facts about products of reals that the nonlinear proofs need spelled out. */
module Arith {

  lemma NonNegativeProduct(x: real, y: real)
    requires 0.0 <= x && 0.0 <= y
    ensures 0.0 <= x * y
  {
  }

  lemma PositiveProduct(x: real, y: real)
    requires 0.0 < x && 0.0 < y
    ensures 0.0 < x * y
  {
  }

  lemma NonNegativeSquare(x: real)
    ensures 0.0 <= x * x
  {
    if x < 0.0 {
      NonNegativeProduct(-x, -x);
    } else {
      NonNegativeProduct(x, x);
    }
  }
}
