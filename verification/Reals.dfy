/** The exponential and the logarithm, as a value that the curve and the tree
    take: only the laws the pricing code relies on are stated about them. */
module Reals {

  datatype ExpLn = ExpLn(exp: real -> real, ln: real -> real)
  {
    /** `exp` is a strictly increasing bijection onto the positive reals that turns
        sums into products, and `ln` is its inverse. */
    ghost predicate Valid() {
      && (forall x :: exp(x) > 0.0)
      && exp(0.0) == 1.0
      && (forall x, y :: x < y ==> exp(x) < exp(y))
      && (forall x :: ln(exp(x)) == x)
      && (forall y :: y > 0.0 ==> exp(ln(y)) == y)
      && (forall x, y :: TurnsSumIntoProduct(x, y))
    }

    ghost predicate TurnsSumIntoProduct(x: real, y: real) {
      exp(x + y) == exp(x) * exp(y)
    }
  }

  function Max(a: real, b: real): real {
    if a >= b then a else b
  }
}
