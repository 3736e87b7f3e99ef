// The two library functions the program takes from Go's math package, by what it relies on.

module RealMath {
  // math.Sqrt: the nonnegative root of its square.
  ghost predicate IsSqrt(root: real -> real) {
    forall x :: x >= 0.0 ==> root(x) >= 0.0 && Sq(root(x)) == x
  }

  // math.Exp: positive, increasing, 1 at 0.
  ghost predicate IsExp(exp: real -> real) {
    && exp(0.0) == 1.0
    && (forall x :: exp(x) > 0.0)
    && (forall x, y :: x <= y ==> exp(x) <= exp(y))
  }

  function Min(a: real, b: real): real { if a <= b then a else b }
  function Max(a: real, b: real): real { if a >= b then a else b }

  function Sq(x: real): (y: real)
    ensures y >= 0.0
  {
    x * x
  }

  lemma ProductPositive(a: real, b: real) returns (p: real)
    requires a > 0.0 && b > 0.0
    ensures p == a * b && p > 0.0
  {
    p := a * b;
  }

  lemma ProductNonnegative(a: real, b: real) returns (p: real)
    requires a >= 0.0 && b >= 0.0
    ensures p == a * b && p >= 0.0
  {
    p := a * b;
    ZeroProduct(a);
    ZeroProduct(b);
    if a > 0.0 && b > 0.0 {
      var _ := ProductPositive(a, b);
    }
  }

  lemma SqPositive(x: real)
    requires x != 0.0
    ensures Sq(x) > 0.0
  {
    var y := if x > 0.0 then x else -x;
    var p := ProductPositive(y, y);
    assert Sq(x) == p;
  }

  lemma SqZero(x: real)
    ensures Sq(x) == 0.0 <==> x == 0.0
  {
    if x != 0.0 { SqPositive(x); }
  }

  lemma ZeroProduct(x: real)
    ensures 0.0 * x == 0.0 && x * 0.0 == 0.0
  {}

  lemma Distribute(k: real, a: real, b: real)
    ensures k * (a + b) == k * a + k * b
  {}

  lemma DifferenceOfSquares(a: real, b: real)
    ensures (a - b) * (a + b) == Sq(a) - Sq(b)
  {}

  lemma SquareOrder(a: real, b: real)
    requires b >= 0.0 && Sq(a) <= Sq(b)
    ensures a <= b
  {
    DifferenceOfSquares(a, b);
    if a > b {
      var _ := ProductPositive(a - b, a + b);
    }
  }

  lemma RootUnique(a: real, b: real)
    requires a >= 0.0 && b >= 0.0 && Sq(a) == Sq(b)
    ensures a == b
  {
    SquareOrder(a, b);
    SquareOrder(b, a);
  }

  // A nonnegative product with a positive factor.
  lemma FactorNonnegative(b: real, d: real)
    requires b > 0.0 && b * d >= 0.0
    ensures d >= 0.0
  {
    NegatedFactor(b, d);
    if d < 0.0 {
      var _ := ProductPositive(b, -d);
    }
  }

  lemma NegatedFactor(b: real, d: real)
    ensures b * -d == -(b * d)
  {}
}
