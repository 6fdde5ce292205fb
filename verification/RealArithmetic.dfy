/** Facts about products, squares and quotients of reals, stated one at a time for the solver. */
module RealArithmetic {
  lemma ProductSign(a: real, b: real)
    ensures a > 0.0 && b > 0.0 ==> a * b > 0.0
    ensures a >= 0.0 && b >= 0.0 ==> a * b >= 0.0
  {
  }

  lemma Positive(a: real, b: real)
    requires a > 0.0 && b > 0.0
    ensures a * b > 0.0
  {
  }

  lemma PositiveProduct(a: real, b: real) returns (p: real)
    requires a > 0.0 && b > 0.0
    ensures p == a * b && p > 0.0
  {
    p := a * b;
  }

  /** The solver drops `z * z > 0` as a trivial fact about squares, so the square gets a name. */
  lemma PositiveSquare(z: real) returns (zz: real)
    requires z > 0.0
    ensures zz == z * z && zz > 0.0
  {
    zz := PositiveProduct(z, z);
  }

  lemma Scale(d: real, a: real, b: real)
    requires d > 0.0
    ensures d * a <= d * b <==> a <= b
    ensures d * a == d * b <==> a == b
  {
  }

  lemma SignOfFactor(d: real, x: real)
    requires d > 0.0
    ensures d * x <= 0.0 <==> x <= 0.0
    ensures d * x >= 0.0 <==> x >= 0.0
    ensures d * x > 0.0 <==> x > 0.0
  {
    Scale(d, x, 0.0);
    Scale(d, 0.0, x);
    assert d * 0.0 == 0.0;
  }

  lemma SquareOrder(a: real, s: real)
    requires s >= 0.0
    ensures a * a <= s * s ==> a <= s
    ensures a * a >= s * s && a >= 0.0 ==> a >= s
  {
    if a > s {
      Positive(a - s, a + s);
      assert (a - s) * (a + s) == a * a - s * s;
      assert a * a > s * s;
    } else if a >= 0.0 && a < s {
      Positive(s - a, s + a);
      assert (s - a) * (s + a) == s * s - a * a;
      assert a * a < s * s;
    }
  }

  lemma QuotientRule(a: real, d: real)
    requires d != 0.0
    ensures d * (a / d) == a
  {
  }

  lemma ProductOrder(a: real, b: real, c: real, d: real)
    requires 0.0 <= a <= b && 0.0 <= c <= d
    ensures a * c <= b * d
  {
    ProductSign(b - a, c);
    ProductSign(b, d - c);
    assert (b - a) * c == b * c - a * c && b * (d - c) == b * d - b * c;
  }

  lemma SquareZero(x: real)
    ensures x * x == 0.0 ==> x == 0.0
    ensures x * x >= 0.0
  {
    if x > 0.0 {
      var q := PositiveSquare(x);
    } else if x < 0.0 {
      var q := PositiveSquare(-x);
    }
  }

  /** |s| <= t when the square of s is at most the square of t. */
  lemma Magnitude(s: real, t: real)
    requires t >= 0.0 && s * s <= t * t
    ensures -t <= s <= t
  {
    SquareOrder(s, t);
    SquareOrder(-s, t);
  }
}
