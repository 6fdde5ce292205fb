/**
 * Cosine similarity and normalization of embeddings over exact reals; a square root is any nonnegative
 * number with the right square.
 */
module Embeddings {
  import opened Options
  import opened RealArithmetic

  type Vector = seq<real>

  function Dot(a: Vector, b: Vector): real
    requires |a| == |b|
  {
    if a == [] then 0.0 else Dot(a[..|a| - 1], b[..|b| - 1]) + a[|a| - 1] * b[|b| - 1]
  }

  ghost predicate IsRoot(x: real, r: real) { r >= 0.0 && r * r == x }

  /** cosineSimilarity, with the roots of both squared magnitudes at hand; None is the thrown error. */
  method CosineSimilarity(a: Vector, b: Vector, rootA: real, rootB: real) returns (r: Option<real>)
    requires IsRoot(Dot(a, a), rootA) && IsRoot(Dot(b, b), rootB)
    ensures r.None? <==> |a| != |b|
    ensures r.Some? ==> r.value == Similarity(a, b, rootA, rootB) && -1.0 <= r.value <= 1.0
  {
    if |a| != |b| { return None; }
    var dotProduct, magnitudeA, magnitudeB := 0.0, 0.0, 0.0;
    for i := 0 to |a|
      invariant dotProduct == Dot(a[..i], b[..i])
      invariant magnitudeA == Dot(a[..i], a[..i]) && magnitudeB == Dot(b[..i], b[..i])
    {
      assert a[..i + 1][..i] == a[..i] && b[..i + 1][..i] == b[..i];
      dotProduct := dotProduct + a[i] * b[i];
      magnitudeA := magnitudeA + a[i] * a[i];
      magnitudeB := magnitudeB + b[i] * b[i];
    }
    assert a[..|a|] == a && b[..|b|] == b;
    SimilarityInRange(a, b, rootA, rootB);
    var magnitude := rootA * rootB;
    if magnitude == 0.0 { return Some(0.0); }
    return Some(dotProduct / magnitude);
  }

  function Similarity(a: Vector, b: Vector, rootA: real, rootB: real): real
    requires |a| == |b|
  {
    if rootA * rootB == 0.0 then 0.0 else Dot(a, b) / (rootA * rootB)
  }

  // ---- Cauchy-Schwarz along the loop ----

  lemma {:induction false} DotSelf(a: Vector)
    ensures Dot(a, a) >= 0.0
    ensures Dot(a, a) == 0.0 ==> forall i :: 0 <= i < |a| ==> a[i] == 0.0
  {
    if a != [] {
      var a', x := a[..|a| - 1], a[|a| - 1];
      DotSelf(a');
      SquareZero(x);
      assert forall i :: 0 <= i < |a'| ==> a[i] == a'[i];
    }
  }

  /** One round of the loop keeps the square of the dot product below the product of the magnitudes. */
  lemma SchwarzStep(d: real, p2: real, q2: real, x: real, y: real)
    requires p2 >= 0.0 && q2 >= 0.0 && d * d <= p2 * q2
    ensures (d + x * y) * (d + x * y) <= (p2 + x * x) * (q2 + y * y)
  {
    var m := p2 * (y * y) + q2 * (x * x);
    var n := 2.0 * (d * (x * y));
    MixedTerm(d, p2, q2, x, y);
    assert (d + x * y) * (d + x * y) == d * d + n + (x * y) * (x * y);
    assert (p2 + x * x) * (q2 + y * y) == p2 * q2 + m + (x * x) * (y * y);
    assert (x * y) * (x * y) == (x * x) * (y * y);
  }

  lemma MixedTerm(d: real, p2: real, q2: real, x: real, y: real)
    requires p2 >= 0.0 && q2 >= 0.0 && d * d <= p2 * q2
    ensures 2.0 * (d * (x * y)) <= p2 * (y * y) + q2 * (x * x)
  {
    var u, v, w := p2 * (y * y), q2 * (x * x), d * (x * y);
    var t := (x * y) * (x * y);
    SquareZero(x);
    SquareZero(y);
    SquareZero(x * y);
    ProductSign(p2, y * y);
    ProductSign(q2, x * x);
    Regroup(d, p2, q2, x, y);
    ScaleOrder(d * d, p2 * q2, t);
    ArithmeticGeometric(u, v, w);
  }

  lemma Regroup(d: real, p2: real, q2: real, x: real, y: real)
    ensures (d * (x * y)) * (d * (x * y)) == (d * d) * ((x * y) * (x * y))
    ensures (p2 * (y * y)) * (q2 * (x * x)) == (p2 * q2) * ((x * y) * (x * y))
  {
  }

  lemma ArithmeticGeometric(u: real, v: real, w: real)
    requires u >= 0.0 && v >= 0.0 && w * w <= u * v
    ensures 2.0 * w <= u + v
  {
    var t := u - v;
    SquareZero(t);
    assert t * t == (u + v) * (u + v) - 4.0 * (u * v);
    assert (2.0 * w) * (2.0 * w) == 4.0 * (w * w);
    Magnitude(2.0 * w, u + v);
  }

  lemma ScaleOrder(a: real, b: real, c: real)
    requires a <= b && c >= 0.0
    ensures a * c <= b * c
  {
    ProductSign(b - a, c);
    assert (b - a) * c == b * c - a * c;
  }

  lemma {:induction false} CauchySchwarz(a: Vector, b: Vector)
    requires |a| == |b|
    ensures Dot(a, b) * Dot(a, b) <= Dot(a, a) * Dot(b, b)
  {
    if a != [] {
      var a', b' := a[..|a| - 1], b[..|b| - 1];
      CauchySchwarz(a', b');
      DotSelf(a');
      DotSelf(b');
      SchwarzStep(Dot(a', b'), Dot(a', a'), Dot(b', b'), a[|a| - 1], b[|b| - 1]);
    }
  }

  lemma QuotientRange(d: real, m: real)
    requires m > 0.0 && -m <= d <= m
    ensures -1.0 <= d / m <= 1.0
  {
  }

  /** The similarity of any two vectors of one length lies between -1 and 1. */
  lemma SimilarityInRange(a: Vector, b: Vector, rootA: real, rootB: real)
    requires |a| == |b| && IsRoot(Dot(a, a), rootA) && IsRoot(Dot(b, b), rootB)
    ensures -1.0 <= Similarity(a, b, rootA, rootB) <= 1.0
  {
    if rootA * rootB != 0.0 {
      CauchySchwarz(a, b);
      WithinRoots(Dot(a, b), rootA, rootB, Dot(a, a), Dot(b, b));
      QuotientRange(Dot(a, b), rootA * rootB);
    }
  }

  lemma SquareOfProduct(x: real, y: real, p: real, q: real)
    requires x * x == p && y * y == q
    ensures (x * y) * (x * y) == p * q
  {
    assert (x * y) * (x * y) == (x * x) * (y * y);
  }

  lemma WithinRoots(d: real, x: real, y: real, p: real, q: real)
    requires x >= 0.0 && y >= 0.0 && x * x == p && y * y == q && d * d <= p * q
    ensures x * y >= 0.0 && -(x * y) <= d <= x * y
  {
    ProductSign(x, y);
    SquareOfProduct(x, y, p, q);
    Magnitude(d, x * y);
  }

  // ---- Normalization ----

  function Scaled(v: Vector, r: real): (s: Vector)
    requires r != 0.0
    ensures |s| == |v|
  {
    seq(|v|, i requires 0 <= i < |v| => v[i] / r)
  }

  /** normalizeVector, with the root of the squared magnitude at hand. */
  function Normalize(v: Vector, r: real): (s: Vector)
    ensures |s| == |v|
  {
    if r == 0.0 then v else Scaled(v, r)
  }

  lemma ScaledEntry(a: Vector, r: real)
    requires a != [] && r != 0.0
    ensures r * Scaled(a, r)[|a| - 1] == a[|a| - 1]
    ensures Scaled(a, r)[..|a| - 1] == Scaled(a[..|a| - 1], r)
  {
    QuotientRule(a[|a| - 1], r);
  }

  lemma ScaledTerm(d: real, e: real, q: real, x: real, y: real, r: real)
    requires r * d == e && r * q == x
    ensures r * (d + q * y) == e + x * y
  {
    assert r * (q * y) == (r * q) * y;
  }

  lemma {:induction false} DotSymmetric(a: Vector, b: Vector)
    requires |a| == |b|
    ensures Dot(a, b) == Dot(b, a)
  {
    if a != [] { DotSymmetric(a[..|a| - 1], b[..|b| - 1]); }
  }

  lemma {:induction false} DotScaled(a: Vector, b: Vector, r: real)
    requires |a| == |b| && r != 0.0
    ensures r * Dot(Scaled(a, r), b) == Dot(a, b)
  {
    if a != [] {
      var k := |a| - 1;
      ScaledEntry(a, r);
      DotScaled(a[..k], b[..k], r);
      ScaledTerm(Dot(Scaled(a[..k], r), b[..k]), Dot(a[..k], b[..k]), Scaled(a, r)[k], a[k], b[k], r);
    }
  }

  /** From r^2 = r x and x = r y: y = 1. */
  lemma SelfQuotient(x: real, y: real, r: real, rr: real)
    requires r > 0.0 && r * r == rr && r * x == rr && r * y == x
    ensures y == 1.0
  {
    var s :| s == r;
    assert r * s == rr;
    Scale(r, x, s);
    Scale(r, y, 1.0);
  }

  lemma NormalizedLength(a: Vector, r: real)
    requires IsRoot(Dot(a, a), r) && r != 0.0
    ensures Dot(Scaled(a, r), Scaled(a, r)) == 1.0
  {
    var n := Scaled(a, r);
    DotScaled(a, a, r);
    DotScaled(a, n, r);
    DotSymmetric(a, n);
    SelfQuotient(Dot(a, n), Dot(n, n), r, Dot(a, a));
  }

  lemma RootOfOne(r: real)
    requires r >= 0.0 && r * r == 1.0
    ensures r == 1.0
  {
    var s :| s == r;
    assert r * s == 1.0;
    assert (r + 1.0) * (s - 1.0) == r * s - r + s - 1.0 == 0.0;
    SignOfFactor(r + 1.0, s - 1.0);
  }

  lemma SameQuotient(d: real, e: real, r: real, s: real)
    requires r > 0.0 && s > 0.0 && r * d == e
    ensures 1.0 * s != 0.0 && r * s != 0.0 && d / (1.0 * s) == e / (r * s)
  {
    var q, t := d / s, e / (r * s);
    Positive(r, s);
    QuotientRule(d, s);
    QuotientRule(e, r * s);
    assert (r * s) * q == r * (s * q);
    Scale(r * s, q, t);
  }

  /**
   * A normalized vector has length one, or is the zero vector it was before; and normalizing a vector
   * leaves its similarity to any other vector unchanged.
   */
  lemma NormalizeKeepsSimilarity(a: Vector, b: Vector, rootA: real, rootB: real, rootN: real)
    requires |a| == |b| && IsRoot(Dot(a, a), rootA) && IsRoot(Dot(b, b), rootB)
    requires IsRoot(Dot(Normalize(a, rootA), Normalize(a, rootA)), rootN)
    ensures rootA == 0.0 ==> Normalize(a, rootA) == a && forall i :: 0 <= i < |a| ==> a[i] == 0.0
    ensures rootA != 0.0 ==> rootN == 1.0
    ensures Similarity(Normalize(a, rootA), b, rootN, rootB) == Similarity(a, b, rootA, rootB)
  {
    if rootA == 0.0 {
      DotSelf(a);
      SquareZero(rootN);
    } else {
      NormalizedLength(a, rootA);
      RootOfOne(rootN);
      UnitSimilarity(a, b, rootA, rootB);
    }
  }

  lemma UnitSimilarity(a: Vector, b: Vector, rootA: real, rootB: real)
    requires |a| == |b| && rootA > 0.0 && rootB >= 0.0
    ensures Similarity(Scaled(a, rootA), b, 1.0, rootB) == Similarity(a, b, rootA, rootB)
  {
    if rootB > 0.0 {
      DotScaled(a, b, rootA);
      SameQuotient(Dot(Scaled(a, rootA), b), Dot(a, b), rootA, rootB);
    }
  }

  lemma OneQuotient(d: real)
    requires d != 0.0
    ensures d / d == 1.0
  {
  }

  /** A vector of nonzero length has similarity one with itself, the zero vector similarity zero with everything. */
  lemma SelfSimilarity(a: Vector, b: Vector, rootA: real, rootB: real)
    requires |a| == |b| && IsRoot(Dot(a, a), rootA) && IsRoot(Dot(b, b), rootB)
    ensures rootA != 0.0 ==> Similarity(a, a, rootA, rootA) == 1.0
    ensures rootA == 0.0 ==> Similarity(a, b, rootA, rootB) == 0.0 == Similarity(b, a, rootB, rootA)
    ensures Similarity(a, b, rootA, rootB) == Similarity(b, a, rootB, rootA)
  {
    if rootA != 0.0 {
      var square := PositiveSquare(rootA);
      OneQuotient(square);
    }
    DotSymmetric(a, b);
    assert rootA * rootB == rootB * rootA;
  }
}
