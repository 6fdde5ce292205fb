/**
 * The Wilson upper bound on a provider's fault rate, over exact reals: the square root is any
 * nonnegative number whose square is the radicand.
 */
module WilsonBound {
  import opened RealArithmetic

  function Square(x: real): real { x * x }

  /** The value under Math.sqrt. */
  function Radicand(f: nat, n: nat, z: real): real
    requires n > 0
  {
    var phat := f as real / n as real;
    phat * (1.0 - phat) / n as real + z * z / (4.0 * (n as real * n as real))
  }

  ghost predicate IsRoot(f: nat, n: nat, z: real, r: real) {
    n > 0 ==> r >= 0.0 && Square(r) == Radicand(f, n, z)
  }

  /** The quotient before `Math.min(1, ...)`. */
  function Quotient(f: nat, n: nat, z: real, r: real): real
    requires n > 0
  {
    var phat := f as real / n as real;
    var denominator := 1.0 + z * z / n as real;
    var centre := phat + z * z / (2.0 * n as real);
    Denominator(n, z);
    (centre + z * r) / denominator
  }

  lemma Denominator(n: nat, z: real)
    requires n > 0
    ensures 1.0 + z * z / n as real >= 1.0
  {
    assert z * z >= 0.0;
  }

  /** wilsonUpperBound with a root r at hand. */
  function WilsonUpperBound(f: nat, n: nat, z: real, r: real): real {
    if n == 0 then 1.0
    else if Quotient(f, n, z, r) > 1.0 then 1.0 else Quotient(f, n, z, r)
  }

  // ---- The score quadratic (1 + k) x^2 - (2p + k) x + p^2 with p = f/n and k = z^2/n ----

  function Score(p: real, k: real, x: real): real { (1.0 + k) * (x * x) - (2.0 * p + k) * x + p * p }

  /** Completing the square. */
  lemma ScoreSquare(p: real, k: real, x: real)
    ensures Square((1.0 + k) * x - (p + k / 2.0)) == (1.0 + k) * Score(p, k, x) + (k * (p * (1.0 - p)) + k * k / 4.0)
  {
    var d := 1.0 + k;
    var c := p + k / 2.0;
    assert Square(d * x - c) == d * d * (x * x) - 2.0 * (d * x) * c + c * c;
    assert 2.0 * c == 2.0 * p + k;
    assert d * ((2.0 * p + k) * x) == 2.0 * (d * x) * c;
    assert d * Score(p, k, x) == d * d * (x * x) - d * ((2.0 * p + k) * x) + d * (p * p);
    assert c * c == p * p + p * k + k * k / 4.0;
    assert d * (p * p) + k * (p * (1.0 - p)) == p * p + k * p;
  }

  ghost predicate IsUpperRoot(p: real, k: real, w: real, s: real) {
    && 0.0 <= p <= 1.0 && k > 0.0 && s >= 0.0
    && s * s == k * (p * (1.0 - p)) + k * k / 4.0
    && (1.0 + k) * w == p + k / 2.0 + s
  }

  /** Where the score is not positive, one is below the upper root. */
  lemma BelowRoot(p: real, k: real, w: real, s: real, y: real)
    requires IsUpperRoot(p, k, w, s) && Score(p, k, y) <= 0.0
    ensures y <= w
  {
    ScoreSquare(p, k, y);
    var a := (1.0 + k) * y - (p + k / 2.0);
    assert (1.0 + k) * Score(p, k, y) <= 0.0;
    SquareOrder(a, s);
    Scale(1.0 + k, y, w);
  }

  /** Where the score is not negative and one is right of the vertex, one is above the upper root. */
  lemma AboveRoot(p: real, k: real, w: real, s: real, y: real)
    requires IsUpperRoot(p, k, w, s) && Score(p, k, y) >= 0.0 && (1.0 + k) * y >= p + k / 2.0
    ensures w <= y
  {
    ScoreSquare(p, k, y);
    var a := (1.0 + k) * y - (p + k / 2.0);
    assert (1.0 + k) * Score(p, k, y) >= 0.0;
    SquareOrder(a, s);
    Scale(1.0 + k, w, y);
  }

  lemma RootScore(p: real, k: real, w: real, s: real)
    requires IsUpperRoot(p, k, w, s)
    ensures Score(p, k, w) == 0.0
  {
    ScoreSquare(p, k, w);
    assert Square(s) == s * s;
    assert (1.0 + k) * Score(p, k, w) == 0.0;
    Scale(1.0 + k, Score(p, k, w), 0.0);
  }

  lemma ScoreAtEnds(p: real, k: real, u: real)
    requires u == 1.0 - p
    ensures Score(p, k, p) == -(k * (p * u))
    ensures Score(p, k, 1.0) == u * u
  {
    assert u * u == 1.0 - 2.0 * p + p * p;
    assert p * u == p - p * p;
    assert k * (p - p * p) == k * p - k * (p * p);
  }

  lemma RootRange(p: real, k: real, w: real, s: real)
    requires IsUpperRoot(p, k, w, s)
    ensures p <= w <= 1.0
  {
    var u := 1.0 - p;
    ScoreAtEnds(p, k, u);
    ProductSign(p, u);
    ProductSign(k, p * u);
    ProductSign(u, u);
    BelowRoot(p, k, w, s, p);
    AboveRoot(p, k, w, s, 1.0);
  }

  // ---- The bound is that root ----

  function Phat(f: nat, n: nat): real
    requires n > 0
  {
    f as real / n as real
  }

  function Spread(n: nat, z: real): real
    requires n > 0
  {
    z * z / n as real
  }

  lemma SpreadSquare(f: nat, n: nat, z: real, r: real)
    requires f <= n && n > 0 && IsRoot(f, n, z, r)
    ensures (z * r) * (z * r) == Spread(n, z) * (Phat(f, n) * (1.0 - Phat(f, n))) + Spread(n, z) * Spread(n, z) / 4.0
  {
    var m, k, v := n as real, Spread(n, z), Phat(f, n) * (1.0 - Phat(f, n));
    var q := z * z / (4.0 * (m * m));
    QuotientRule(z * z, m);
    QuotientRule(v, m);
    QuotientRule(z * z, 4.0 * (m * m));
    assert z * z == m * k;
    assert m * (m * (4.0 * q)) == m * k;
    assert m * (4.0 * q) == k by { Scale(m, m * (4.0 * q), k); }
    assert (z * r) * (z * r) == (z * z) * (r * r) == (m * k) * (v / m + q);
    assert (m * k) * (v / m) == k * (m * (v / m)) == k * v;
    assert (m * k) * q == k * (m * q) == k * (k / 4.0) == k * k / 4.0;
    assert (m * k) * (v / m + q) == (m * k) * (v / m) + (m * k) * q;
  }

  /** p = f/m, k = z^2/m, and w is the upper root for them. */
  ghost predicate Bound(f: real, m: real, zz: real, p: real, k: real, w: real, s: real) {
    m > 0.0 && m * p == f && m * k == zz && IsUpperRoot(p, k, w, s)
  }

  lemma Halves(a: real, m: real)
    requires m > 0.0
    ensures a / (2.0 * m) == (a / m) / 2.0
  {
    var x, y := a / (2.0 * m), a / m;
    QuotientRule(a, 2.0 * m);
    QuotientRule(a, m);
    assert m * (2.0 * x) == m * y;
    Scale(m, 2.0 * x, y);
  }

  lemma PhatRange(f: real, m: real, p: real)
    requires 0.0 <= f <= m && m > 0.0 && m * p == f
    ensures 0.0 <= p <= 1.0
  {
    Scale(m, 0.0, p);
    Scale(m, p, 1.0);
  }

  lemma FactorPositive(m: real, k: real, zz: real)
    requires m > 0.0 && m * k == zz && zz > 0.0
    ensures k > 0.0
  {
    SignOfFactor(m, k);
  }

  lemma QuotientEquation(f: nat, n: nat, z: real, r: real)
    requires n > 0
    ensures (1.0 + Spread(n, z)) * Quotient(f, n, z, r) == Phat(f, n) + Spread(n, z) / 2.0 + z * r
  {
    Halves(z * z, n as real);
    Denominator(n, z);
    QuotientRule(Phat(f, n) + Spread(n, z) / 2.0 + z * r, 1.0 + Spread(n, z));
  }

  lemma QuotientIsRoot(f: nat, n: nat, z: real, r: real)
    requires f <= n && n > 0 && z > 0.0 && IsRoot(f, n, z, r)
    ensures Bound(f as real, n as real, z * z, Phat(f, n), Spread(n, z), Quotient(f, n, z, r), z * r)
  {
    QuotientRule(z * z, n as real);
    QuotientRule(f as real, n as real);
    var zz := PositiveSquare(z);
    FactorPositive(n as real, Spread(n, z), zz);
    PhatRange(f as real, n as real, Phat(f, n));
    ProductSign(z, r);
    SpreadSquare(f, n, z, r);
    QuotientEquation(f, n, z, r);
  }

  /** x solves the score equation n (x - f/n)^2 = z^2 x (1 - x). */
  ghost predicate Solves(f: nat, n: nat, z: real, x: real)
    requires n > 0
  {
    n as real * Square(x - Phat(f, n)) == z * z * (x * (1.0 - x))
  }

  lemma ScoreEquation(m: real, zz: real, p: real, k: real, x: real)
    requires m > 0.0 && m * k == zz
    ensures m * Score(p, k, x) == m * Square(x - p) - zz * (x * (1.0 - x))
    ensures Score(p, k, x) == 0.0 <==> m * Square(x - p) == zz * (x * (1.0 - x))
  {
    var v := x * (1.0 - x);
    assert Score(p, k, x) == Square(x - p) - k * v;
    assert m * (Square(x - p) - k * v) == m * Square(x - p) - m * (k * v);
    assert m * (k * v) == (m * k) * v;
    Scale(m, Score(p, k, x), 0.0);
  }

  lemma QuotientSolves(f: nat, n: nat, z: real, r: real)
    requires f <= n && n > 0 && z > 0.0 && IsRoot(f, n, z, r)
    ensures Solves(f, n, z, Quotient(f, n, z, r))
  {
    var p, k, w := Phat(f, n), Spread(n, z), Quotient(f, n, z, r);
    QuotientIsRoot(f, n, z, r);
    RootScore(p, k, w, z * r);
    ScoreEquation(n as real, z * z, p, k, w);
  }

  lemma SolutionBelow(f: nat, n: nat, z: real, r: real, x: real)
    requires f <= n && n > 0 && z > 0.0 && IsRoot(f, n, z, r) && Solves(f, n, z, x)
    ensures x <= Quotient(f, n, z, r)
  {
    var p, k := Phat(f, n), Spread(n, z);
    QuotientIsRoot(f, n, z, r);
    ScoreEquation(n as real, z * z, p, k, x);
    BelowRoot(p, k, Quotient(f, n, z, r), z * r, x);
  }

  /**
   * The bound solves the score equation, is its largest solution, and lies between the observed rate
   * and one, so the final minimum never bites.
   */
  lemma BoundIsUpperRoot(f: nat, n: nat, z: real, r: real)
    requires f <= n && n > 0 && z > 0.0 && IsRoot(f, n, z, r)
    ensures var w := WilsonUpperBound(f, n, z, r);
            && w == Quotient(f, n, z, r)
            && Phat(f, n) <= w <= 1.0
            && Solves(f, n, z, w)
            && forall x :: Solves(f, n, z, x) ==> x <= w
  {
    QuotientIsRoot(f, n, z, r);
    RootRange(Phat(f, n), Spread(n, z), Quotient(f, n, z, r), z * r);
    QuotientSolves(f, n, z, r);
    forall x | Solves(f, n, z, x) ensures x <= Quotient(f, n, z, r) { SolutionBelow(f, n, z, r, x); }
  }

  // ---- How the score moves when an observation is added ----

  lemma ScaledScore(f: real, m: real, zz: real, p: real, k: real, x: real)
    requires m > 0.0 && m * p == f && m * k == zz
    ensures m * Score(p, k, x) == m * (x * x) - 2.0 * (f * x) + f * p + zz * (x * x - x)
  {
    ScoreEquation(m, zz, p, k, x);
    assert Square(x - p) == x * x - 2.0 * (p * x) + p * p;
    assert m * (x * x - 2.0 * (p * x) + p * p) == m * (x * x) - 2.0 * (m * (p * x)) + m * (p * p);
    assert m * (p * x) == (m * p) * x && m * (p * p) == (m * p) * p;
    assert zz * (x * (1.0 - x)) == -(zz * (x * x - x));
  }

  /** The rate over one more call: (m + 1) p' = f = m p. */
  lemma SmallerShare(f: real, m: real, p: real, p': real)
    requires m > 0.0 && f >= 0.0 && m * p == f && (m + 1.0) * p' == f
    ensures 0.0 <= p' <= p
    ensures f * p - f * p' == p * p'
  {
    Scale(m, 0.0, p);
    Scale(m + 1.0, 0.0, p');
    assert (m + 1.0) * p == f + p;
    Scale(m + 1.0, p', p);
    assert ((m + 1.0) * p') * p == m * (p * p') + p * p' && (m * p) * p' == m * (p * p');
  }

  /** Multiplying the inequality (1 + k) w >= p + k/2 by m, and dividing by m again. */
  lemma VertexScaled(f: real, m: real, zz: real, p: real, k: real, w: real)
    requires m > 0.0 && m * p == f && m * k == zz
    ensures (1.0 + k) * w >= p + k / 2.0 <==> m * w + zz * w >= f + zz / 2.0
  {
    var a, b := p + k / 2.0, (1.0 + k) * w;
    assert m * a == m * p + (m * k) / 2.0;
    assert m * b == m * w + (m * k) * w;
    Scale(m, a, b);
  }

  lemma RightOfVertex(f: real, m: real, zz: real, p: real, k: real, p': real, k': real, w: real)
    requires m > 0.0 && m * p == f && m * k == zz && (m + 1.0) * p' == f && (m + 1.0) * k' == zz
    requires w >= 0.0 && (1.0 + k) * w >= p + k / 2.0
    ensures (1.0 + k') * w >= p' + k' / 2.0
  {
    VertexScaled(f, m, zz, p, k, w);
    VertexScaled(f, m + 1.0, zz, p', k', w);
    assert (m + 1.0) * w == m * w + w;
  }

  lemma CleanScore(f: real, m: real, zz: real, p: real, k: real, p': real, k': real, w: real)
    requires m > 0.0 && m * p == f && m * k == zz && (m + 1.0) * p' == f && (m + 1.0) * k' == zz
    ensures (m + 1.0) * Score(p', k', w) == m * Score(p, k, w) + w * w + (f * p' - f * p)
  {
    ScaledScore(f, m, zz, p, k, w);
    ScaledScore(f, m + 1.0, zz, p', k', w);
    assert (m + 1.0) * (w * w) == m * (w * w) + w * w;
  }

  lemma CleanNotNegative(f: real, m: real, zz: real, p: real, k: real, p': real, k': real, w: real)
    requires m > 0.0 && m * p == f && m * k == zz && (m + 1.0) * p' == f && (m + 1.0) * k' == zz
    requires f >= 0.0 && Score(p, k, w) == 0.0 && w >= p
    ensures Score(p', k', w) >= 0.0
  {
    SmallerShare(f, m, p, p');
    ProductOrder(p, w, p', w);
    CleanScore(f, m, zz, p, k, p', k', w);
    assert m * Score(p, k, w) == 0.0;
    SignOfFactor(m + 1.0, Score(p', k', w));
  }

  lemma CleanStep(f: real, m: real, zz: real, p: real, k: real, w: real, s: real, p': real, k': real, w': real, s': real)
    requires Bound(f, m, zz, p, k, w, s) && Bound(f, m + 1.0, zz, p', k', w', s') && f >= 0.0
    ensures w' <= w
  {
    RootRange(p, k, w, s);
    RootScore(p, k, w, s);
    CleanNotNegative(f, m, zz, p, k, p', k', w);
    RightOfVertex(f, m, zz, p, k, p', k', w);
    AboveRoot(p', k', w', s', w);
  }

  /** With one more fault the clean calls g = m - f stay: m (1 - p) = (m + 1) (1 - p'). */
  lemma FaultTerm(f: real, m: real, p: real, p': real)
    requires m > 0.0 && 0.0 <= f <= m && m * p == f && (m + 1.0) * p' == f + 1.0
    ensures (f + 1.0) * p' - f * p == 1.0 - (1.0 - p) * (1.0 - p')
    ensures 0.0 <= 1.0 - p' <= 1.0 - p
  {
    var u, u' := 1.0 - p, 1.0 - p';
    SmallerShare(m - f, m, u, u');
    assert (f + 1.0) * p' - f * p == (f + 1.0) * (1.0 - u') - f * (1.0 - u);
    assert (m - f) * u - (m - f) * u' == u * u';
    assert m * u == m - f && (m + 1.0) * u' == m - f;
  }

  /** The scaled score with one more fault, from the one without. */
  lemma FaultScore(f: real, m: real, zz: real, p: real, k: real, p': real, k': real, w: real)
    requires m > 0.0 && m * p == f && m * k == zz && (m + 1.0) * p' == f + 1.0 && (m + 1.0) * k' == zz
    ensures (m + 1.0) * Score(p', k', w) == m * Score(p, k, w) + w * w - 2.0 * w + ((f + 1.0) * p' - f * p)
  {
    ScaledScore(f, m, zz, p, k, w);
    ScaledScore(f + 1.0, m + 1.0, zz, p', k', w);
    assert (m + 1.0) * (w * w) == m * (w * w) + w * w && (f + 1.0) * w == f * w + w;
  }

  lemma FaultNotPositive(f: real, m: real, zz: real, p: real, k: real, p': real, k': real, w: real)
    requires m > 0.0 && m * p == f && m * k == zz && (m + 1.0) * p' == f + 1.0 && (m + 1.0) * k' == zz
    requires 0.0 <= f <= m && Score(p, k, w) == 0.0 && p <= w <= 1.0 && w > p'
    ensures Score(p', k', w) <= 0.0
  {
    FaultTerm(f, m, p, p');
    ProductOrder(1.0 - w, 1.0 - p, 1.0 - w, 1.0 - p');
    FaultScore(f, m, zz, p, k, p', k', w);
    assert (1.0 - w) * (1.0 - w) == 1.0 - 2.0 * w + w * w;
    assert m * Score(p, k, w) == 0.0;
    SignOfFactor(m + 1.0, Score(p', k', w));
  }

  lemma FaultStep(f: real, m: real, zz: real, p: real, k: real, w: real, s: real, p': real, k': real, w': real, s': real)
    requires Bound(f, m, zz, p, k, w, s) && Bound(f + 1.0, m + 1.0, zz, p', k', w', s') && 0.0 <= f <= m
    ensures w <= w'
  {
    RootRange(p, k, w, s);
    RootRange(p', k', w', s');
    if w > p' {
      RootScore(p, k, w, s);
      FaultNotPositive(f, m, zz, p, k, p', k', w);
      BelowRoot(p', k', w', s', w);
    }
  }

  lemma ReclassifiedScore(f: real, m: real, zz: real, p: real, k: real, p': real, k': real, w: real)
    requires m > 0.0 && m * p == f && m * k == zz && m * p' == f + 1.0 && m * k' == zz
    ensures m * Score(p', k', w) == m * Score(p, k, w) - 2.0 * w + (p + p')
  {
    ScaledScore(f, m, zz, p, k, w);
    ScaledScore(f + 1.0, m, zz, p', k', w);
    assert (f + 1.0) * w == f * w + w;
    assert (f + 1.0) * p == (m * p') * p && f * p' == (m * p) * p';
    assert (m * p') * p == (m * p) * p';
  }

  lemma ReclassifiedNotPositive(f: real, m: real, zz: real, p: real, k: real, p': real, k': real, w: real)
    requires m > 0.0 && m * p == f && m * k == zz && m * p' == f + 1.0 && m * k' == zz
    requires Score(p, k, w) == 0.0 && w > p'
    ensures Score(p', k', w) <= 0.0
  {
    Scale(m, p, p');
    ReclassifiedScore(f, m, zz, p, k, p', k', w);
    assert m * Score(p, k, w) == 0.0;
    SignOfFactor(m, Score(p', k', w));
  }

  lemma ReclassifiedStep(f: real, m: real, zz: real, p: real, k: real, w: real, s: real, p': real, k': real, w': real, s': real)
    requires Bound(f, m, zz, p, k, w, s) && Bound(f + 1.0, m, zz, p', k', w', s')
    ensures w <= w'
  {
    RootRange(p', k', w', s');
    if w > p' {
      RootScore(p, k, w, s);
      ReclassifiedNotPositive(f, m, zz, p, k, p', k', w);
      BelowRoot(p', k', w', s', w);
    }
  }

  /** One more clean call never raises the bound. */
  lemma CleanNeverRaises(f: nat, n: nat, z: real, r: real, r': real)
    requires f <= n && z > 0.0 && IsRoot(f, n, z, r) && IsRoot(f, n + 1, z, r')
    ensures WilsonUpperBound(f, n + 1, z, r') <= WilsonUpperBound(f, n, z, r)
  {
    BoundIsUpperRoot(f, n + 1, z, r');
    if n > 0 {
      BoundIsUpperRoot(f, n, z, r);
      QuotientIsRoot(f, n, z, r);
      QuotientIsRoot(f, n + 1, z, r');
      assert (n + 1) as real == n as real + 1.0;
      CleanStep(f as real, n as real, z * z, Phat(f, n), Spread(n, z), Quotient(f, n, z, r), z * r,
                Phat(f, n + 1), Spread(n + 1, z), Quotient(f, n + 1, z, r'), z * r');
    }
  }

  /** One more call that is a fault never lowers the bound. */
  lemma FaultNeverLowers(f: nat, n: nat, z: real, r: real, r': real)
    requires f <= n && z > 0.0 && IsRoot(f, n, z, r) && IsRoot(f + 1, n + 1, z, r')
    ensures WilsonUpperBound(f, n, z, r) <= WilsonUpperBound(f + 1, n + 1, z, r')
  {
    BoundIsUpperRoot(f + 1, n + 1, z, r');
    if n == 0 {
      assert Phat(1, 1) == 1.0;
    } else {
      BoundIsUpperRoot(f, n, z, r);
      QuotientIsRoot(f, n, z, r);
      QuotientIsRoot(f + 1, n + 1, z, r');
      assert (n + 1) as real == n as real + 1.0 && (f + 1) as real == f as real + 1.0;
      FaultStep(f as real, n as real, z * z, Phat(f, n), Spread(n, z), Quotient(f, n, z, r), z * r,
                Phat(f + 1, n + 1), Spread(n + 1, z), Quotient(f + 1, n + 1, z, r'), z * r');
    }
  }

  /** A clean call that turns out to be a fault never lowers the bound either. */
  lemma ReclassifiedNeverLowers(f: nat, n: nat, z: real, r: real, r': real)
    requires f < n && z > 0.0 && IsRoot(f, n, z, r) && IsRoot(f + 1, n, z, r')
    ensures WilsonUpperBound(f, n, z, r) <= WilsonUpperBound(f + 1, n, z, r')
  {
    BoundIsUpperRoot(f, n, z, r);
    BoundIsUpperRoot(f + 1, n, z, r');
    QuotientIsRoot(f, n, z, r);
    QuotientIsRoot(f + 1, n, z, r');
    assert (f + 1) as real == f as real + 1.0;
    ReclassifiedStep(f as real, n as real, z * z, Phat(f, n), Spread(n, z), Quotient(f, n, z, r), z * r,
                     Phat(f + 1, n), Spread(n, z), Quotient(f + 1, n, z, r'), z * r');
  }
}
