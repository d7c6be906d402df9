/** The twisted Edwards curve -x^2 + y^2 = 1 + d x^2 y^2 over the residues modulo a prime: the affine addition law is
    total, closed, commutative and associative, with identity (0, 1) and inverse (-x, y). The affine law is the
    reference definition that the extended-coordinate code is proved against. */
module Edwards {
  import opened Modular
  import opened Fermat

  type Modulus = p: int | p >= 2 witness 2

  datatype Affine = Affine(x: int, y: int)

  datatype Curve = Curve(p: Modulus, d: int)

  ghost predicate IsRoot(w: int, d: int, p: int)
    requires p > 0
  {
    Zero(w * w - d, p)
  }

  /** What is assumed of the field and of the curve constant. */
  ghost predicate Complete(c: Curve) {
    Prime(c.p) && c.p % 8 == 5 && forall w :: !IsRoot(w, c.d, c.p)
  }

  /** The curve equation. */
  ghost predicate Satisfies(c: Curve, x: int, y: int) {
    Zero(y * y - x * x - (1 + c.d * (x * y) * (x * y)), c.p)
  }

  ghost predicate On(c: Curve, a: Affine) {
    0 <= a.x < c.p && 0 <= a.y < c.p && Satisfies(c, a.x, a.y)
  }

  const Neutral := Affine(0, 1)

  /** d x1 x2 y1 y2, the quantity both denominators of the addition law are built from. */
  function Cross(c: Curve, a: Affine, b: Affine): int {
    c.d * (a.x * a.y) * (b.x * b.y)
  }

  function NumX(a: Affine, b: Affine): int {
    a.x * b.y + b.x * a.y
  }

  function NumY(a: Affine, b: Affine): int {
    a.y * b.y + a.x * b.x
  }

  /** The affine addition law of section 5.1.4 of RFC 8032. */
  function Sum(c: Curve, a: Affine, b: Affine): Affine {
    Affine(NumX(a, b) * Inv(1 + Cross(c, a, b), c.p) % c.p,
           NumY(a, b) * Inv(1 - Cross(c, a, b), c.p) % c.p)
  }

  function Negate(c: Curve, a: Affine): Affine {
    Affine(-a.x % c.p, a.y)
  }

  // ---- the denominators never vanish ----

  /** d is not a ratio of two squares. */
  lemma NoSquareRatio(c: Curve, n: int, m: int)
    requires Complete(c) && Zero(n * n - c.d * (m * m), c.p)
    ensures Zero(m, c.p)
  {
    hide Zero;
    var p := c.p;
    if !Zero(m, p) {
      var i := Inv(m, p);
      InverseCorrect(m, p);
      Scale(i * i, n * n - c.d * (m * m), p);
      Product(m * i, 1, m * i, 1, p);
      RatioIdentity(n, m, c.d, i);
      Combine(1, (i * i) * (n * n - c.d * (m * m)), c.d, (m * i) * (m * i) - 1 * 1, p);
      var w := n * i;
      if IsRoot(w, c.d, p) {
        assert false;
      }
    }
  }

  lemma RatioIdentity(n: int, m: int, d: int, i: int)
    ensures 1 * ((i * i) * (n * n - d * (m * m))) + d * ((m * i) * (m * i) - 1 * 1) == (n * i) * (n * i) - d
  {
    assert (i * i) * (n * n) == (n * i) * (n * i);
    assert (i * i) * (d * (m * m)) == d * ((m * i) * (m * i));
  }

  /** If d x1 x2 y1 y2 were e = 1 or -1, then (j x1 + e y1)^2 would be d (x1 y1 (y2 + j x2))^2 for every root j of -1. */
  lemma PoleSquares(c: Curve, a: Affine, b: Affine, e: int, j: int)
    requires On(c, a) && On(c, b) && e * e == 1
    requires Zero(Cross(c, a, b) - e, c.p) && Zero(j * j + 1, c.p)
    ensures var n, m := j * a.x + e * a.y, (a.x * a.y) * (b.y + j * b.x);
            Zero(n * n - c.d * (m * m), c.p)
  {
    hide Zero;
    var p, d := c.p, c.d;
    var m1, m2, k := a.x * a.y, b.x * b.y, Cross(c, a, b);
    var n, t := j * a.x + e * a.y, b.y + j * b.x;
    LineSquareOn(p, d, a.x, a.y, j, e);
    LineSquareOn(p, d, b.x, b.y, j, 1);
    assert j * b.x + 1 * b.y == t;
    var u, v := n * n - (1 + d * m1 * m1 + 2 * j * e * m1), t * t - (1 + d * m2 * m2 + 2 * j * 1 * m2);
    PoleCombine(p, u, v, d * m1 * m1, k + e + 2 * j * m1, k - e);
    PoleIdentity(n * n, d, m1, m2, j, e, t, k);
  }

  lemma PoleCombine(p: int, u: int, v: int, f: int, g: int, w: int)
    requires p > 0 && Zero(u, p) && Zero(v, p) && Zero(w, p)
    ensures Zero(1 * u + -1 * (f * v) - g * w, p)
  {
    hide Zero;
    Scale(f, v, p);
    Combine(1, u, -1, f * v, p);
    Combine(1, 1 * u + -1 * (f * v), -g, w, p);
  }

  /** On the curve, (j x + e y)^2 is 1 + d x^2 y^2 + 2 j e x y when j is a root of -1. */
  lemma LineSquareOn(p: int, d: int, x: int, y: int, j: int, e: int)
    requires p > 0 && e * e == 1 && Zero(j * j + 1, p) && Zero(y * y - x * x - (1 + d * (x * y) * (x * y)), p)
    ensures var n, m := j * x + e * y, x * y; Zero(n * n - (1 + d * m * m + 2 * j * e * m), p)
  {
    var m := x * y;
    LineSquare(j, x, e, y);
    Combine(1, y * y - x * x - (1 + d * m * m), x * x, j * j + 1, p);
    assert x * x * (j * j + 1) == (j * j) * (x * x) + x * x;
  }

  lemma LineSquare(j: int, x: int, e: int, y: int)
    requires e * e == 1
    ensures (j * x + e * y) * (j * x + e * y) == y * y + (j * j) * (x * x) + 2 * j * e * (x * y)
  {
    assert (e * y) * (e * y) == (e * e) * (y * y);
    assert (j * x) * (e * y) == j * e * (x * y);
    assert (j * x) * (j * x) == (j * j) * (x * x);
  }

  lemma PoleIdentity(n2: int, d: int, m1: int, m2: int, j: int, e: int, t: int, k: int)
    requires e * e == 1 && k == d * m1 * m2
    ensures 1 * (n2 - (1 + d * m1 * m1 + 2 * j * e * m1)) + -1 * ((d * m1 * m1) * (t * t - (1 + d * m2 * m2 + 2 * j * 1 * m2)))
            - (k + e + 2 * j * m1) * (k - e) == n2 - d * ((m1 * t) * (m1 * t))
  {
    ScaledSquares(d, m1, m2);
    ScaledCross(d, m1, m2, j);
    ScaledTerm(d, m1, t);
    DifferenceOfSquares(k, e, j, m1);
    Distribute(d * m1 * m1, t * t, 1, d * m2 * m2, 2 * j * 1 * m2);
  }

  lemma ScaledSquares(d: int, m1: int, m2: int)
    ensures (d * m1 * m1) * (d * m2 * m2) == (d * m1 * m2) * (d * m1 * m2)
  {
  }

  lemma ScaledCross(d: int, m1: int, m2: int, j: int)
    ensures (d * m1 * m1) * (2 * j * 1 * m2) == 2 * j * m1 * (d * m1 * m2)
  {
  }

  lemma ScaledTerm(d: int, m: int, t: int)
    ensures (d * m * m) * (t * t) == d * ((m * t) * (m * t))
  {
  }

  lemma DifferenceOfSquares(k: int, e: int, j: int, m: int)
    ensures (k + e + 2 * j * m) * (k - e) == k * k - e * e + 2 * j * m * k - 2 * j * e * m
  {
  }

  lemma Distribute(f: int, a: int, b: int, c: int, e: int)
    ensures f * (a - (b + c + e)) == f * a - f * b - f * c - f * e
  {
  }

  /** d x1 x2 y1 y2 is neither 1 nor -1, so the addition law has no exceptional case. */
  lemma NoPole(c: Curve, a: Affine, b: Affine, e: int)
    requires Complete(c) && On(c, a) && On(c, b) && (e == 1 || e == -1)
    ensures !Zero(Cross(c, a, b) - e, c.p)
  {
    hide Zero;
    var p, k := c.p, Cross(c, a, b);
    if Zero(k - e, p) {
      var j := SqrtM1(p);
      var m1 := a.x * a.y;
      SqrtM1Correct(p);
      assert (-j) * (-j) == j * j;
      PoleSquares(c, a, b, e, j);
      NoSquareRatio(c, j * a.x + e * a.y, m1 * (b.y + j * b.x));
      PoleSquares(c, a, b, e, -j);
      NoSquareRatio(c, -j * a.x + e * a.y, m1 * (b.y + -j * b.x));
      Combine(c.d * b.x, m1 * (b.y + j * b.x), c.d * b.x, m1 * (b.y + -j * b.x), p);
      TwiceCross(c.d, m1, b.x, b.y, j);
      Combine(1, 2 * k, -2, k - e, p);
      Small(2 * e, p);
    }
  }

  lemma TwiceCross(d: int, m1: int, x: int, y: int, j: int)
    ensures d * x * (m1 * (y + j * x)) + d * x * (m1 * (y + -j * x)) == 2 * (d * m1 * (x * y))
  {
    assert m1 * (y + j * x) + m1 * (y + -j * x) == 2 * (m1 * y);
    assert d * x * (m1 * (y + j * x)) + d * x * (m1 * (y + -j * x)) == d * x * (2 * (m1 * y));
  }

  /** The two coordinates of a sum are the solutions of the addition law's two linear equations. */
  lemma SumSolves(c: Curve, a: Affine, b: Affine)
    requires Complete(c) && On(c, a) && On(c, b)
    ensures var s, k := Sum(c, a, b), Cross(c, a, b);
            && !Zero(1 + k, c.p) && !Zero(1 - k, c.p)
            && Zero((1 + k) * s.x - NumX(a, b), c.p)
            && Zero((1 - k) * s.y - NumY(a, b), c.p)
            && 0 <= s.x < c.p && 0 <= s.y < c.p
  {
    hide Zero, Pow, Inv;
    var p, k := c.p, Cross(c, a, b);
    NoPole(c, a, b, 1);
    NoPole(c, a, b, -1);
    if Zero(1 - k, p) {
      Replace(1, k, p);
    }
    Quotient(NumX(a, b), 1 + k, p);
    Quotient(NumY(a, b), 1 - k, p);
  }

  /** n * _inv(u) % P solves u * x = n. */
  lemma Quotient(n: int, u: int, p: int)
    requires Prime(p) && !Zero(u, p)
    ensures Zero(u * (n * Inv(u, p) % p) - n, p)
    ensures 0 <= n * Inv(u, p) % p < p
  {
    var i := Inv(u, p);
    InverseCorrect(u, p);
    Residue(n * i, p);
    Scale(u, n * i % p - n * i, p);
    Scale(n, u * i - 1, p);
    Combine(1, u * (n * i % p - n * i), 1, n * (u * i - 1), p);
    QuotientIdentity(u, n * i % p, n, i);
  }

  lemma QuotientIdentity(u: int, r: int, n: int, i: int)
    ensures 1 * (u * (r - n * i)) + 1 * (n * (u * i - 1)) == u * r - n
  {
    assert u * (n * i) == n * (u * i);
  }

  /** The solution is unique among canonical residues. */
  lemma SameQuotient(u: int, x: int, y: int, n: int, p: int)
    requires Prime(p) && !Zero(u, p) && 0 <= x < p && 0 <= y < p
    requires Zero(u * x - n, p) && Zero(u * y - n, p)
    ensures x == y
  {
    Combine(1, u * x - n, -1, u * y - n, p);
    Cancel(u, x, y, p);
    Canonical(x, y, p);
  }

  // ---- closure ----

  /** The curve equation of a sum, with both denominators cleared. */
  lemma ClosureCore(p: int, d: int, x1: int, y1: int, x2: int, y2: int)
    requires p > 0
    requires Zero(y1 * y1 - x1 * x1 - (1 + d * (x1 * y1) * (x1 * y1)), p)
    requires Zero(y2 * y2 - x2 * x2 - (1 + d * (x2 * y2) * (x2 * y2)), p)
    ensures var nx, ny, k := x1 * y2 + x2 * y1, y1 * y2 + x1 * x2, d * (x1 * y1) * (x2 * y2);
            Zero((1 + k) * (1 + k) * (ny * ny) - (1 - k) * (1 - k) * (nx * nx)
                 - ((1 + k) * (1 - k)) * ((1 + k) * (1 - k)) - d * ((nx * ny) * (nx * ny)), p)
  {
    hide Zero;
    var nx, ny := x1 * y2 + x2 * y1, y1 * y2 + x1 * x2;
    var m1, m2 := x1 * y1, x2 * y2;
    var k := d * m1 * m2;
    var f1, f2, s1, s2 := y1 * y1 - x1 * x1, y2 * y2 - x2 * x2, y1 * y1 + x1 * x1, y2 * y2 + x2 * x2;
    var g1, g2 := 1 + d * m1 * m1, 1 + d * m2 * m2;
    NumeratorProducts(x1, y1, x2, y2);
    SumOfSquares(x1, y1);
    SumOfSquares(x2, y2);
    ClosureRegroup(nx * nx, ny * ny, nx * ny, k, d, m1, m2, f1, f2, s1, s2);
    Product(f1, g1, f2, g2, p);
    Product(f1, g1, f1, g1, p);
    Product(f2, g2, f2, g2, p);
    Combine(1 + k * k, f1 * f2 - g1 * g2, -(d * m1 * m1), f2 * f2 - g2 * g2, p);
    Combine(1, (1 + k * k) * (f1 * f2 - g1 * g2) + -(d * m1 * m1) * (f2 * f2 - g2 * g2), -(d * m2 * m2), f1 * f1 - g1 * g1, p);
    CrossSquare(d, m1, m2);
    ClosureVanishes(d * m1 * m1, d * m2 * m2);
    ClosureCollect(k * k, f1 * f2, g1 * g2, f1 * f1, g1 * g1, f2 * f2, g2 * g2, d * m1 * m1, d * m2 * m2);
  }

  lemma CrossSquare(d: int, m1: int, m2: int)
    ensures (d * m1 * m2) * (d * m1 * m2) == (d * m1 * m1) * (d * m2 * m2)
  {
    assert (d * m1) * m2 * ((d * m1) * m2) == (d * m1) * (d * m1) * (m2 * m2);
    assert (d * m1 * m1) * (d * m2 * m2) == (d * d) * (m1 * m1) * (m2 * m2);
    assert (d * m1) * (d * m1) == (d * d) * (m1 * m1);
  }

  lemma NumeratorProducts(x1: int, y1: int, x2: int, y2: int)
    ensures var nx, ny := x1 * y2 + x2 * y1, y1 * y2 + x1 * x2;
            && nx * ny == (x1 * y1) * (y2 * y2 + x2 * x2) + (x2 * y2) * (y1 * y1 + x1 * x1)
            && ny * ny - nx * nx == (y1 * y1 - x1 * x1) * (y2 * y2 - x2 * x2)
            && ny * ny + nx * nx == (y1 * y1 + x1 * x1) * (y2 * y2 + x2 * x2) + 4 * ((x1 * y1) * (x2 * y2))
  {
  }

  lemma SumOfSquares(x: int, y: int)
    ensures (y * y + x * x) * (y * y + x * x) == (y * y - x * x) * (y * y - x * x) + 4 * ((x * y) * (x * y))
  {
  }

  lemma ClosureRegroup(a: int, b: int, cc: int, k: int, d: int, m1: int, m2: int, f1: int, f2: int, s1: int, s2: int)
    requires k == d * m1 * m2 && cc == m1 * s2 + m2 * s1
    requires b - a == f1 * f2 && b + a == s1 * s2 + 4 * (m1 * m2)
    requires s1 * s1 == f1 * f1 + 4 * (m1 * m1) && s2 * s2 == f2 * f2 + 4 * (m2 * m2)
    ensures (1 + k) * (1 + k) * b - (1 - k) * (1 - k) * a - ((1 + k) * (1 - k)) * ((1 + k) * (1 - k)) - d * (cc * cc)
            == (1 + k * k) * (f1 * f2) - (1 - k * k) * (1 - k * k) - (d * m1 * m1) * (f2 * f2) - (d * m2 * m2) * (f1 * f1)
  {
    WeightedSquares(k, a, b);
    DoubledSum(d, m1, m2, s1, s2, k);
    SquaredProduct(d, m1, m2, s1, s2, cc);
    assert (d * m1 * m1) * (s2 * s2) == (d * m1 * m1) * (f2 * f2) + 4 * ((d * m1 * m1) * (m2 * m2)) by {
      ReplaceSquare(d * m1 * m1, s2, f2, m2);
    }
    assert (d * m2 * m2) * (s1 * s1) == (d * m2 * m2) * (f1 * f1) + 4 * ((d * m2 * m2) * (m1 * m1)) by {
      ReplaceSquare(d * m2 * m2, s1, f1, m1);
    }
    ScaledTerm(d, m1, m2);
    ScaledTerm(d, m2, m1);
    assert m1 * m2 == m2 * m1;
  }

  lemma WeightedSquares(k: int, a: int, b: int)
    ensures (1 + k) * (1 + k) * b - (1 - k) * (1 - k) * a == (1 + k * k) * (b - a) + 2 * k * (b + a)
    ensures (1 + k) * (1 - k) == 1 - k * k
  {
  }

  lemma DoubledSum(d: int, m1: int, m2: int, s1: int, s2: int, k: int)
    requires k == d * m1 * m2
    ensures 2 * k * (s1 * s2 + 4 * (m1 * m2)) == 2 * (d * ((m1 * m2) * (s1 * s2))) + 8 * (d * ((m1 * m2) * (m1 * m2)))
  {
    var m := m1 * m2;
    assert k == d * m;
    DoubledSumCore(d, m, s1 * s2);
  }

  lemma DoubledSumCore(d: int, m: int, s: int)
    ensures 2 * (d * m) * (s + 4 * m) == 2 * (d * (m * s)) + 8 * (d * (m * m))
  {
  }

  lemma SquaredProduct(d: int, m1: int, m2: int, s1: int, s2: int, cc: int)
    requires cc == m1 * s2 + m2 * s1
    ensures d * (cc * cc) == (d * m1 * m1) * (s2 * s2) + (d * m2 * m2) * (s1 * s1) + 2 * (d * ((m1 * m2) * (s1 * s2)))
  {
    var u, v := m1 * s2, m2 * s1;
    assert cc * cc == u * u + v * v + 2 * (u * v);
    ScaledTerm(d, m1, s2);
    ScaledTerm(d, m2, s1);
    assert u * v == (m1 * m2) * (s1 * s2) by { Reorder(m1, s2, m2, s1); }
    DistributeSum(d, u * u, v * v, u * v);
  }

  lemma Reorder(a: int, b: int, c: int, e: int)
    ensures (a * b) * (c * e) == (a * c) * (e * b)
  {
  }

  lemma DistributeSum(d: int, a: int, b: int, c: int)
    ensures d * (a + b + 2 * c) == d * a + d * b + 2 * (d * c)
  {
  }

  lemma ReplaceSquare(w: int, s: int, f: int, m: int)
    requires s * s == f * f + 4 * (m * m)
    ensures w * (s * s) == w * (f * f) + 4 * (w * (m * m))
  {
  }

  lemma ClosureVanishes(a: int, b: int)
    ensures (1 + a * b) * ((1 + a) * (1 + b)) - (1 - a * b) * (1 - a * b) - a * ((1 + b) * (1 + b)) - b * ((1 + a) * (1 + a)) == 0
  {
    var w := a * b;
    assert (1 + a) * (1 + b) == 1 + a + b + w;
    assert (1 + w) * (1 + a + b + w) == 1 + a + b + 2 * w + w * a + w * b + w * w;
    assert a * ((1 + b) * (1 + b)) == a + 2 * w + w * b;
    assert b * ((1 + a) * (1 + a)) == b + 2 * w + w * a;
  }

  lemma ClosureCollect(kk: int, f12: int, g12: int, f11: int, g11: int, f22: int, g22: int, a: int, b: int)
    requires (1 + kk) * g12 - (1 - kk) * (1 - kk) - a * g22 - b * g11 == 0
    ensures 1 * ((1 + kk) * (f12 - g12) + -a * (f22 - g22)) + -b * (f11 - g11)
            == (1 + kk) * f12 - (1 - kk) * (1 - kk) - a * f22 - b * f11
  {
  }

  /** The curve is closed under the addition law. */
  lemma SumOn(c: Curve, a: Affine, b: Affine)
    requires Complete(c) && On(c, a) && On(c, b)
    ensures On(c, Sum(c, a, b))
  {
    hide Zero;
    var p, d, k, s := c.p, c.d, Cross(c, a, b), Sum(c, a, b);
    var u, v, nx, ny := 1 + k, 1 - k, NumX(a, b), NumY(a, b);
    SumSolves(c, a, b);
    ClosureCore(p, d, a.x, a.y, b.x, b.y);
    ClearedEquation(p, d, s.x, s.y, u, v, nx, ny);
    var e := s.y * s.y - s.x * s.x - (1 + d * (s.x * s.y) * (s.x * s.y));
    NonzeroProduct(u, v, p);
    NonzeroProduct(u * v, u * v, p);
    Euclid((u * v) * (u * v), e, p);
  }

  lemma ClearedEquation(p: int, d: int, x: int, y: int, u: int, v: int, nx: int, ny: int)
    requires p > 0 && Zero(u * x - nx, p) && Zero(v * y - ny, p)
    requires Zero(u * u * (ny * ny) - v * v * (nx * nx) - (u * v) * (u * v) - d * ((nx * ny) * (nx * ny)), p)
    ensures Zero(((u * v) * (u * v)) * (y * y - x * x - (1 + d * (x * y) * (x * y))), p)
  {
    hide Zero;
    Product(u * x, nx, u * x, nx, p);
    Product(v * y, ny, v * y, ny, p);
    Product(u * x, nx, v * y, ny, p);
    var xy := (u * x) * (v * y);
    Product(xy, nx * ny, xy, nx * ny, p);
    var ex, ey, exy := (u * x) * (u * x) - nx * nx, (v * y) * (v * y) - ny * ny, xy * xy - (nx * ny) * (nx * ny);
    Combine(u * u, ey, -(v * v), ex, p);
    Combine(1, (u * u) * ey + -(v * v) * ex, -d, exy, p);
    var all := 1 * ((u * u) * ey + -(v * v) * ex) + -d * exy;
    var core := u * u * (ny * ny) - v * v * (nx * nx) - (u * v) * (u * v) - d * ((nx * ny) * (nx * ny));
    Combine(1, all, 1, core, p);
    ClearedIdentity(d, x, y, u, v);
    ClearedCollect(u * u, v * v, (u * x) * (u * x), (v * y) * (v * y), nx * nx, ny * ny, xy * xy, (nx * ny) * (nx * ny), d, (u * v) * (u * v));
  }

  lemma ClearedIdentity(d: int, x: int, y: int, u: int, v: int)
    ensures ((u * v) * (u * v)) * (y * y - x * x - (1 + d * (x * y) * (x * y)))
            == u * u * ((v * y) * (v * y)) - v * v * ((u * x) * (u * x)) - (u * v) * (u * v)
               - d * (((u * x) * (v * y)) * ((u * x) * (v * y)))
  {
    var w, m := (u * v) * (u * v), x * y;
    SquareOut(u, v, y);
    SquareOut(v, u, x);
    assert v * u == u * v;
    assert (u * x) * (v * y) == (u * v) * m by { Reorder(u, x, v, y); }
    SquareScaled(d, u * v, m);
    Distribute(w, y * y - x * x, 1, d * m * m, 0);
    assert w * (y * y - x * x) == w * (y * y) - w * (x * x);
  }

  lemma SquareOut(u: int, v: int, y: int)
    ensures u * u * ((v * y) * (v * y)) == ((u * v) * (u * v)) * (y * y)
  {
  }

  lemma SquareScaled(d: int, w: int, m: int)
    ensures d * ((w * m) * (w * m)) == (w * w) * (d * m * m)
  {
  }

  lemma ClearedCollect(uu: int, vv: int, ux: int, vy: int, nx: int, ny: int, xy: int, nn: int, d: int, w: int)
    ensures 1 * (1 * (uu * (vy - ny) + -vv * (ux - nx)) + -d * (xy - nn)) + 1 * (uu * ny - vv * nx - w - d * nn)
            == uu * vy - vv * ux - w - d * xy
  {
  }

  // ---- commutativity, identity, inverse ----

  lemma SumCommutes(c: Curve, a: Affine, b: Affine)
    ensures Sum(c, a, b) == Sum(c, b, a)
  {
    assert c.d * (a.x * a.y) * (b.x * b.y) == c.d * (b.x * b.y) * (a.x * a.y);
    assert NumX(a, b) == NumX(b, a);
    assert NumY(a, b) == NumY(b, a);
  }

  lemma NeutralOn(c: Curve)
    ensures On(c, Neutral)
  {
    Multiple(0, c.p);
  }

  lemma SumNeutral(c: Curve, a: Affine)
    requires Complete(c) && On(c, a)
    ensures Sum(c, Neutral, a) == a && Sum(c, a, Neutral) == a
  {
    NeutralOn(c);
    SumSolves(c, Neutral, a);
    SumCommutes(c, a, Neutral);
    var s := Sum(c, Neutral, a);
    assert Cross(c, Neutral, a) == 0 && NumX(Neutral, a) == a.x && NumY(Neutral, a) == a.y;
    Canonical(s.x, a.x, c.p);
    Canonical(s.y, a.y, c.p);
  }

  lemma NegateOn(c: Curve, a: Affine)
    requires Complete(c) && On(c, a)
    ensures On(c, Negate(c, a))
  {
    Residue(-a.x, c.p);
    NegateOnCore(c.p, c.d, a.x, a.y, Negate(c, a).x);
  }

  lemma NegateOnCore(p: int, d: int, x: int, y: int, n: int)
    requires p > 0 && Zero(n - -x, p) && Zero(y * y - x * x - (1 + d * (x * y) * (x * y)), p)
    ensures Zero(y * y - n * n - (1 + d * (n * y) * (n * y)), p)
  {
    NegatedProduct(p, x, y, n);
    var m, m' := n * y, x * y;
    Combine(-1, n * n - x * x, -d, m * m - m' * m', p);
    Combine(1, -1 * (n * n - x * x) + -d * (m * m - m' * m'), 1, y * y - x * x - (1 + d * m' * m'), p);
    NegateIdentity(d, m, m', n * n, x * x, y * y);
  }

  lemma NegatedProduct(p: int, x: int, y: int, n: int)
    requires p > 0 && Zero(n - -x, p)
    ensures Zero(n * n - x * x, p)
    ensures Zero((n * y) * (n * y) - (x * y) * (x * y), p)
  {
    Product(n, -x, n, -x, p);
    assert -x * -x == x * x;
    Scale(y * y, n * n - x * x, p);
    SquareOfProduct(n, y);
    SquareOfProduct(x, y);
    DistributeTwo(n * n, x * x, y * y);
  }

  lemma DistributeTwo(a: int, b: int, f: int)
    ensures (a - b) * f == a * f - b * f
  {
  }

  lemma SquareOfProduct(x: int, y: int)
    ensures (x * y) * (x * y) == (x * x) * (y * y)
  {
  }

  lemma NegateIdentity(d: int, m: int, m': int, nn: int, xx: int, yy: int)
    ensures 1 * (-1 * (nn - xx) + -d * (m * m - m' * m')) + 1 * (yy - xx - (1 + d * m' * m')) == yy - nn - (1 + d * m * m)
  {
  }

  /** The point (-x, y) undoes the addition of (x, y). */
  lemma SumNegate(c: Curve, a: Affine)
    requires Complete(c) && On(c, a)
    ensures Sum(c, a, Negate(c, a)) == Neutral
  {
    var p, n := c.p, Negate(c, a);
    var s, k := Sum(c, a, n), Cross(c, a, n);
    NegateOn(c, a);
    SumSolves(c, a, n);
    Residue(-a.x, p);
    NegateNumerators(p, c.d, a.x, a.y, n.x);
    Combine(1, (1 + k) * s.x - NumX(a, n), 1, NumX(a, n), p);
    Multiple(0, p);
    SameQuotient(1 + k, s.x, 0, 0, p);
    Replace(NumY(a, n), 1 - k, p);
    SameQuotient(1 - k, s.y, 1, NumY(a, n), p);
  }

  /** The x numerator is zero; the y numerator is the y denominator, since y^2 - x^2 = 1 + d x^2 y^2. */
  lemma NegateNumerators(p: int, d: int, x: int, y: int, n: int)
    requires p > 0 && Zero(n - -x, p) && Zero(y * y - x * x - (1 + d * (x * y) * (x * y)), p)
    ensures Zero(x * y + n * y, p)
    ensures Zero(y * y + x * n - (1 - d * (x * y) * (n * y)), p)
  {
    var m := x * y;
    Scale(y, n - -x, p);
    assert y * (n - -x) == x * y + n * y;
    Combine(x, n - -x, d * m, m + n * y, p);
    Combine(1, y * y - x * x - (1 + d * m * m), 1, x * (n - -x) + d * m * (m + n * y), p);
    assert x * (n - -x) == x * n + x * x;
    assert d * m * (m + n * y) == d * m * m + d * m * (n * y);
  }
}
