/** The Edwards addition law is associative. With both sides' denominators cleared, the difference of the coordinates
    of (A + B) + C and A + (B + C) is a combination of two quantities that the curve equations of A and C make zero:
      first  = alpha delta + (m1 - m3)(1 - d m1 m3)
      second = beta gamma + (m1 + m3)(1 + d m1 m3)
    where m = x y and alpha, beta, gamma, delta are the four products of the outer points' coordinates. */
module Associativity {
  import opened Modular
  import opened Fermat
  import opened Edwards

  /** The products of the outer points' coordinates that the proof is written in. */
  datatype Outer = Outer(m1: int, m3: int, s1: int, s3: int, alpha: int, beta: int, gamma: int, delta: int)

  function OuterOf(x1: int, y1: int, x3: int, y3: int): Outer {
    Outer(x1 * y1, x3 * y3, y1 * y1 + x1 * x1, y3 * y3 + x3 * x3,
          y1 * y3 + x1 * x3, x1 * y3 + x3 * y1, x1 * x3 - y1 * y3, x3 * y1 - x1 * y3)
  }

  function First(d: int, o: Outer): int {
    o.alpha * o.delta + (o.m1 - o.m3) * (1 - d * (o.m1 * o.m3))
  }

  function Second(d: int, o: Outer): int {
    o.beta * o.gamma + (o.m1 + o.m3) * (1 + d * (o.m1 * o.m3))
  }

  /** The curve equations of the outer points make First and Second zero. */
  lemma OuterVanish(p: int, d: int, x1: int, y1: int, x3: int, y3: int)
    requires p > 0
    requires Zero(y1 * y1 - x1 * x1 - (1 + d * (x1 * y1) * (x1 * y1)), p)
    requires Zero(y3 * y3 - x3 * x3 - (1 + d * (x3 * y3) * (x3 * y3)), p)
    ensures var o := OuterOf(x1, y1, x3, y3); Zero(First(d, o), p) && Zero(Second(d, o), p)
  {
    var m1, m3, f1, f3 := x1 * y1, x3 * y3, y1 * y1 - x1 * x1, y3 * y3 - x3 * x3;
    OuterProducts(x1, y1, x3, y3);
    Combine(m3, f1 - (1 + d * m1 * m1), -m1, f3 - (1 + d * m3 * m3), p);
    FirstIdentity(d, m1, m3, f1, f3);
    Combine(-m3, f1 - (1 + d * m1 * m1), -m1, f3 - (1 + d * m3 * m3), p);
    SecondIdentity(d, m1, m3, f1, f3);
  }

  lemma OuterProducts(x1: int, y1: int, x3: int, y3: int)
    ensures var o := OuterOf(x1, y1, x3, y3);
            && o.alpha * o.delta == o.m3 * (y1 * y1 - x1 * x1) - o.m1 * (y3 * y3 - x3 * x3)
            && o.beta * o.gamma == -o.m3 * (y1 * y1 - x1 * x1) - o.m1 * (y3 * y3 - x3 * x3)
  {
    AlphaDelta(x1, y1, x3, y3);
    BetaGamma(x1, y1, x3, y3);
  }

  lemma AlphaDelta(x1: int, y1: int, x3: int, y3: int)
    ensures (y1 * y3 + x1 * x3) * (x3 * y1 - x1 * y3) == (x3 * y3) * (y1 * y1 - x1 * x1) - (x1 * y1) * (y3 * y3 - x3 * x3)
  {
  }

  lemma BetaGamma(x1: int, y1: int, x3: int, y3: int)
    ensures (x1 * y3 + x3 * y1) * (x1 * x3 - y1 * y3) == -(x3 * y3) * (y1 * y1 - x1 * x1) - (x1 * y1) * (y3 * y3 - x3 * x3)
  {
  }

  lemma FirstIdentity(d: int, m1: int, m3: int, f1: int, f3: int)
    ensures m3 * (f1 - (1 + d * m1 * m1)) + -m1 * (f3 - (1 + d * m3 * m3)) == m3 * f1 - m1 * f3 + (m1 - m3) * (1 - d * (m1 * m3))
  {
  }

  lemma SecondIdentity(d: int, m1: int, m3: int, f1: int, f3: int)
    ensures -m3 * (f1 - (1 + d * m1 * m1)) + -m1 * (f3 - (1 + d * m3 * m3)) == -m3 * f1 - m1 * f3 + (m1 + m3) * (1 + d * (m1 * m3))
  {
  }

  /** The relations among the outer products that hold for all integers. */
  ghost predicate Related(o: Outer) {
    && o.m1 * o.s3 - o.m3 * o.s1 == o.gamma * o.delta
    && o.m1 * o.s3 + o.m3 * o.s1 == o.alpha * o.beta
    && o.gamma * o.gamma + 4 * (o.m1 * o.m3) == o.alpha * o.alpha
    && o.delta * o.delta + 4 * (o.m1 * o.m3) == o.beta * o.beta
  }

  lemma OuterRelated(x1: int, y1: int, x3: int, y3: int)
    ensures Related(OuterOf(x1, y1, x3, y3))
  {
    GammaDelta(x1, y1, x3, y3);
    AlphaBeta(x1, y1, x3, y3);
    GammaSquare(x1, y1, x3, y3);
    DeltaSquare(x1, y1, x3, y3);
  }

  lemma GammaDelta(x1: int, y1: int, x3: int, y3: int)
    ensures (x1 * y1) * (y3 * y3 + x3 * x3) - (x3 * y3) * (y1 * y1 + x1 * x1) == (x1 * x3 - y1 * y3) * (x3 * y1 - x1 * y3)
  {
  }

  lemma AlphaBeta(x1: int, y1: int, x3: int, y3: int)
    ensures (x1 * y1) * (y3 * y3 + x3 * x3) + (x3 * y3) * (y1 * y1 + x1 * x1) == (y1 * y3 + x1 * x3) * (x1 * y3 + x3 * y1)
  {
  }

  lemma GammaSquare(x1: int, y1: int, x3: int, y3: int)
    ensures (x1 * x3 - y1 * y3) * (x1 * x3 - y1 * y3) + 4 * ((x1 * y1) * (x3 * y3)) == (y1 * y3 + x1 * x3) * (y1 * y3 + x1 * x3)
  {
  }

  lemma DeltaSquare(x1: int, y1: int, x3: int, y3: int)
    ensures (x3 * y1 - x1 * y3) * (x3 * y1 - x1 * y3) + 4 * ((x1 * y1) * (x3 * y3)) == (x1 * y3 + x3 * y1) * (x1 * y3 + x3 * y1)
  {
  }

  // ---- the four coefficients of the difference, as polynomials in the middle point ----

  function CoeffX(d: int, o: Outer): int {
    o.alpha * (o.gamma * o.delta) + o.gamma * (o.m1 - o.m3) * (1 - d * (o.m1 * o.m3))
  }

  function CoeffY(d: int, o: Outer): int {
    o.beta * (o.gamma * o.delta) + o.delta * (o.m1 + o.m3) * (1 + d * (o.m1 * o.m3))
  }

  function CoeffXXY(o: Outer): int {
    o.alpha * (o.m1 * o.m1 - o.m3 * o.m3) + o.gamma * (o.m1 * o.m1 * o.s3 - o.m3 * o.m3 * o.s1)
    + 2 * (o.m1 * o.m3) * o.delta * (o.m1 + o.m3)
  }

  function CoeffXYY(o: Outer): int {
    o.beta * (o.m1 * o.m1 - o.m3 * o.m3) + o.delta * (o.m1 * o.m1 * o.s3 + o.m3 * o.m3 * o.s1)
    + 2 * (o.m1 * o.m3) * o.gamma * (o.m1 - o.m3)
  }

  lemma CoeffXIdentity(d: int, o: Outer)
    ensures CoeffX(d, o) == o.gamma * First(d, o)
    ensures CoeffY(d, o) == o.delta * Second(d, o)
  {
    PullOut(o.alpha, o.gamma, o.delta, o.m1 - o.m3, 1 - d * (o.m1 * o.m3));
    PullOut(o.beta, o.delta, o.gamma, o.m1 + o.m3, 1 + d * (o.m1 * o.m3));
    assert o.gamma * o.delta == o.delta * o.gamma;
  }

  lemma PullOut(a: int, g: int, e: int, m: int, t: int)
    ensures a * (g * e) + g * m * t == g * (a * e + m * t)
  {
  }

  lemma CoeffXXYIdentity(d: int, o: Outer)
    requires Related(o)
    ensures 2 * CoeffXXY(o) == (o.m1 - o.m3) * o.alpha * Second(d, o) + (o.m1 + o.m3) * o.alpha * First(d, o)
  {
    var m, n, w := o.m1 + o.m3, o.m1 - o.m3, d * (o.m1 * o.m3);
    SquaresBySums(o.m1, o.m3, o.s1, o.s3);
    CoeffDouble(o.alpha, o.gamma, o.delta, o.m1 * o.m3, m, n, o.gamma * o.delta, o.alpha * o.beta,
                o.m1 * o.m1 - o.m3 * o.m3, o.m1 * o.m1 * o.s3 - o.m3 * o.m3 * o.s1);
    CoeffHalves(o.alpha, o.beta, o.gamma, o.delta, o.m1 * o.m3, m, n, w);
  }

  lemma SquaresBySums(m1: int, m3: int, s1: int, s3: int)
    ensures m1 * m1 - m3 * m3 == (m1 + m3) * (m1 - m3)
    ensures 2 * (m1 * m1 * s3 - m3 * m3 * s1) == (m1 + m3) * (m1 * s3 - m3 * s1) + (m1 - m3) * (m1 * s3 + m3 * s1)
    ensures 2 * (m1 * m1 * s3 + m3 * m3 * s1) == (m1 + m3) * (m1 * s3 + m3 * s1) + (m1 - m3) * (m1 * s3 - m3 * s1)
  {
  }

  /** 2 (a q + g r + 2 w e m) with 2 r and q replaced by what they are. */
  lemma CoeffDouble(a: int, g: int, e: int, w: int, m: int, n: int, ge: int, ab: int, q: int, r: int)
    requires q == m * n && 2 * r == m * ge + n * ab
    ensures 2 * (a * q + g * r + 2 * w * e * m) == 2 * a * (m * n) + g * (m * ge + n * ab) + 4 * w * e * m
  {
    assert 2 * (g * r) == g * (2 * r);
  }

  lemma CoeffHalves(a: int, b: int, g: int, e: int, w: int, m: int, n: int, dw: int)
    requires g * g + 4 * w == a * a
    ensures 2 * a * (m * n) + g * (m * (g * e) + n * (a * b)) + 4 * w * e * m
            == n * a * (b * g + m * (1 + dw)) + m * a * (a * e + n * (1 - dw))
  {
    assert g * (m * (g * e)) + 4 * w * e * m == m * e * (a * a) by {
      assert m * e * (g * g + 4 * w) == m * e * (a * a);
      assert m * e * (g * g + 4 * w) == m * e * (g * g) + m * e * (4 * w);
      assert g * (m * (g * e)) == m * e * (g * g);
      assert 4 * w * e * m == m * e * (4 * w);
    }
    HalvesSplit(a, b, g, e, m, n, dw);
  }

  lemma HalvesSplit(a: int, b: int, g: int, e: int, m: int, n: int, dw: int)
    ensures 2 * a * (m * n) + g * (n * (a * b)) + m * e * (a * a) == n * a * (b * g + m * (1 + dw)) + m * a * (a * e + n * (1 - dw))
  {
    HalvesSplitFirst(a, b, g, m, n, dw);
    HalvesSplitSecond(a, e, m, n, dw);
  }

  lemma HalvesSplitFirst(a: int, b: int, g: int, m: int, n: int, dw: int)
    ensures n * a * (b * g + m * (1 + dw)) == g * (n * (a * b)) + a * (m * n) + a * (m * n) * dw
  {
    var z := n * a;
    assert z * (b * g + m * (1 + dw)) == z * (b * g) + z * m + z * m * dw;
    assert z * (b * g) == g * (n * (a * b));
    assert z * m == a * (m * n);
  }

  lemma HalvesSplitSecond(a: int, e: int, m: int, n: int, dw: int)
    ensures m * a * (a * e + n * (1 - dw)) == m * e * (a * a) + a * (m * n) - a * (m * n) * dw
  {
    var z := m * a;
    assert z * (a * e + n * (1 - dw)) == z * (a * e) + z * n - z * n * dw;
    assert z * (a * e) == m * e * (a * a);
    assert z * n == a * (m * n);
  }

  lemma CoeffXYYIdentity(d: int, o: Outer)
    requires Related(o)
    ensures 2 * CoeffXYY(o) == (o.m1 - o.m3) * o.beta * Second(d, o) + (o.m1 + o.m3) * o.beta * First(d, o)
  {
    var m, n, w := o.m1 + o.m3, o.m1 - o.m3, d * (o.m1 * o.m3);
    SquaresBySums(o.m1, o.m3, o.s1, o.s3);
    assert m * n == n * m;
    CoeffDouble(o.beta, o.delta, o.gamma, o.m1 * o.m3, n, m, o.delta * o.gamma, o.beta * o.alpha,
                o.m1 * o.m1 - o.m3 * o.m3, o.m1 * o.m1 * o.s3 + o.m3 * o.m3 * o.s1) by {
      assert o.delta * o.gamma == o.gamma * o.delta && o.beta * o.alpha == o.alpha * o.beta;
    }
    CoeffHalves(o.beta, o.alpha, o.delta, o.gamma, o.m1 * o.m3, n, m, -w);
    assert o.alpha * o.delta + n * (1 + -w) == First(d, o);
    assert o.beta * o.gamma + m * (1 - -w) == Second(d, o);
  }

  // ---- the difference of the two sides ----

  function LeftNum(d: int, o: Outer, x: int, y: int): int {
    x * o.alpha + y * o.beta + (d * o.m1 * (x * y)) * (x * o.gamma + y * o.delta)
  }

  function RightNum(d: int, o: Outer, x: int, y: int): int {
    x * o.alpha + y * o.beta + (d * (x * y) * o.m3) * (x * o.gamma - y * o.delta)
  }

  function LeftDen(d: int, o: Outer, m: int, s: int): int {
    1 - (d * o.m1 * m) * (d * o.m1 * m) + d * o.m3 * (o.m1 * s + m * o.s1)
  }

  function RightDen(d: int, o: Outer, m: int, s: int): int {
    1 - (d * m * o.m3) * (d * m * o.m3) + d * o.m1 * (m * o.s3 + o.m3 * s)
  }

  /** The part of the cross-multiplied difference that is left once d m2 is pulled out, in the middle point's terms. */
  function Remainder(d: int, e: int, o: Outer, x: int, y: int): int {
    x * CoeffX(e * d, o) + y * CoeffY(e * d, o) + d * (x * y) * (x * CoeffXXY(o) + y * CoeffXYY(o))
  }

  lemma RemainderVanishes(p: int, d: int, e: int, o: Outer, x: int, y: int)
    requires Prime(p) && p > 2 && Related(o) && Zero(First(e * d, o), p) && Zero(Second(e * d, o), p)
    ensures Zero(Remainder(d, e, o, x, y), p)
  {
    hide Zero, CoeffX, CoeffY, CoeffXXY, CoeffXYY, First, Second;
    var f, g := First(e * d, o), Second(e * d, o);
    CoeffXIdentity(e * d, o);
    CoeffXXYIdentity(e * d, o);
    CoeffXYYIdentity(e * d, o);
    Combine(o.gamma, f, 0, g, p);
    Combine(0, f, o.delta, g, p);
    Combine((o.m1 - o.m3) * o.alpha, g, (o.m1 + o.m3) * o.alpha, f, p);
    Combine((o.m1 - o.m3) * o.beta, g, (o.m1 + o.m3) * o.beta, f, p);
    Half(CoeffXXY(o), p);
    Half(CoeffXYY(o), p);
    Combine(x, CoeffX(e * d, o), y, CoeffY(e * d, o), p);
    Combine(x, CoeffXXY(o), y, CoeffXYY(o), p);
    Combine(1, x * CoeffX(e * d, o) + y * CoeffY(e * d, o), d * (x * y), x * CoeffXXY(o) + y * CoeffXYY(o), p);
  }

  lemma Half(x: int, p: int)
    requires Prime(p) && p > 2 && Zero(2 * x, p)
    ensures Zero(x, p)
  {
    Euclid(2, x, p);
    if Zero(2, p) {
      Small(2, p);
    }
  }

  /** Pulling d m2 out of the cross-multiplied difference. */
  lemma PullOutMiddle(d: int, o: Outer, m: int, s: int, sum: int, w3: int, w1: int)
    requires o.m1 * o.s3 - o.m3 * o.s1 == o.gamma * o.delta
    ensures var l, r := LeftDen(d, o, m, s), RightDen(d, o, m, s);
            (sum + (d * o.m1 * m) * w3) * r - (sum + (d * m * o.m3) * w1) * l
            == (d * m) * (sum * (o.gamma * o.delta + d * m * (o.m1 * o.m1 - o.m3 * o.m3)) + (o.m1 * w3 * r - o.m3 * w1 * l))
  {
    var l, r := LeftDen(d, o, m, s), RightDen(d, o, m, s);
    var e := d * m;
    assert d * o.m1 * m == e * o.m1;
    assert r - l == e * (o.gamma * o.delta + e * (o.m1 * o.m1 - o.m3 * o.m3)) by {
      DenominatorGap(d, m, s, o.m1, o.m3, o.s1, o.s3);
    }
    CrossDifference(sum, e, o.m1, o.m3, w3, w1, l, r, o.gamma * o.delta + e * (o.m1 * o.m1 - o.m3 * o.m3));
  }

  lemma DenominatorGap(d: int, m: int, s: int, m1: int, m3: int, s1: int, s3: int)
    ensures var e := d * m;
            (1 - (d * m * m3) * (d * m * m3) + d * m1 * (m * s3 + m3 * s)) - (1 - (d * m1 * m) * (d * m1 * m) + d * m3 * (m1 * s + m * s1))
            == e * ((m1 * s3 - m3 * s1) + e * (m1 * m1 - m3 * m3))
  {
    var e := d * m;
    assert (d * m * m3) * (d * m * m3) == e * (e * (m3 * m3));
    assert (d * m1 * m) * (d * m1 * m) == e * (e * (m1 * m1)) by {
      assert d * m1 * m == e * m1;
    }
    GapSum(d, m, s, m1, m3, s1, s3);
    GapProduct(e, m1 * s3 - m3 * s1, e * (m1 * m1), e * (m3 * m3));
    assert e * (m1 * m1 - m3 * m3) == e * (m1 * m1) - e * (m3 * m3);
  }

  lemma GapSum(d: int, m: int, s: int, m1: int, m3: int, s1: int, s3: int)
    ensures d * m1 * (m * s3 + m3 * s) - d * m3 * (m1 * s + m * s1) == (d * m) * (m1 * s3 - m3 * s1)
  {
  }

  lemma GapProduct(e: int, h: int, u: int, v: int)
    ensures e * (h + (u - v)) == e * h + e * u - e * v
  {
  }

  lemma CrossDifference(sum: int, e: int, m1: int, m3: int, w3: int, w1: int, l: int, r: int, gap: int)
    requires r - l == e * gap
    ensures (sum + (e * m1) * w3) * r - (sum + (e * m3) * w1) * l == e * (sum * gap + (m1 * w3 * r - m3 * w1 * l))
  {
    assert (sum + (e * m1) * w3) * r == sum * r + e * (m1 * w3 * r);
    assert (sum + (e * m3) * w1) * l == sum * l + e * (m3 * w1 * l);
    assert sum * r - sum * l == sum * (e * gap);
  }

  /** The remaining part is Remainder plus a multiple of the middle point's curve equation. */
  lemma RemainderIdentity(d: int, e: int, o: Outer, x: int, y: int)
    requires e * e == 1
    ensures var m, s := x * y, y * y + x * x;
            var a, b := x * o.gamma, y * o.delta;
            (x * o.alpha + y * o.beta) * (o.gamma * o.delta + d * m * (o.m1 * o.m1 - o.m3 * o.m3))
            + (o.m1 * (a + b) * RightDen(d, o, m, s) - o.m3 * (a - b) * LeftDen(d, o, m, s))
            == Remainder(d, e, o, x, y)
               + d * (o.m1 * o.m3) * (b * (o.m1 + o.m3) - a * (o.m1 - o.m3)) * (y * y - x * x - (e + d * m * m))
  {
    var m, s, f := x * y, y * y + x * x, y * y - x * x;
    var a, b, q, n, t := x * o.gamma, y * o.delta, o.m1 * o.m3, o.m1 - o.m3, o.m1 + o.m3;
    var dm := d * m;
    var t3, t4 := o.m1 * o.m1 * o.s3 - o.m3 * o.m3 * o.s1, o.m1 * o.m1 * o.s3 + o.m3 * o.m3 * o.s1;
    DenominatorSplit(d, o, m, s);
    WeightedDenominators(o.m1, o.m3, a, b, 1 + d * q * s, dm, o.s1, o.s3);
    UseCurve(d, e, a * n, b * t, q, s, f, m, x, y);
    CollectCoefficients(d, e, o, x, y);
  }

  lemma DenominatorSplit(d: int, o: Outer, m: int, s: int)
    ensures RightDen(d, o, m, s) == (1 + d * (o.m1 * o.m3) * s) + d * m * (o.m1 * o.s3 - d * m * (o.m3 * o.m3))
    ensures LeftDen(d, o, m, s) == (1 + d * (o.m1 * o.m3) * s) + d * m * (o.m3 * o.s1 - d * m * (o.m1 * o.m1))
  {
    SplitOne(d, o.m1, o.m3, m, s, o.s3);
    SplitOne(d, o.m3, o.m1, m, s, o.s1);
    assert d * o.m1 * m == d * m * o.m1;
    assert o.m3 * o.m1 == o.m1 * o.m3;
  }

  lemma SplitOne(d: int, m1: int, m3: int, m: int, s: int, s3: int)
    ensures 1 - (d * m * m3) * (d * m * m3) + d * m1 * (m * s3 + m3 * s)
            == (1 + d * (m1 * m3) * s) + d * m * (m1 * s3 - d * m * (m3 * m3))
  {
    assert d * m1 * (m * s3 + m3 * s) == d * m * (m1 * s3) + d * (m1 * m3) * s;
    assert (d * m * m3) * (d * m * m3) == d * m * (d * m * (m3 * m3));
  }

  lemma WeightedDenominators(m1: int, m3: int, a: int, b: int, d0: int, e: int, s1: int, s3: int)
    ensures m1 * (a + b) * (d0 + e * (m1 * s3 - e * (m3 * m3))) - m3 * (a - b) * (d0 + e * (m3 * s1 - e * (m1 * m1)))
            == (a * (m1 - m3) + b * (m1 + m3)) * d0
               + e * (a * (m1 * m1 * s3 - m3 * m3 * s1) + b * (m1 * m1 * s3 + m3 * m3 * s1))
               - e * e * (m1 * m3) * (b * (m1 + m3) - a * (m1 - m3))
  {
    WeightOne(m1, a + b, d0, e, m1 * s3, m3 * m3);
    WeightOne(m3, a - b, d0, e, m3 * s1, m1 * m1);
    assert m1 * (a + b) - m3 * (a - b) == a * (m1 - m3) + b * (m1 + m3);
    assert m1 * (a + b) * d0 - m3 * (a - b) * d0 == (a * (m1 - m3) + b * (m1 + m3)) * d0;
    WeightLinear(m1, m3, a, b, s1, s3, e);
    WeightSquare(m1, m3, a, b, e);
  }

  lemma WeightOne(m: int, w: int, d0: int, e: int, u: int, v: int)
    ensures m * w * (d0 + e * (u - e * v)) == m * w * d0 + e * (m * w * u) - e * e * (m * w * v)
  {
    var z := m * w;
    assert z * (d0 + e * (u - e * v)) == z * d0 + e * (z * u) - e * e * (z * v);
  }

  lemma WeightLinear(m1: int, m3: int, a: int, b: int, s1: int, s3: int, e: int)
    ensures e * (m1 * (a + b) * (m1 * s3)) - e * (m3 * (a - b) * (m3 * s1))
            == e * (a * (m1 * m1 * s3 - m3 * m3 * s1) + b * (m1 * m1 * s3 + m3 * m3 * s1))
  {
    var u, v := m1 * m1 * s3, m3 * m3 * s1;
    assert m1 * (a + b) * (m1 * s3) == (a + b) * u;
    assert m3 * (a - b) * (m3 * s1) == (a - b) * v;
    assert (a + b) * u - (a - b) * v == a * (u - v) + b * (u + v);
  }

  lemma WeightSquare(m1: int, m3: int, a: int, b: int, e: int)
    ensures e * e * (m1 * (a + b) * (m3 * m3)) - e * e * (m3 * (a - b) * (m1 * m1))
            == e * e * (m1 * m3) * (b * (m1 + m3) - a * (m1 - m3))
  {
    var q := m1 * m3;
    assert m1 * (a + b) * (m3 * m3) == q * (m3 * (a + b));
    assert m3 * (a - b) * (m1 * m1) == q * (m1 * (a - b));
    assert m3 * (a + b) - m1 * (a - b) == b * (m1 + m3) - a * (m1 - m3);
  }

  /** d m^2 is y^2 - x^2 - e, up to a multiple of the curve equation. */
  lemma UseCurve(d: int, e: int, an: int, bt: int, q: int, s: int, f: int, m: int, x: int, y: int)
    requires s == y * y + x * x && f == y * y - x * x
    ensures (an + bt) * (1 + d * q * s) - (d * m) * (d * m) * q * (bt - an)
            == an * (1 - e * d * q) + bt * (1 + e * d * q) + 2 * (d * q) * (an * (y * y) + bt * (x * x))
               + d * q * (bt - an) * (f - (e + d * m * m))
  {
    var dq, xx, yy, w := d * q, x * x, y * y, d * m * m;
    assert (d * m) * (d * m) * q * (bt - an) == dq * ((bt - an) * w) by {
      assert (d * m) * (d * m) == d * w;
    }
    CurveSplit(dq, e, an, bt, xx, yy, w);
    assert e * d * q == e * dq;
  }

  lemma CurveSplit(dq: int, e: int, an: int, bt: int, xx: int, yy: int, w: int)
    ensures (an + bt) * (1 + dq * (yy + xx)) - dq * ((bt - an) * w)
            == an * (1 - e * dq) + bt * (1 + e * dq) + 2 * dq * (an * yy + bt * xx) + dq * (bt - an) * (yy - xx - (e + w))
  {
  }

  /** What is left is sorted by the powers of the middle point's coordinates. */
  lemma CollectCoefficients(d: int, e: int, o: Outer, x: int, y: int)
    ensures var m, q, n, t := x * y, o.m1 * o.m3, o.m1 - o.m3, o.m1 + o.m3;
            var a, b := x * o.gamma, y * o.delta;
            (x * o.alpha + y * o.beta) * (o.gamma * o.delta + d * m * (o.m1 * o.m1 - o.m3 * o.m3))
            + (a * n) * (1 - e * d * q) + (b * t) * (1 + e * d * q) + 2 * (d * q) * ((a * n) * (y * y) + (b * t) * (x * x))
            + (d * m) * (a * (o.m1 * o.m1 * o.s3 - o.m3 * o.m3 * o.s1) + b * (o.m1 * o.m1 * o.s3 + o.m3 * o.m3 * o.s1))
            == Remainder(d, e, o, x, y)
  {
    var t3, t4 := o.m1 * o.m1 * o.s3 - o.m3 * o.m3 * o.s1, o.m1 * o.m1 * o.s3 + o.m3 * o.m3 * o.s1;
    var ed, q := e * d, o.m1 * o.m3;
    assert e * d * q == ed * q;
    CollectAll(d, ed, x, y, q, o.m1 - o.m3, o.m1 + o.m3, o.alpha, o.beta, o.gamma, o.delta, o.m1 * o.m1 - o.m3 * o.m3, t3, t4);
  }

  lemma CollectAll(d: int, ed: int, x: int, y: int, q: int, n: int, t: int, a: int, b: int, g: int, e: int, r: int, t3: int, t4: int)
    ensures (x * a + y * b) * (g * e + d * (x * y) * r) + (x * g * n) * (1 - ed * q) + (y * e * t) * (1 + ed * q)
            + 2 * (d * q) * ((x * g * n) * (y * y) + (y * e * t) * (x * x)) + (d * (x * y)) * (x * g * t3 + y * e * t4)
            == x * (a * (g * e) + g * n * (1 - ed * q)) + y * (b * (g * e) + e * t * (1 + ed * q))
               + d * (x * y) * (x * (a * r + g * t3 + 2 * q * e * t) + y * (b * r + e * t4 + 2 * q * g * n))
  {
    var m := x * y;
    CollectLow(x, a, g * e, g, n, 1 - ed * q);
    CollectLow(y, b, g * e, e, t, 1 + ed * q);
    CollectHigh(d, m, q, x, y, g, e, n, t);
    assert x * g * t3 == x * (g * t3);
    assert y * e * t4 == y * (e * t4);
    CollectMiddle(d * m, x, y, a, b, r, g * t3, e * t4, 2 * q * e * t, 2 * q * g * n, g * e);
  }

  lemma CollectLow(x: int, a: int, h: int, g: int, n: int, u: int)
    ensures x * a * h + (x * g * n) * u == x * (a * h + g * n * u)
  {
  }

  lemma CollectHigh(d: int, m: int, q: int, x: int, y: int, g: int, e: int, n: int, t: int)
    requires m == x * y
    ensures 2 * (d * q) * ((x * g * n) * (y * y) + (y * e * t) * (x * x)) == (d * m) * (x * (2 * q * e * t) + y * (2 * q * g * n))
  {
    MoveFactor(x, y, g, n);
    MoveFactor(y, x, e, t);
    assert y * x == m;
    HighIdentity(d, q, m, y * (g * n), x * (e * t));
    Regroup(x, q, e, t);
    Regroup(y, q, g, n);
  }

  lemma MoveFactor(x: int, y: int, g: int, n: int)
    ensures (x * g * n) * (y * y) == (x * y) * (y * (g * n))
  {
    var w := g * n;
    assert x * g * n == x * w;
    assert (x * w) * (y * y) == (x * y) * (y * w);
  }

  lemma Regroup(x: int, q: int, e: int, t: int)
    ensures x * (2 * q * e * t) == 2 * q * (x * (e * t))
  {
  }

  lemma HighIdentity(d: int, q: int, m: int, u: int, v: int)
    ensures 2 * (d * q) * (m * u + m * v) == (d * m) * (2 * q * v + 2 * q * u)
  {
  }

  lemma CollectMiddle(dm: int, x: int, y: int, a: int, b: int, r: int, gt: int, et: int, u: int, v: int, h: int)
    ensures (x * a + y * b) * (h + dm * r) + dm * (x * u + y * v) + dm * (x * gt + y * et)
            == x * a * h + y * b * h + dm * (x * (a * r + gt + u) + y * (b * r + et + v))
  {
    assert (x * a + y * b) * (h + dm * r) == x * a * h + y * b * h + dm * (x * (a * r) + y * (b * r));
    assert x * (a * r + gt + u) == x * (a * r) + x * gt + x * u;
    assert y * (b * r + et + v) == y * (b * r) + y * et + y * v;
  }

  /** The two sides agree: their cross-multiplied difference is zero. e is 1 for the x coordinate and, with d negated
      and the middle point's coordinates swapped, -1 for the y coordinate. */
  lemma SidesAgree(p: int, d: int, e: int, o: Outer, x: int, y: int)
    requires Prime(p) && p > 2 && e * e == 1 && Related(o)
    requires Zero(First(e * d, o), p) && Zero(Second(e * d, o), p)
    requires Zero(y * y - x * x - (e + d * (x * y) * (x * y)), p)
    ensures var m, s := x * y, y * y + x * x;
            Zero(LeftNum(d, o, x, y) * RightDen(d, o, m, s) - RightNum(d, o, x, y) * LeftDen(d, o, m, s), p)
  {
    hide Zero;
    var m, s := x * y, y * y + x * x;
    var a, b := x * o.gamma, y * o.delta;
    var curve := y * y - x * x - (e + d * m * m);
    var weight := d * (o.m1 * o.m3) * (b * (o.m1 + o.m3) - a * (o.m1 - o.m3));
    PullOutMiddle(d, o, m, s, x * o.alpha + y * o.beta, a + b, a - b);
    RemainderIdentity(d, e, o, x, y);
    RemainderVanishes(p, d, e, o, x, y);
    Combine(1, Remainder(d, e, o, x, y), weight, curve, p);
    Scale(d * m, 1 * Remainder(d, e, o, x, y) + weight * curve, p);
  }

  // ---- from the cleared difference to the points ----

  /** The coordinate w of the sum of (px, py) with a third point, over cleared denominators: (px, py) is itself the
      solution of u px = nx, v py = ny. */
  lemma Nested(p: int, px: int, py: int, u: int, v: int, nx: int, ny: int, w: int, f: int, g: int, sm: int)
    requires Prime(p) && !Zero(u, p) && !Zero(v, p) && !Zero(1 + sm * (px * py), p)
    requires Zero(u * px - nx, p) && Zero(v * py - ny, p)
    requires Zero((1 + sm * (px * py)) * w - (px * f + py * g), p)
    ensures Zero((u * v + sm * (nx * ny)) * w - (nx * v * f + ny * u * g), p)
    ensures !Zero(u * v + sm * (nx * ny), p)
  {
    hide Zero;
    var den := 1 + sm * (px * py);
    Product(u * px, nx, v * py, ny, p);
    Scale(sm, (u * px) * (v * py) - nx * ny, p);
    Reorder(u, px, v, py);
    DenominatorScaled(u * v, sm, px * py, nx * ny);
    assert Zero((u * v) * den - (u * v + sm * (nx * ny)), p);
    NonzeroProduct(u, v, p);
    NonzeroProduct(u * v, den, p);
    Replace((u * v) * den, u * v + sm * (nx * ny), p);
    Combine(u * v, den * w - (px * f + py * g), -w, (u * v) * den - (u * v + sm * (nx * ny)), p);
    Combine(v * f, u * px - nx, u * g, v * py - ny, p);
    NestedIdentity(u, v, px, py, f, g, w, den, u * v + sm * (nx * ny), nx, ny);
    Combine(1, u * v * (den * w - (px * f + py * g)) + -w * ((u * v) * den - (u * v + sm * (nx * ny))),
            1, v * f * (u * px - nx) + u * g * (v * py - ny), p);
  }

  lemma DenominatorScaled(uv: int, sm: int, pq: int, n: int)
    ensures sm * (uv * pq - n) == uv * (1 + sm * pq) - (uv + sm * n)
  {
  }

  lemma NestedIdentity(u: int, v: int, px: int, py: int, f: int, g: int, w: int, den: int, cleared: int, nx: int, ny: int)
    ensures 1 * (u * v * (den * w - (px * f + py * g)) + -w * ((u * v) * den - cleared)) + 1 * (v * f * (u * px - nx) + u * g * (v * py - ny))
            == cleared * w - (nx * v * f + ny * u * g)
  {
    assert u * v * (den * w - (px * f + py * g)) == u * v * (den * w) - u * v * (px * f) - u * v * (py * g);
    assert w * ((u * v) * den - cleared) == u * v * (den * w) - cleared * w;
    assert v * f * (u * px - nx) == u * v * (px * f) - nx * v * f;
    assert u * g * (v * py - ny) == u * v * (py * g) - ny * u * g;
  }

  /** Two fractions whose cross-multiplied difference is zero are the same residue. */
  lemma SameFraction(p: int, w: int, w': int, n: int, den: int, n': int, den': int)
    requires Prime(p) && !Zero(den, p) && !Zero(den', p) && 0 <= w < p && 0 <= w' < p
    requires Zero(den * w - n, p) && Zero(den' * w' - n', p) && Zero(n * den' - n' * den, p)
    ensures w == w'
  {
    hide Zero;
    Combine3(den', den * w - n, -den, den' * w' - n', 1, n * den' - n' * den, p);
    FractionIdentity(den, den', w, w', n, n');
    CancelFraction(p, den, den', w, w');
  }

  lemma CancelFraction(p: int, den: int, den': int, w: int, w': int)
    requires Prime(p) && !Zero(den, p) && !Zero(den', p) && 0 <= w < p && 0 <= w' < p
    requires Zero((den * den') * w - (den * den') * w', p)
    ensures w == w'
  {
    hide Zero;
    NonzeroProduct(den, den', p);
    Cancel(den * den', w, w', p);
    Canonical(w, w', p);
  }

  lemma FractionIdentity(den: int, den': int, w: int, w': int, n: int, n': int)
    ensures den' * (den * w - n) + -den * (den' * w' - n') + 1 * (n * den' - n' * den) == (den * den') * w - (den * den') * w'
  {
    assert den' * (den * w - n) == (den * den') * w - n * den';
    assert den * (den' * w' - n') == (den * den') * w' - n' * den;
  }

  /** One coordinate of (A + B) + C over cleared denominators; e is 1 for x and -1 for y. */
  lemma NestedSum(c: Curve, a: Affine, b: Affine, t: Affine)
    requires Complete(c) && On(c, a) && On(c, b) && On(c, t)
    ensures var w, k, m3 := Sum(c, Sum(c, a, b), t), Cross(c, a, b), t.x * t.y;
            var u, v, nx, ny := 1 + k, 1 - k, NumX(a, b), NumY(a, b);
            && !Zero(u * v + c.d * m3 * (nx * ny), c.p)
            && !Zero(u * v + -c.d * m3 * (nx * ny), c.p)
            && Zero((u * v + c.d * m3 * (nx * ny)) * w.x - (nx * v * t.y + ny * u * t.x), c.p)
            && Zero((u * v + -c.d * m3 * (nx * ny)) * w.y - (nx * v * t.x + ny * u * t.y), c.p)
  {
    hide Zero, Inv;
    var s, k, m3 := Sum(c, a, b), Cross(c, a, b), t.x * t.y;
    var w := Sum(c, s, t);
    SumSolves(c, a, b);
    SumOn(c, a, b);
    SumSolves(c, s, t);
    CrossForms(c.d, s.x * s.y, m3);
    assert NumX(s, t) == s.x * t.y + s.y * t.x;
    assert NumY(s, t) == s.x * t.x + s.y * t.y;
    Nested(c.p, s.x, s.y, 1 + k, 1 - k, NumX(a, b), NumY(a, b), w.x, t.y, t.x, c.d * m3);
    Nested(c.p, s.x, s.y, 1 + k, 1 - k, NumX(a, b), NumY(a, b), w.y, t.x, t.y, -c.d * m3);
  }

  lemma CrossForms(d: int, pq: int, m3: int)
    ensures 1 + d * m3 * pq == 1 + d * pq * m3
    ensures 1 + -d * m3 * pq == 1 - d * pq * m3
  {
  }

  /** The cleared numerators and denominators of both sides, in the outer points' products. */
  lemma ClearedForms(c: Curve, a: Affine, b: Affine, t: Affine)
    ensures var o := OuterOf(a.x, a.y, t.x, t.y);
            var k, nx, ny, m, s := Cross(c, a, b), NumX(a, b), NumY(a, b), b.x * b.y, b.y * b.y + b.x * b.x;
            && nx * (1 - k) * t.y + ny * (1 + k) * t.x == LeftNum(c.d, o, b.x, b.y)
            && nx * (1 - k) * t.x + ny * (1 + k) * t.y == LeftNum(-c.d, o, b.y, b.x)
            && (1 + k) * (1 - k) + c.d * o.m3 * (nx * ny) == LeftDen(c.d, o, m, s)
            && (1 + k) * (1 - k) + -c.d * o.m3 * (nx * ny) == LeftDen(-c.d, o, m, s)
    ensures var o := OuterOf(a.x, a.y, t.x, t.y);
            var k, nx, ny, m, s := Cross(c, t, b), NumX(t, b), NumY(t, b), b.x * b.y, b.y * b.y + b.x * b.x;
            && nx * (1 - k) * a.y + ny * (1 + k) * a.x == RightNum(c.d, o, b.x, b.y)
            && nx * (1 - k) * a.x + ny * (1 + k) * a.y == RightNum(-c.d, o, b.y, b.x)
            && (1 + k) * (1 - k) + c.d * o.m1 * (nx * ny) == RightDen(c.d, o, m, s)
            && (1 + k) * (1 - k) + -c.d * o.m1 * (nx * ny) == RightDen(-c.d, o, m, s)
  {
    ClearedSide(c.d, a.x, a.y, b.x, b.y, t.x, t.y);
    ClearedSide(c.d, t.x, t.y, b.x, b.y, a.x, a.y);
    RightForms(c.d, a.x, a.y, b.x, b.y, t.x, t.y);
  }

  /** The left side: both points' numerators split into a symmetric part and a part with the factor d m1 m2. */
  lemma ClearedSide(d: int, x1: int, y1: int, x2: int, y2: int, x3: int, y3: int)
    ensures var o := OuterOf(x1, y1, x3, y3);
            var k, nx, ny, m, s := d * (x1 * y1) * (x2 * y2), x1 * y2 + x2 * y1, y1 * y2 + x1 * x2, x2 * y2, y2 * y2 + x2 * x2;
            && nx * (1 - k) * y3 + ny * (1 + k) * x3 == LeftNum(d, o, x2, y2)
            && nx * (1 - k) * x3 + ny * (1 + k) * y3 == LeftNum(-d, o, y2, x2)
            && (1 + k) * (1 - k) + d * o.m3 * (nx * ny) == LeftDen(d, o, m, s)
            && (1 + k) * (1 - k) + -d * o.m3 * (nx * ny) == LeftDen(-d, o, m, s)
  {
    var o := OuterOf(x1, y1, x3, y3);
    var k, nx, ny, m, s := d * (x1 * y1) * (x2 * y2), x1 * y2 + x2 * y1, y1 * y2 + x1 * x2, x2 * y2, y2 * y2 + x2 * x2;
    NumeratorProducts(x1, y1, x2, y2);
    SplitNumerator(nx, ny, k, y3, x3);
    SplitNumerator(nx, ny, k, x3, y3);
    TrilinearParts(x1, y1, x2, y2, x3, y3);
    assert -d * (x1 * y1) * (y2 * x2) == -k by { assert y2 * x2 == m; }
    assert (-k) * (y2 * o.gamma + x2 * o.delta) == k * -(y2 * o.gamma + x2 * o.delta);
    assert (1 + k) * (1 - k) == 1 - k * k;
    assert -d * (x1 * y1) * m == -k;
    assert (-k) * (-k) == k * k;
  }

  lemma SplitNumerator(nx: int, ny: int, k: int, f: int, g: int)
    ensures nx * (1 - k) * f + ny * (1 + k) * g == nx * f + ny * g + k * (ny * g - nx * f)
  {
  }

  lemma TrilinearParts(x1: int, y1: int, x2: int, y2: int, x3: int, y3: int)
    ensures var o := OuterOf(x1, y1, x3, y3);
            var nx, ny := x1 * y2 + x2 * y1, y1 * y2 + x1 * x2;
            && nx * y3 + ny * x3 == x2 * o.alpha + y2 * o.beta
            && ny * x3 - nx * y3 == x2 * o.gamma + y2 * o.delta
            && nx * x3 + ny * y3 == y2 * o.alpha + x2 * o.beta
            && ny * y3 - nx * x3 == -(y2 * o.gamma + x2 * o.delta)
  {
    TrilinearX(x1, y1, x2, y2, x3, y3);
    TrilinearY(x1, y1, x2, y2, x3, y3);
  }

  lemma TrilinearX(x1: int, y1: int, x2: int, y2: int, x3: int, y3: int)
    ensures (x1 * y2 + x2 * y1) * y3 + (y1 * y2 + x1 * x2) * x3 == x2 * (y1 * y3 + x1 * x3) + y2 * (x1 * y3 + x3 * y1)
    ensures (y1 * y2 + x1 * x2) * x3 - (x1 * y2 + x2 * y1) * y3 == x2 * (x1 * x3 - y1 * y3) + y2 * (x3 * y1 - x1 * y3)
  {
  }

  lemma TrilinearY(x1: int, y1: int, x2: int, y2: int, x3: int, y3: int)
    ensures (x1 * y2 + x2 * y1) * x3 + (y1 * y2 + x1 * x2) * y3 == y2 * (y1 * y3 + x1 * x3) + x2 * (x1 * y3 + x3 * y1)
    ensures (y1 * y2 + x1 * x2) * y3 - (x1 * y2 + x2 * y1) * x3 == -(y2 * (x1 * x3 - y1 * y3) + x2 * (x3 * y1 - x1 * y3))
  {
  }

  /** The right side is the left side with the outer points exchanged, which only changes the sign of delta. */
  lemma RightForms(d: int, x1: int, y1: int, x2: int, y2: int, x3: int, y3: int)
    ensures var o, o' := OuterOf(x1, y1, x3, y3), OuterOf(x3, y3, x1, y1);
            && o' == Outer(o.m3, o.m1, o.s3, o.s1, o.alpha, o.beta, o.gamma, -o.delta)
            && (forall d', x, y :: LeftNum(d', o', x, y) == RightNum(d', o, x, y))
            && (forall d', m, s :: LeftDen(d', o', m, s) == RightDen(d', o, m, s))
  {
    var o, o' := OuterOf(x1, y1, x3, y3), OuterOf(x3, y3, x1, y1);
    forall d', x, y
      ensures LeftNum(d', o', x, y) == RightNum(d', o, x, y)
    {
      assert d' * o.m3 * (x * y) == d' * (x * y) * o.m3;
      assert y * -o.delta == -(y * o.delta);
    }
    forall d', m, s
      ensures LeftDen(d', o', m, s) == RightDen(d', o, m, s)
    {
      assert d' * o.m3 * m == d' * m * o.m3;
    }
  }

  /** The addition law is associative. */
  lemma SumAssociates(c: Curve, a: Affine, b: Affine, t: Affine)
    requires Complete(c) && On(c, a) && On(c, b) && On(c, t)
    ensures Sum(c, Sum(c, a, b), t) == Sum(c, a, Sum(c, b, t))
  {
    hide Sum, LeftNum, LeftDen, RightNum, RightDen, Zero;
    var p, d, o := c.p, c.d, OuterOf(a.x, a.y, t.x, t.y);
    var m, s := b.x * b.y, b.y * b.y + b.x * b.x;
    var left, right := Sum(c, Sum(c, a, b), t), Sum(c, Sum(c, t, b), a);
    NestedSum(c, a, b, t);
    NestedSum(c, t, b, a);
    ClearedForms(c, a, b, t);
    OuterVanish(p, d, a.x, a.y, t.x, t.y);
    OuterRelated(a.x, a.y, t.x, t.y);
    SidesAgree(p, d, 1, o, b.x, b.y);
    SwappedEquation(p, d, b.x, b.y);
    SidesAgree(p, -d, -1, o, b.y, b.x);
    assert b.y * b.x == m && b.x * b.x + b.y * b.y == s;
    SumOn(c, a, b);
    SumOn(c, t, b);
    SumOn(c, Sum(c, a, b), t);
    SumOn(c, Sum(c, t, b), a);
    SameFraction(p, left.x, right.x, LeftNum(d, o, b.x, b.y), LeftDen(d, o, m, s), RightNum(d, o, b.x, b.y), RightDen(d, o, m, s));
    SameFraction(p, left.y, right.y, LeftNum(-d, o, b.y, b.x), LeftDen(-d, o, m, s), RightNum(-d, o, b.y, b.x), RightDen(-d, o, m, s));
    SumCommutes(c, t, b);
    SumCommutes(c, Sum(c, b, t), a);
  }

  lemma SwappedEquation(p: int, d: int, x: int, y: int)
    requires p > 0 && Zero(y * y - x * x - (1 + d * (x * y) * (x * y)), p)
    ensures Zero(x * x - y * y - (-1 + -d * (y * x) * (y * x)), p)
  {
    hide Zero;
    assert y * x == x * y;
    Scale(-1, y * y - x * x - (1 + d * (x * y) * (x * y)), p);
  }
}
