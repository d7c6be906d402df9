/** Points in extended coordinates, as portal/gateway/gw/ed25519.py computes with them, and the affine points they stand for. */
module Points {
  import opened Modular
  import opened Fermat
  import opened Edwards
  import opened Associativity

  datatype Ext = Ext(x: int, y: int, z: int, t: int)

  const ExtNeutral := Ext(0, 1, 1, 0)

  /** e stands for the affine point a: X = xZ, Y = yZ, T = xyZ with Z not zero. */
  ghost predicate Represents(c: Curve, e: Ext, a: Affine) {
    && !Zero(e.z, c.p)
    && Zero(e.x - a.x * e.z, c.p)
    && Zero(e.y - a.y * e.z, c.p)
    && Zero(e.t - a.x * a.y * e.z, c.p)
  }

  /** _add */
  function Add(c: Curve, a: Ext, b: Ext): Ext {
    var aa, bb := (a.y - a.x) * (b.y - b.x) % c.p, (a.y + a.x) * (b.y + b.x) % c.p;
    var cc, dd := 2 * a.t * b.t * c.d % c.p, 2 * a.z * b.z % c.p;
    var e, f, g, h := bb - aa, dd - cc, dd + cc, bb + aa;
    Ext(e * f % c.p, g * h % c.p, f * g % c.p, e * h % c.p)
  }

  /** _equal */
  predicate Equal(c: Curve, a: Ext, b: Ext) {
    (a.x * b.z - b.x * a.z) % c.p == 0 && (a.y * b.z - b.y * a.z) % c.p == 0
  }

  // ---- _add is the affine addition law ----

  lemma ScaledProduct(p: int, u: int, a: int, z: int, v: int, b: int, z': int)
    requires p > 0 && Zero(u - a * z, p) && Zero(v - b * z', p)
    ensures Zero(u * v - a * b * (z * z'), p)
  {
    Product(u, a * z, v, b * z', p);
    Reorder(a, z, b, z');
    assert (a * b) * (z' * z) == a * b * (z * z');
  }

  /** The intermediate values of _add, each 2 Z1 Z2 times a term of the affine law. */
  lemma AddIntermediates(c: Curve, e: Ext, f: Ext, a: Affine, b: Affine)
    requires Represents(c, e, a) && Represents(c, f, b)
    ensures var p, w, k := c.p, 2 * (e.z * f.z), Cross(c, a, b);
            var aa, bb := (e.y - e.x) * (f.y - f.x) % p, (e.y + e.x) * (f.y + f.x) % p;
            var cc, dd := 2 * e.t * f.t * c.d % p, 2 * e.z * f.z % p;
            && Zero(bb - aa - NumX(a, b) * w, p)
            && Zero(bb + aa - NumY(a, b) * w, p)
            && Zero(dd - cc - (1 - k) * w, p)
            && Zero(dd + cc - (1 + k) * w, p)
  {
    hide Zero;
    var p, z, k := c.p, e.z * f.z, Cross(c, a, b);
    PairTerms(p, e, f, a, b);
    CrossTerm(c, e, f, a, b);
    DoubledFirst(e.z, f.z);
    NumeratorsScaled(a.x, a.y, b.x, b.y, z);
    SumAndDifference(p, (e.y - e.x) * (f.y - f.x), (e.y + e.x) * (f.y + f.x), (a.y - a.x) * (b.y - b.x) * z, (a.y + a.x) * (b.y + b.x) * z);
    SelfZero(2 * z, p);
    SumAndDifference(p, 2 * e.t * f.t * c.d, 2 * z, 2 * k * z, 2 * z);
    FactorsScaled(k, z);
  }

  lemma FactorsScaled(k: int, z: int)
    ensures (1 - k) * (2 * z) == 2 * z - 2 * k * z
    ensures (1 + k) * (2 * z) == 2 * z + 2 * k * z
  {
  }

  lemma DoubledFirst(a: int, b: int)
    ensures 2 * a * b == 2 * (a * b)
  {
  }

  lemma PairTerms(p: int, e: Ext, f: Ext, a: Affine, b: Affine)
    requires p > 0
    requires Zero(e.x - a.x * e.z, p) && Zero(e.y - a.y * e.z, p) && Zero(f.x - b.x * f.z, p) && Zero(f.y - b.y * f.z, p)
    ensures Zero((e.y - e.x) * (f.y - f.x) - (a.y - a.x) * (b.y - b.x) * (e.z * f.z), p)
    ensures Zero((e.y + e.x) * (f.y + f.x) - (a.y + a.x) * (b.y + b.x) * (e.z * f.z), p)
  {
    hide Zero;
    PairMinus(p, e, f, a, b);
    PairPlus(p, e, f, a, b);
  }

  lemma PairMinus(p: int, e: Ext, f: Ext, a: Affine, b: Affine)
    requires p > 0
    requires Zero(e.x - a.x * e.z, p) && Zero(e.y - a.y * e.z, p) && Zero(f.x - b.x * f.z, p) && Zero(f.y - b.y * f.z, p)
    ensures Zero((e.y - e.x) * (f.y - f.x) - (a.y - a.x) * (b.y - b.x) * (e.z * f.z), p)
  {
    hide Zero;
    PairTerm(p, e.x, e.y, e.z, a.x, a.y);
    PairTerm(p, f.x, f.y, f.z, b.x, b.y);
    ScaledProduct(p, e.y - e.x, a.y - a.x, e.z, f.y - f.x, b.y - b.x, f.z);
  }

  lemma PairPlus(p: int, e: Ext, f: Ext, a: Affine, b: Affine)
    requires p > 0
    requires Zero(e.x - a.x * e.z, p) && Zero(e.y - a.y * e.z, p) && Zero(f.x - b.x * f.z, p) && Zero(f.y - b.y * f.z, p)
    ensures Zero((e.y + e.x) * (f.y + f.x) - (a.y + a.x) * (b.y + b.x) * (e.z * f.z), p)
  {
    hide Zero;
    PairTerm(p, e.x, e.y, e.z, a.x, a.y);
    PairTerm(p, f.x, f.y, f.z, b.x, b.y);
    ScaledProduct(p, e.y + e.x, a.y + a.x, e.z, f.y + f.x, b.y + b.x, f.z);
  }

  lemma PairTerm(p: int, ex: int, ey: int, z: int, x: int, y: int)
    requires p > 0 && Zero(ex - x * z, p) && Zero(ey - y * z, p)
    ensures Zero(ey - ex - (y - x) * z, p) && Zero(ey + ex - (y + x) * z, p)
  {
    hide Zero;
    Combine(1, ey - y * z, -1, ex - x * z, p);
    Combine(1, ey - y * z, 1, ex - x * z, p);
    DifferenceScaled(x, y, z, ex, ey);
  }

  lemma CrossTerm(c: Curve, e: Ext, f: Ext, a: Affine, b: Affine)
    requires Zero(e.t - a.x * a.y * e.z, c.p) && Zero(f.t - b.x * b.y * f.z, c.p)
    ensures Zero(2 * e.t * f.t * c.d - 2 * Cross(c, a, b) * (e.z * f.z), c.p)
  {
    hide Zero;
    ScaledProduct(c.p, e.t, a.x * a.y, e.z, f.t, b.x * b.y, f.z);
    Scale(2 * c.d, e.t * f.t - a.x * a.y * (b.x * b.y) * (e.z * f.z), c.p);
    CrossScaled(c.d, e.t, f.t, a.x * a.y, b.x * b.y, e.z * f.z);
  }

  lemma SumAndDifference(p: int, u: int, v: int, u': int, v': int)
    requires p > 0 && Zero(u - u', p) && Zero(v - v', p)
    ensures Zero(v % p - u % p - (v' - u'), p)
    ensures Zero(v % p + u % p - (v' + u'), p)
  {
    hide Zero;
    Residue(u, p);
    Residue(v, p);
    Chain(u % p, u, u', p);
    Chain(v % p, v, v', p);
    Combine(1, v % p - v', -1, u % p - u', p);
    Combine(1, v % p - v', 1, u % p - u', p);
  }

  lemma DifferenceScaled(x: int, y: int, z: int, ex: int, ey: int)
    ensures 1 * (ey - y * z) + -1 * (ex - x * z) == ey - ex - (y - x) * z
    ensures 1 * (ey - y * z) + 1 * (ex - x * z) == ey + ex - (y + x) * z
  {
  }

  lemma CrossScaled(d: int, t: int, t': int, m1: int, m2: int, z: int)
    ensures 2 * d * (t * t' - m1 * m2 * z) == 2 * t * t' * d - 2 * (d * m1 * m2) * z
  {
    var w := m1 * m2;
    assert d * m1 * m2 == d * w;
    CrossScaledCore(d, t * t', w, z);
    assert 2 * t * t' * d == 2 * d * (t * t');
  }

  lemma CrossScaledCore(d: int, u: int, w: int, z: int)
    ensures 2 * d * (u - w * z) == 2 * d * u - 2 * (d * w) * z
  {
  }

  lemma NumeratorsScaled(x1: int, y1: int, x2: int, y2: int, z: int)
    ensures (y1 + x1) * (y2 + x2) * z - (y1 - x1) * (y2 - x2) * z == (x1 * y2 + x2 * y1) * (2 * z)
    ensures (y1 + x1) * (y2 + x2) * z + (y1 - x1) * (y2 - x2) * z == (y1 * y2 + x1 * x2) * (2 * z)
  {
    assert (y1 + x1) * (y2 + x2) == y1 * y2 + y1 * x2 + x1 * y2 + x1 * x2;
    assert (y1 - x1) * (y2 - x2) == y1 * y2 - y1 * x2 - x1 * y2 + x1 * x2;
    NumeratorsLinear(y1 * y2, y1 * x2, x1 * y2, x1 * x2, z);
    assert y1 * x2 == x2 * y1;
  }

  lemma NumeratorsLinear(a: int, b: int, c: int, e: int, z: int)
    ensures (a + b + c + e) * z - (a - b - c + e) * z == (c + b) * (2 * z)
    ensures (a + b + c + e) * z + (a - b - c + e) * z == (a + e) * (2 * z)
  {
  }

  /** The four products of _add stand for the fractions nx / u and ny / v of the affine law. */
  lemma AddProducts(p: int, w: int, e: int, f: int, g: int, h: int, nx: int, ny: int, u: int, v: int, x: int, y: int)
    requires Prime(p) && !Zero(w, p) && !Zero(u, p) && !Zero(v, p)
    requires Zero(e - nx * w, p) && Zero(f - v * w, p) && Zero(g - u * w, p) && Zero(h - ny * w, p)
    requires Zero(u * x - nx, p) && Zero(v * y - ny, p)
    ensures !Zero(f * g % p, p)
    ensures Zero(e * f % p - x * (f * g % p), p)
    ensures Zero(g * h % p - y * (f * g % p), p)
    ensures Zero(e * h % p - x * y * (f * g % p), p)
  {
    hide Zero;
    var ww := w * w;
    ScaledProduct(p, e, nx, w, f, v, w);
    ScaledProduct(p, g, u, w, h, ny, w);
    ScaledProduct(p, f, v, w, g, u, w);
    ScaledProduct(p, e, nx, w, h, ny, w);
    DenominatorNonzero(p, f * g, v, u, w);
    ProductTerms(p, ww, nx, ny, u, v, x, y);
    Coordinate(p, e * f, nx * v * ww, f * g, v * u * ww, x);
    Coordinate(p, g * h, u * ny * ww, f * g, v * u * ww, y);
    Coordinate(p, e * h, nx * ny * ww, f * g, v * u * ww, x * y);
  }

  lemma DenominatorNonzero(p: int, z: int, v: int, u: int, w: int)
    requires Prime(p) && !Zero(w, p) && !Zero(u, p) && !Zero(v, p) && Zero(z - v * u * (w * w), p)
    ensures !Zero(z % p, p)
  {
    hide Zero;
    NonzeroProduct(v, u, p);
    NonzeroProduct(w, w, p);
    NonzeroProduct(v * u, w * w, p);
    Replace(z, v * u * (w * w), p);
    Residue(z, p);
    Replace(z % p, z, p);
  }

  lemma ProductTerms(p: int, ww: int, nx: int, ny: int, u: int, v: int, x: int, y: int)
    requires p > 0 && Zero(u * x - nx, p) && Zero(v * y - ny, p)
    ensures Zero(x * (v * u * ww) - nx * v * ww, p)
    ensures Zero(y * (v * u * ww) - u * ny * ww, p)
    ensures Zero(x * y * (v * u * ww) - nx * ny * ww, p)
  {
    hide Zero;
    Scale(v * ww, u * x - nx, p);
    Scale(u * ww, v * y - ny, p);
    Product(u * x, nx, v * y, ny, p);
    Scale(ww, (u * x) * (v * y) - nx * ny, p);
    TermIdentity(v, ww, u, x, nx);
    TermIdentity(u, ww, v, y, ny);
    assert v * u == u * v;
    ProductIdentity(ww, u, x, v, y, nx * ny);
  }

  lemma TermIdentity(v: int, ww: int, u: int, x: int, nx: int)
    ensures v * ww * (u * x - nx) == x * (v * u * ww) - nx * v * ww
    ensures v * ww * (u * x - nx) == x * (u * v * ww) - v * nx * ww
  {
    assert v * ww * (u * x) == x * (v * u * ww);
    assert u * v * ww == v * u * ww;
    assert v * ww * nx == nx * v * ww == v * nx * ww;
    assert v * ww * (u * x - nx) == v * ww * (u * x) - v * ww * nx;
  }

  lemma ProductIdentity(ww: int, u: int, x: int, v: int, y: int, n: int)
    ensures ww * ((u * x) * (v * y) - n) == x * y * (v * u * ww) - n * ww
  {
    Reorder(u, x, v, y);
    var m, q := u * v, x * y;
    assert y * x == q;
    assert ww * (m * q - n) == q * (m * ww) - n * ww;
    assert v * u == m;
  }

  /** A product reduced modulo p, compared with x times the reduced Z coordinate. */
  lemma Coordinate(p: int, n: int, n': int, z: int, z': int, x: int)
    requires p > 0 && Zero(n - n', p) && Zero(z - z', p) && Zero(x * z' - n', p)
    ensures Zero(n % p - x * (z % p), p)
  {
    hide Zero;
    Residue(n, p);
    Residue(z, p);
    Chain(n % p, n, n', p);
    Chain(z % p, z, z', p);
    ReducedCoordinate(p, n % p, n', z % p, z', x);
  }

  lemma ReducedCoordinate(p: int, n: int, n': int, z: int, z': int, x: int)
    requires p > 0 && Zero(n - n', p) && Zero(z - z', p) && Zero(x * z' - n', p)
    ensures Zero(n - x * z, p)
  {
    hide Zero;
    Scale(x, z - z', p);
    assert x * (z - z') == x * z - x * z';
    Chain(x * z, x * z', n', p);
    Combine(1, n - n', -1, x * z - n', p);
  }

  /** _add computes the affine sum, whatever the Z coordinates of its operands. */
  lemma AddCorrect(c: Curve, e: Ext, f: Ext, a: Affine, b: Affine)
    requires Complete(c) && On(c, a) && On(c, b) && Represents(c, e, a) && Represents(c, f, b)
    ensures Represents(c, Add(c, e, f), Sum(c, a, b)) && On(c, Sum(c, a, b))
  {
    hide Sum, Zero;
    var p, w, k, s := c.p, 2 * (e.z * f.z), Cross(c, a, b), Sum(c, a, b);
    var aa, bb := (e.y - e.x) * (f.y - f.x) % p, (e.y + e.x) * (f.y + f.x) % p;
    var cc, dd := 2 * e.t * f.t * c.d % p, 2 * e.z * f.z % p;
    SumOn(c, a, b);
    SumSolves(c, a, b);
    AddIntermediates(c, e, f, a, b);
    if Zero(w, p) {
      Half(e.z * f.z, p);
      Euclid(e.z, f.z, p);
    }
    AddProducts(p, w, bb - aa, dd - cc, dd + cc, bb + aa, NumX(a, b), NumY(a, b), 1 + k, 1 - k, s.x, s.y);
  }

  /** What _add keeps of its operands' shape: X Y = Z T. */
  lemma AddKeepsXYZT(c: Curve, e: Ext, f: Ext)
    ensures var r := Add(c, e, f); Zero(r.x * r.y - r.z * r.t, c.p)
  {
    hide Zero;
    var p := c.p;
    var aa, bb := (e.y - e.x) * (f.y - f.x) % p, (e.y + e.x) * (f.y + f.x) % p;
    var cc, dd := 2 * e.t * f.t * c.d % p, 2 * e.z * f.z % p;
    KeepsXYZT(p, bb - aa, dd - cc, dd + cc, bb + aa);
  }

  lemma KeepsXYZT(p: int, e: int, f: int, g: int, h: int)
    requires p > 0
    ensures Zero((e * f % p) * (g * h % p) - (f * g % p) * (e * h % p), p)
  {
    hide Zero;
    Residue(e * f, p);
    Residue(g * h, p);
    Residue(f * g, p);
    Residue(e * h, p);
    Product(e * f % p, e * f, g * h % p, g * h, p);
    Product(f * g % p, f * g, e * h % p, e * h, p);
    KeepsIdentity(e, f, g, h);
    Combine(1, (e * f % p) * (g * h % p) - (e * f) * (g * h), -1, (f * g % p) * (e * h % p) - (f * g) * (e * h), p);
  }

  lemma KeepsIdentity(e: int, f: int, g: int, h: int)
    ensures (e * f) * (g * h) == (f * g) * (e * h)
  {
  }

  /** _equal decides whether two extended points stand for the same affine point. */
  lemma EqualCorrect(c: Curve, e: Ext, f: Ext, a: Affine, b: Affine)
    requires Prime(c.p) && On(c, a) && On(c, b) && Represents(c, e, a) && Represents(c, f, b)
    ensures Equal(c, e, f) <==> a == b
  {
    hide Zero;
    CrossEqual(c.p, e.x, a.x, e.z, f.x, b.x, f.z);
    CrossEqual(c.p, e.y, a.y, e.z, f.y, b.y, f.z);
  }

  lemma CrossEqual(p: int, u: int, x: int, z: int, u': int, x': int, z': int)
    requires Prime(p) && !Zero(z, p) && !Zero(z', p) && Zero(u - x * z, p) && Zero(u' - x' * z', p)
    requires 0 <= x < p && 0 <= x' < p
    ensures (u * z' - u' * z) % p == 0 <==> x == x'
  {
    CrossZero(p, u, x, z, u', x', z');
    assert Zero(u * z' - u' * z, p) <==> (u * z' - u' * z) % p == 0;
  }

  lemma CrossZero(p: int, u: int, x: int, z: int, u': int, x': int, z': int)
    requires Prime(p) && !Zero(z, p) && !Zero(z', p) && Zero(u - x * z, p) && Zero(u' - x' * z', p)
    requires 0 <= x < p && 0 <= x' < p
    ensures Zero(u * z' - u' * z, p) <==> x == x'
  {
    hide Zero;
    Combine(z', u - x * z, -z, u' - x' * z', p);
    CrossIdentity(u, x, z, u', x', z');
    Replace(u * z' - u' * z, (z * z') * (x - x'), p);
    CrossFactors(p, z, z', x, x', z * z');
  }

  lemma CrossFactors(p: int, z: int, z': int, x: int, x': int, zz: int)
    requires Prime(p) && !Zero(z, p) && !Zero(z', p) && zz == z * z' && 0 <= x < p && 0 <= x' < p
    ensures Zero(zz * (x - x'), p) <==> x == x'
  {
    hide Zero, Prime;
    if Zero(zz * (x - x'), p) {
      Euclid(zz, x - x', p);
      if Zero(zz, p) {
        Euclid(z, z', p);
      }
      Canonical(x, x', p);
    } else if x == x' {
      Multiple(0, p);
    }
  }

  lemma CrossIdentity(u: int, x: int, z: int, u': int, x': int, z': int)
    ensures z' * (u - x * z) + -z * (u' - x' * z') == u * z' - u' * z - (z * z') * (x - x')
  {
    assert z' * (x * z) == (z * z') * x;
    assert z * (x' * z') == (z * z') * x';
  }

  // ---- multiples ----

  /** The n-fold sum of a. */
  ghost function Times(c: Curve, n: nat, a: Affine): Affine {
    if n == 0 then Neutral else Sum(c, a, Times(c, n - 1, a))
  }

  lemma {:induction false} TimesOn(c: Curve, n: nat, a: Affine)
    requires Complete(c) && On(c, a)
    ensures On(c, Times(c, n, a))
  {
    hide Sum, On;
    if n == 0 {
      NeutralOn(c);
    } else {
      TimesOn(c, n - 1, a);
      SumOn(c, a, Times(c, n - 1, a));
    }
  }

  lemma {:induction false} TimesAdd(c: Curve, m: nat, n: nat, a: Affine)
    requires Complete(c) && On(c, a)
    ensures Times(c, m + n, a) == Sum(c, Times(c, m, a), Times(c, n, a))
    decreases m
  {
    hide Sum, On;
    TimesOn(c, n, a);
    if m == 0 {
      SumNeutral(c, Times(c, n, a));
    } else {
      TimesAdd(c, m - 1, n, a);
      TimesOn(c, m - 1, a);
      SumAssociates(c, a, Times(c, m - 1, a), Times(c, n, a));
    }
  }

  lemma {:induction false} TimesTimes(c: Curve, m: nat, n: nat, a: Affine)
    requires Complete(c) && On(c, a)
    ensures m * n >= 0
    ensures Times(c, m, Times(c, n, a)) == Times(c, m * n, a)
    decreases m
  {
    hide Sum, On;
    if m > 0 {
      TimesTimes(c, m - 1, n, a);
      assert m * n == n + (m - 1) * n;
      TimesAdd(c, n, (m - 1) * n, a);
    }
  }

  /** The loop of _mul from the state (r, pt, s): double-and-add from the least significant bit. */
  function MulFrom(c: Curve, r: Ext, pt: Ext, s: int): Ext
    decreases s
  {
    if s <= 0 then r
    else MulFrom(c, if s % 2 == 1 then Add(c, r, pt) else r, Add(c, pt, pt), s / 2)
  }

  /** _mul */
  function Mul(c: Curve, s: int, pt: Ext): Ext {
    MulFrom(c, ExtNeutral, pt, s)
  }

  /** _mul as the source writes it: a loop over three variables. */
  method MulLoop(c: Curve, s0: int, pt0: Ext) returns (r: Ext)
    ensures r == Mul(c, s0, pt0)
  {
    var s, pt := s0, pt0;
    r := ExtNeutral;
    while s > 0
      invariant MulFrom(c, r, pt, s) == Mul(c, s0, pt0)
    {
      if s % 2 == 1 {
        r := Add(c, r, pt);
      }
      pt := Add(c, pt, pt);
      s := s / 2;
    }
  }

  lemma {:induction false} MulFromCorrect(c: Curve, r: Ext, pt: Ext, s: nat, b: Affine, a: Affine)
    requires Complete(c) && On(c, a) && On(c, b) && Represents(c, r, b) && Represents(c, pt, a)
    ensures Represents(c, MulFrom(c, r, pt, s), Sum(c, b, Times(c, s, a)))
    decreases s
  {
    hide Sum, On, Add, Represents, Complete;
    if s == 0 {
      SumNeutral(c, b);
    } else {
      var h := s / 2;
      AddCorrect(c, r, pt, b, a);
      AddCorrect(c, pt, pt, a, a);
      TimesOn(c, 2 * h, a);
      SumNeutral(c, a);
      assert Times(c, 2, a) == Sum(c, a, Times(c, 1, a));
      TimesOne(c, a);
      TimesTimes(c, h, 2, a);
      if s % 2 == 1 {
        MulFromCorrect(c, Add(c, r, pt), Add(c, pt, pt), h, Sum(c, b, a), Sum(c, a, a));
        SumAssociates(c, b, a, Times(c, 2 * h, a));
        assert Times(c, s, a) == Sum(c, a, Times(c, 2 * h, a));
      } else {
        MulFromCorrect(c, r, Add(c, pt, pt), h, b, Sum(c, a, a));
      }
    }
  }

  lemma ExtNeutralRepresents(c: Curve)
    ensures Represents(c, ExtNeutral, Neutral)
  {
    Multiple(0, c.p);
    if Zero(1, c.p) {
      Small(1, c.p);
    }
  }

  /** _mul(s, pt) is the s-fold sum of pt, for every s >= 0 and every representation of the point. */
  lemma MulCorrect(c: Curve, s: nat, pt: Ext, a: Affine)
    requires Complete(c) && On(c, a) && Represents(c, pt, a)
    ensures Represents(c, Mul(c, s, pt), Times(c, s, a)) && On(c, Times(c, s, a))
  {
    hide Sum, On, Represents, MulFrom;
    ExtNeutralRepresents(c);
    NeutralOn(c);
    MulFromCorrect(c, ExtNeutral, pt, s, Neutral, a);
    TimesOn(c, s, a);
    SumNeutral(c, Times(c, s, a));
  }

  // ---- the order of a point ----

  lemma {:induction false} TimesOfNeutral(c: Curve, n: nat)
    requires Complete(c)
    ensures Times(c, n, Neutral) == Neutral
  {
    hide Sum, On, Complete;
    if n > 0 {
      TimesOfNeutral(c, n - 1);
      NeutralOn(c);
      SumNeutral(c, Neutral);
    }
  }

  /** Multiples of a point of order q only depend on the factor modulo q. */
  lemma TimesModulo(c: Curve, n: nat, q: nat, a: Affine)
    requires Complete(c) && On(c, a) && q > 0 && Times(c, q, a) == Neutral
    ensures Times(c, n, a) == Times(c, n % q, a)
  {
    hide Sum, On, Complete;
    var k := n / q;
    TimesTimes(c, k, q, a);
    TimesOfNeutral(c, k);
    assert n == k * q + n % q;
    TimesAdd(c, k * q, n % q, a);
    TimesOn(c, n % q, a);
    SumNeutral(c, Times(c, n % q, a));
  }

  lemma TimesOne(c: Curve, a: Affine)
    requires Complete(c) && On(c, a)
    ensures Times(c, 1, a) == a
  {
    SumNeutral(c, a);
    assert Times(c, 1, a) == Sum(c, a, Times(c, 0, a));
  }

  /** A point with a prime multiple at the neutral point has exactly that order, unless it is the neutral point. */
  lemma {:induction false} ExactOrder(c: Curve, n: nat, q: nat, a: Affine)
    requires Complete(c) && On(c, a) && Prime(q) && Times(c, q, a) == Neutral && a != Neutral
    requires 0 < n < q
    ensures Times(c, n, a) != Neutral
    decreases n
  {
    hide Sum, On, Complete;
    if Times(c, n, a) == Neutral {
      if n == 1 {
        TimesOne(c, a);
      } else {
        assert !Divides(n, q);
        TimesModulo(c, q, n, a);
        ExactOrder(c, q % n, q, a);
      }
    }
  }

  /** Different factors below the order give different multiples. */
  lemma TimesInjective(c: Curve, m: nat, n: nat, q: nat, a: Affine)
    requires Complete(c) && On(c, a) && Prime(q) && Times(c, q, a) == Neutral && a != Neutral
    requires m < q && n < q && Times(c, m, a) == Times(c, n, a)
    ensures m == n
  {
    hide Sum, On, Complete, Negate, Prime, Divides;
    if m != n {
      var lo, hi := if m < n then m else n, if m < n then n else m;
      var l, k := Times(c, lo, a), Times(c, hi - lo, a);
      TimesOn(c, lo, a);
      TimesOn(c, hi - lo, a);
      TimesAdd(c, hi - lo, lo, a);
      NegateOn(c, l);
      SumAssociates(c, k, l, Negate(c, l));
      SumNegate(c, l);
      SumNeutral(c, k);
      ExactOrder(c, hi - lo, q, a);
    }
  }
}
