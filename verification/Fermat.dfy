/** Fermat's little theorem, and what the code derives from it: inverses by powering, a square root of -1, and square
    roots modulo a prime that is 5 modulo 8. */
module Fermat {
  import opened Modular

  // ---- products over finite sets ----

  ghost function Pick<T>(s: set<T>): (a: T)
    requires s != {}
    ensures a in s
  {
    var a :| a in s;
    a
  }

  ghost function Prod(s: set<int>): int {
    if s == {} then 1 else Pick(s) * Prod(s - {Pick(s)})
  }

  lemma {:induction false} ProdRemove(s: set<int>, a: int)
    requires a in s
    ensures Prod(s) == a * Prod(s - {a})
    decreases |s|
  {
    var b := Pick(s);
    if a != b {
      ProdRemove(s - {b}, a);
      assert s - {b} - {a} == s - {a} - {b};
      ProdRemove(s - {a}, b);
      assert b * (a * Prod(s - {a} - {b})) == a * (b * Prod(s - {a} - {b}));
    }
  }

  ghost predicate Within(s: set<int>, p: int) {
    forall r :: r in s ==> 0 < r < p
  }

  /** The set of the residues 1 .. p - 1. */
  lemma {:induction false} AllResidues(p: int) returns (s: set<int>)
    requires p >= 1
    ensures forall r :: r in s <==> 0 < r < p
    ensures |s| == p - 1
    decreases p
  {
    if p == 1 {
      s := {};
    } else {
      s := AllResidues(p - 1);
      s := s + {p - 1};
    }
  }

  lemma {:induction false} ProdNonzero(s: set<int>, p: int)
    requires Prime(p) && Within(s, p)
    ensures !Zero(Prod(s), p)
    decreases |s|
  {
    if s == {} {
      assert 1 % p == 1;
    } else {
      var a := Pick(s);
      ProdNonzero(s - {a}, p);
      assert 0 < a < p;
      if Zero(a, p) {
        Small(a, p);
      }
      if Zero(Prod(s), p) {
        Euclid(a, Prod(s - {a}), p);
      }
    }
  }

  // ---- Fermat ----

  ghost function Image(s: set<int>, x: int, p: int): set<int>
    requires p > 0
  {
    set r | r in s :: x * r % p
  }

  lemma Injective(x: int, r: int, r': int, p: int)
    requires Prime(p) && !Zero(x, p) && 0 < r < p && 0 < r' < p && x * r % p == x * r' % p
    ensures r == r'
  {
    SameResidue(x * r, x * r', p);
    Cancel(x, r, r', p);
    Canonical(r, r', p);
  }

  lemma InResidues(x: int, r: int, p: int)
    requires Prime(p) && !Zero(x, p) && 0 < r < p
    ensures 0 < x * r % p < p
  {
    if x * r % p == 0 {
      Euclid(x, r, p);
      Small(r, p);
    }
  }

  /** Taking one element out of a set takes its image, and nothing else, out of the image. */
  lemma ImageStep(s: set<int>, a: int, x: int, p: int)
    requires Prime(p) && !Zero(x, p) && Within(s, p) && a in s
    ensures var b, rest := x * a % p, Image(s - {a}, x, p);
            0 < b < p && b !in rest && Image(s, x, p) == rest + {b}
  {
    hide Zero, Divides;
    var rest, b := s - {a}, x * a % p;
    InResidues(x, a, p);
    if b in Image(rest, x, p) {
      var r :| r in rest && b == x * r % p;
      Injective(x, r, a, p);
    }
    assert s == rest + {a};
  }

  /** Multiplying a set of residues by x keeps its size and multiplies its product by a power of x. */
  lemma {:induction false} ImageProduct(s: set<int>, x: int, p: int)
    requires Prime(p) && !Zero(x, p) && Within(s, p)
    ensures |Image(s, x, p)| == |s|
    ensures Within(Image(s, x, p), p)
    ensures Zero(Prod(Image(s, x, p)) - Pow(x, |s|) * Prod(s), p)
    decreases |s|
  {
    if s == {} {
      assert Image(s, x, p) == {};
      Multiple(0, p);
    } else {
      hide Zero, Divides, Image, Pow;
      var a := Pick(s);
      var rest, b := s - {a}, x * a % p;
      ImageStep(s, a, x, p);
      ImageProduct(rest, x, p);
      assert Image(s, x, p) - {b} == Image(rest, x, p);
      ProdRemove(Image(s, x, p), b);
      PowNext(x, |rest|);
      ProductStep(x, a, Pow(x, |rest|), Prod(rest), Prod(Image(rest, x, p)), p);
    }
  }

  lemma ProductStep(x: int, a: int, w: int, r: int, m: int, p: int)
    requires p > 0 && Zero(m - w * r, p)
    ensures Zero((x * a % p) * m - (x * w) * (a * r), p)
  {
    hide Zero;
    Residue(x * a, p);
    Product(x * a % p, x * a, m, w * r, p);
    FactorsCommute(x, a, w, r);
  }

  lemma FactorsCommute(x: int, a: int, u: int, v: int)
    ensures (x * a) * (u * v) == (x * u) * (a * v)
  {
  }

  /** Fermat's little theorem. */
  lemma FermatLittle(x: int, p: int)
    requires Prime(p) && !Zero(x, p)
    ensures Zero(Pow(x, p - 1) - 1, p)
  {
    hide Zero;
    var s := AllResidues(p);
    ImageProduct(s, x, p);
    SubsetOfSameSize(Image(s, x, p), s);
    ProdNonzero(s, p);
    assert Prod(s) - Pow(x, p - 1) * Prod(s) == Prod(s) * 1 - Prod(s) * Pow(x, p - 1);
    Cancel(Prod(s), 1, Pow(x, p - 1), p);
    Replace(1, Pow(x, p - 1), p);
  }

  lemma {:induction false} SubsetOfSameSize(a: set<int>, b: set<int>)
    requires a <= b && |a| == |b|
    ensures a == b
  {
    assert b == a + (b - a);
    assert |b - a| == 0;
  }

  // ---- inverses ----

  /** The source's _inv: pow(x, P - 2, P). */
  function Inv(x: int, p: int): int
    requires p >= 2
  {
    Pow(x, p - 2) % p
  }

  /** x * _inv(x) is 1 for every x that is not zero modulo P, and _inv(0) is 0. */
  lemma InverseCorrect(x: int, p: int)
    requires Prime(p)
    ensures 0 <= Inv(x, p) < p
    ensures !Zero(x, p) ==> Zero(x * Inv(x, p) - 1, p) && !Zero(Inv(x, p), p)
    ensures Zero(x, p) && p > 2 ==> Inv(x, p) == 0
  {
    Residue(Pow(x, p - 2), p);
    if !Zero(x, p) {
      FermatLittle(x, p);
      Scale(x, Inv(x, p) - Pow(x, p - 2), p);
      assert x * (Inv(x, p) - Pow(x, p - 2)) == x * Inv(x, p) - Pow(x, p - 1);
      Chain(x * Inv(x, p), Pow(x, p - 1), 1, p);
      if Zero(Inv(x, p), p) {
        Scale(x, Inv(x, p), p);
        Replace(x * Inv(x, p), 1, p);
        Small(1, p);
      }
    } else if p > 2 {
      PowZero(x, p - 2, p);
    }
  }

  // ---- a square root of -1 ----

  ghost function Factorial(n: nat): int {
    if n == 0 then 1 else n * Factorial(n - 1)
  }

  /** 2 * 4 * ... * 2n */
  ghost function Evens(n: nat): int {
    if n == 0 then 1 else 2 * n * Evens(n - 1)
  }

  /** 1 * 3 * ... * (2n - 1) */
  ghost function Odds(n: nat): int {
    if n == 0 then 1 else (2 * n - 1) * Odds(n - 1)
  }

  /** The i largest factors of Evens(n). */
  ghost function Top(n: nat, i: nat): int
    requires i <= n
  {
    if i == 0 then 1 else Top(n, i - 1) * (2 * (n + 1 - i))
  }

  lemma {:induction false} EvensIsPower(n: nat)
    ensures Evens(n) == Pow(2, n) * Factorial(n)
  {
    if n > 0 {
      EvensIsPower(n - 1);
      FactorsCommute(2, n, Pow(2, n - 1), Factorial(n - 1));
    }
  }

  lemma {:induction false} EvensOdds(h: nat)
    ensures Evens(h) * Odds(h) == Factorial(2 * h)
  {
    if h > 0 {
      EvensOdds(h - 1);
      FactorsCommute(2 * h, 2 * h - 1, Evens(h - 1), Odds(h - 1));
      assert Factorial(2 * h) == 2 * h * ((2 * h - 1) * Factorial(2 * h - 2));
      assert 2 * h * ((2 * h - 1) * Factorial(2 * h - 2)) == (2 * h * (2 * h - 1)) * Factorial(2 * h - 2);
    }
  }

  lemma {:induction false} EvensSplit(n: nat, i: nat)
    requires i <= n
    ensures Evens(n) == Evens(n - i) * Top(n, i)
    decreases i
  {
    if i > 0 {
      EvensSplit(n, i - 1);
      LastFactors(n, i);
      hide Evens, Top;
      ThreeFactors(2 * (n + 1 - i), Evens(n - i), Top(n, i - 1));
    }
  }

  lemma LastFactors(n: nat, i: nat)
    requires 0 < i <= n
    ensures Evens(n - (i - 1)) == 2 * (n + 1 - i) * Evens(n - i)
    ensures Top(n, i) == Top(n, i - 1) * (2 * (n + 1 - i))
  {
    assert n - (i - 1) == n + 1 - i;
  }

  lemma ThreeFactors(f: int, e: int, t: int)
    ensures (f * e) * t == e * (t * f)
  {
  }

  ghost function Sign(i: nat): int {
    if i % 2 == 0 then 1 else -1
  }

  /** Modulo p = 2n + 1 the i largest even factors are the i smallest odd numbers, negated. */
  lemma {:induction false} TopIsNegatedOdds(n: nat, i: nat, p: int)
    requires p == 2 * n + 1 && i <= n
    ensures Zero(Top(n, i) - Sign(i) * Odds(i), p)
    decreases i
  {
    hide Zero;
    if i == 0 {
      Multiple(0, p);
    } else {
      TopIsNegatedOdds(n, i - 1, p);
      var f, g := 2 * (n + 1 - i), -(2 * i - 1);
      Multiple(1, p);
      assert f - g == 1 * p;
      TopStep(Top(n, i - 1), Sign(i - 1), Odds(i - 1), f, 2 * i - 1, p);
      assert Sign(i) == -Sign(i - 1);
    }
  }

  lemma TopStep(t: int, s: int, o: int, f: int, k: int, p: int)
    requires p > 0 && Zero(t - s * o, p) && Zero(f - -k, p)
    ensures Zero(t * f - (-s) * (k * o), p)
  {
    hide Zero;
    Product(t, s * o, f, -k, p);
    SignIdentity(s, o, k);
  }

  lemma SignIdentity(s: int, o: int, k: int)
    ensures s * o * (-k) == (-s) * (k * o)
  {
  }

  lemma {:induction false} FactorialNonzero(n: nat, p: int)
    requires Prime(p) && n < p
    ensures !Zero(Factorial(n), p)
  {
    if n == 0 {
      assert 1 % p == 1;
    } else {
      FactorialNonzero(n - 1, p);
      if Zero(n, p) {
        Small(n, p);
      }
      if Zero(Factorial(n), p) {
        Euclid(n, Factorial(n - 1), p);
      }
    }
  }

  /** 2 is not a square modulo a prime that is 5 modulo 8: 2^((p-1)/2) is -1. */
  lemma TwoToTheHalf(p: int)
    requires Prime(p) && p % 8 == 5
    ensures Zero(Pow(2, (p - 1) / 2) + 1, p)
  {
    hide Zero, Pow, Factorial, Evens, Odds, Top;
    var n := (p - 1) / 2;
    var h := n / 2;
    var f := Factorial(n);
    EvensIsPower(n);
    EvensSplit(n, h);
    TopIsNegatedOdds(n, h, p);
    EvensOdds(h);
    assert n == 2 * h && h % 2 == 1 && Sign(h) == -1;
    Scale(Evens(h), Top(n, h) - Sign(h) * Odds(h), p);
    assert Evens(h) * (Top(n, h) - (-1) * Odds(h)) == Evens(h) * Top(n, h) + Evens(h) * Odds(h);
    assert Pow(2, n) * f + f == f * (Pow(2, n) + 1);
    FactorialNonzero(n, p);
    Euclid(f, Pow(2, n) + 1, p);
  }

  /** The source's _SQRT_M1: pow(2, (P - 1) // 4, P). */
  function SqrtM1(p: int): int
    requires p >= 2
  {
    Pow(2, (p - 1) / 4) % p
  }

  lemma SqrtM1Correct(p: int)
    requires Prime(p) && p % 8 == 5
    ensures Zero(SqrtM1(p) * SqrtM1(p) + 1, p)
    ensures 0 <= SqrtM1(p) < p
  {
    hide Zero, Pow;
    var e := (p - 1) / 4;
    var c, r := Pow(2, e), SqrtM1(p);
    Residue(c, p);
    ReducedSquare(c, p);
    TwoToTheHalf(p);
    PowDouble(2, e);
    assert (p - 1) / 2 == 2 * e;
    Combine(1, r * r - c * c, 1, c * c + 1, p);
  }

  // ---- square roots ----

  /** The candidate the source tries first: pow(x2, (P + 3) // 8, P). Its square is x2 or -x2 whenever x2 is a square. */
  lemma RootOfSquare(w: int, x2: int, p: int)
    requires Prime(p) && p % 8 == 5 && Zero(w * w - x2, p)
    ensures var c := Pow(x2, (p + 3) / 8) % p; Zero(c * c - x2, p) || Zero(c * c + x2, p)
  {
    hide Zero, Pow;
    var c, s := Pow(x2, (p + 3) / 8) % p, Pow(x2, (p - 1) / 4);
    CandidateSquare(x2, p);
    if Zero(w, p) {
      RootOfZero(w, x2, s, c * c, p);
    } else {
      RootSign(w, x2, s, p);
      RootOfUnit(x2, s, c * c, p);
    }
  }

  lemma RootOfZero(w: int, x2: int, s: int, cc: int, p: int)
    requires p > 0 && Zero(w, p) && Zero(w * w - x2, p) && Zero(cc - x2 * s, p)
    ensures Zero(cc - x2, p)
  {
    hide Zero;
    Scale(w, w, p);
    Replace(w * w, x2, p);
    Combine(1, cc - x2 * s, s - 1, x2, p);
    assert 1 * (cc - x2 * s) + (s - 1) * x2 == cc - x2;
  }

  lemma RootOfUnit(x2: int, s: int, cc: int, p: int)
    requires p > 0 && Zero(cc - x2 * s, p) && (Zero(s - 1, p) || Zero(s + 1, p))
    ensures Zero(cc - x2, p) || Zero(cc + x2, p)
  {
    hide Zero;
    if Zero(s - 1, p) {
      Combine(1, cc - x2 * s, x2, s - 1, p);
      assert 1 * (cc - x2 * s) + x2 * (s - 1) == cc - x2;
    } else {
      Combine(1, cc - x2 * s, x2, s + 1, p);
      assert 1 * (cc - x2 * s) + x2 * (s + 1) == cc + x2;
    }
  }

  lemma CandidateSquare(x2: int, p: int)
    requires Prime(p) && p % 8 == 5
    ensures var c := Pow(x2, (p + 3) / 8) % p; Zero(c * c - x2 * Pow(x2, (p - 1) / 4), p)
  {
    hide Zero;
    var e := (p + 3) / 8;
    var r := Pow(x2, e);
    PowDouble(x2, e);
    assert 2 * e == (p - 1) / 4 + 1;
    ReducedSquare(r, p);
  }

  lemma ReducedSquare(r: int, p: int)
    requires p > 0
    ensures Zero((r % p) * (r % p) - r * r, p)
  {
    hide Zero;
    Residue(r, p);
    Product(r % p, r, r % p, r, p);
  }

  /** x2^((p-1)/4) is 1 or -1 when x2 is a nonzero square. */
  lemma RootSign(w: int, x2: int, s: int, p: int)
    requires Prime(p) && p % 8 == 5 && Zero(w * w - x2, p) && !Zero(w, p) && s == Pow(x2, (p - 1) / 4)
    ensures Zero(s - 1, p) || Zero(s + 1, p)
  {
    hide Zero, Pow;
    var f := (p - 1) / 4;
    PowCongruent(w * w, x2, f, p);
    PowSquare(w, f);
    var t := Pow(w, 2 * f);
    PowDouble(w, 2 * f);
    FermatLittle(w, p);
    assert 2 * (2 * f) == p - 1;
    Product(t, s, t, s, p);
    Combine(1, t * t - 1, -1, t * t - s * s, p);
    assert s * s - 1 == (s - 1) * (s + 1);
    Euclid(s - 1, s + 1, p);
  }
}
