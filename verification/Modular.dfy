/** Integer arithmetic modulo p. A congruence a = b (mod p) is always written Zero(a - b, p), so that every
    proof over the field of p elements is an identity over the integers plus closure of Zero under linear
    combinations. */
module Modular {

  ghost predicate Zero(x: int, p: int)
    requires p > 0
  {
    x % p == 0
  }

  lemma Factor(x: int, p: int) returns (k: int)
    requires p > 0 && Zero(x, p)
    ensures x == k * p
  {
    k := x / p;
  }

  lemma SelfZero(x: int, p: int)
    requires p > 0
    ensures Zero(x - x, p)
  {
  }

  lemma AtLeastOnce(k: int, p: int)
    requires p > 0
    ensures k >= 1 ==> k * p >= p
    ensures k <= -1 ==> k * p <= -p
  {
  }

  lemma Multiple(k: int, p: int)
    requires p > 0
    ensures Zero(k * p, p)
  {
    var q, r := (k * p) / p, (k * p) % p;
    assert (k - q) * p == r;
    AtLeastOnce(k - q, p);
  }

  /** Zero is closed under linear combinations. */
  lemma Combine(r: int, u: int, s: int, v: int, p: int)
    requires p > 0 && Zero(u, p) && Zero(v, p)
    ensures Zero(r * u + s * v, p)
  {
    var a := Factor(u, p);
    var b := Factor(v, p);
    CombineIdentity(r, a, s, b, p);
    Multiple(r * a + s * b, p);
  }

  lemma CombineIdentity(r: int, a: int, s: int, b: int, p: int)
    ensures r * (a * p) + s * (b * p) == (r * a + s * b) * p
  {
  }

  lemma Combine3(r: int, u: int, s: int, v: int, t: int, w: int, p: int)
    requires p > 0 && Zero(u, p) && Zero(v, p) && Zero(w, p)
    ensures Zero(r * u + s * v + t * w, p)
  {
    hide Zero;
    Combine(r, u, s, v, p);
    Combine(1, r * u + s * v, t, w, p);
  }

  lemma Scale(r: int, u: int, p: int)
    requires p > 0 && Zero(u, p)
    ensures Zero(r * u, p) && Zero(u * r, p)
  {
    Combine(r, u, 0, u, p);
  }

  /** Zero(a) and Zero(a - b) give Zero(b); the workhorse for replacing a by something congruent to it. */
  lemma Replace(a: int, b: int, p: int)
    requires p > 0 && Zero(a - b, p)
    ensures Zero(a, p) <==> Zero(b, p)
    ensures Zero(b - a, p)
  {
    Combine(-1, a - b, 0, a - b, p);
    if Zero(a, p) {
      Combine(1, a, -1, a - b, p);
    }
    if Zero(b, p) {
      Combine(1, b, 1, a - b, p);
    }
  }

  lemma Chain(a: int, b: int, c: int, p: int)
    requires p > 0 && Zero(a - b, p) && Zero(b - c, p)
    ensures Zero(a - c, p)
  {
    Combine(1, a - b, 1, b - c, p);
  }

  /** Congruence is preserved by products. */
  lemma Product(a: int, b: int, c: int, e: int, p: int)
    requires p > 0 && Zero(a - b, p) && Zero(c - e, p)
    ensures Zero(a * c - b * e, p)
  {
    Combine(c, a - b, b, c - e, p);
    assert c * (a - b) + b * (c - e) == a * c - b * e;
  }

  lemma Residue(x: int, p: int)
    requires p > 0
    ensures 0 <= x % p < p
    ensures Zero(x % p - x, p) && Zero(x - x % p, p)
  {
    Multiple(x / p, p);
    Multiple(-(x / p), p);
    assert x - x % p == (x / p) * p;
  }

  lemma Small(x: int, p: int)
    requires p > 0 && Zero(x, p) && -p < x < p
    ensures x == 0
  {
    var k := Factor(x, p);
    AtLeastOnce(k, p);
  }

  /** A congruence between canonical residues is an equality. */
  lemma Canonical(x: int, y: int, p: int)
    requires 0 <= x < p && 0 <= y < p && Zero(x - y, p)
    ensures x == y
  {
    Small(x - y, p);
  }

  lemma SameResidue(x: int, y: int, p: int)
    requires p > 0
    ensures Zero(x - y, p) <==> x % p == y % p
  {
    Residue(x, p);
    Residue(y, p);
    if Zero(x - y, p) {
      Chain(x % p, x, y, p);
      Chain(x % p, y, y % p, p);
      Canonical(x % p, y % p, p);
    }
    if x % p == y % p {
      Chain(x, x % p, y, p);
    }
  }

  // ---- primes ----

  predicate Divides(m: int, n: int)
    requires m > 0
  {
    n % m == 0
  }

  ghost predicate Prime(p: int) {
    p >= 2 && forall m :: 1 < m < p ==> !Divides(m, p)
  }

  /** The descent behind Euclid's lemma: p mod r annihilates b whenever r does, and it is smaller. */
  lemma {:induction false} Descent(r: int, b: int, p: int)
    requires Prime(p) && 0 < r < p && Zero(r * b, p)
    ensures Zero(b, p)
    decreases r
  {
    if r > 1 {
      var q, r' := p / r, p % r;
      assert !Divides(r, p);
      Multiple(b, p);
      Combine(1, b * p, -q, r * b, p);
      DescentIdentity(b, p, q, r, r');
      Descent(r', b, p);
    }
  }

  lemma DescentIdentity(b: int, p: int, q: int, r: int, r': int)
    requires p == q * r + r'
    ensures 1 * (b * p) + (-q) * (r * b) == r' * b
  {
    assert b * (q * r + r') == q * (r * b) + r' * b;
  }

  /** Euclid's lemma: the residues modulo a prime have no zero divisors. */
  lemma Euclid(a: int, b: int, p: int)
    requires Prime(p) && Zero(a * b, p)
    ensures Zero(a, p) || Zero(b, p)
  {
    hide Zero;
    if !Zero(a, p) {
      Residue(a, p);
      Scale(b, a % p - a, p);
      assert b * (a % p - a) == (a % p) * b - a * b;
      Replace((a % p) * b, a * b, p);
      Descent(a % p, b, p);
    }
  }

  lemma NonzeroProduct(a: int, b: int, p: int)
    requires Prime(p) && !Zero(a, p) && !Zero(b, p)
    ensures !Zero(a * b, p)
  {
    hide Zero;
    if Zero(a * b, p) {
      Euclid(a, b, p);
    }
  }

  /** Cancelling a factor that is not zero. */
  lemma Cancel(u: int, x: int, y: int, p: int)
    requires Prime(p) && !Zero(u, p) && Zero(u * x - u * y, p)
    ensures Zero(x - y, p)
  {
    assert u * x - u * y == u * (x - y);
    Euclid(u, x - y, p);
  }

  // ---- powers ----

  function Pow(x: int, e: nat): int {
    if e == 0 then 1 else x * Pow(x, e - 1)
  }

  lemma PowNext(x: int, e: nat)
    ensures Pow(x, 0) == 1 && Pow(x, e + 1) == x * Pow(x, e)
  {
  }

  lemma {:induction false} PowAdd(x: int, a: nat, b: nat)
    ensures Pow(x, a + b) == Pow(x, a) * Pow(x, b)
    decreases a
  {
    if a > 0 {
      PowAdd(x, a - 1, b);
      assert x * (Pow(x, a - 1) * Pow(x, b)) == (x * Pow(x, a - 1)) * Pow(x, b);
    }
  }

  lemma PowDouble(x: int, a: nat)
    ensures Pow(x, 2 * a) == Pow(x, a) * Pow(x, a)
  {
    PowAdd(x, a, a);
  }

  lemma {:induction false} PowSquare(x: int, a: nat)
    ensures Pow(x * x, a) == Pow(x, 2 * a)
  {
    if a > 0 {
      PowSquare(x, a - 1);
      assert Pow(x, 2 * a) == x * (x * Pow(x, 2 * a - 2));
      assert (x * x) * Pow(x, 2 * (a - 1)) == x * (x * Pow(x, 2 * a - 2));
    }
  }

  lemma {:induction false} PowCongruent(x: int, y: int, e: nat, p: int)
    requires p > 0 && Zero(x - y, p)
    ensures Zero(Pow(x, e) - Pow(y, e), p)
  {
    if e == 0 {
      Multiple(0, p);
    } else {
      PowCongruent(x, y, e - 1, p);
      Product(x, y, Pow(x, e - 1), Pow(y, e - 1), p);
    }
  }

  /** A power of zero is zero: what pow(0, e, P) gives for e > 0. */
  lemma PowZero(x: int, e: nat, p: int)
    requires p > 0 && e > 0 && Zero(x, p)
    ensures Zero(Pow(x, e), p)
  {
    Scale(Pow(x, e - 1), x, p);
  }
}
