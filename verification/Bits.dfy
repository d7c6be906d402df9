/** Single bits of natural numbers. */
module Bits {
  import opened Modular

  function Pow2(k: nat): (r: nat)
    ensures r > 0
  {
    if k == 0 then 1 else 2 * Pow2(k - 1)
  }

  /** Bit i, the lowest being bit 0. */
  predicate Bit(n: nat, i: nat)
    decreases i
  {
    if i == 0 then n % 2 == 1 else Bit(n / 2, i - 1)
  }

  lemma {:induction false} Pow2Add(a: nat, b: nat)
    ensures Pow2(a + b) == Pow2(a) * Pow2(b)
    decreases a
  {
    if a > 0 {
      Pow2Add(a - 1, b);
      Doubled(Pow2(a - 1), Pow2(b));
    }
  }

  lemma Doubled(a: nat, b: nat)
    ensures 2 * (a * b) == (2 * a) * b
  {
  }

  lemma ModHalf(n: nat, m: nat, d: nat)
    requires m > 0 && d == 2 * m
    ensures n % d / 2 == n / 2 % m && n % d % 2 == n % 2
  {
    Residue(n, d);
    var k := Factor(n - n % d, d);
    HalfRemainder(n, m, k, n % d);
  }

  lemma HalfRemainder(n: nat, m: nat, k: int, r: nat)
    requires r < 2 * m && n - r == k * (2 * m)
    ensures r / 2 == n / 2 % m && r % 2 == n % 2
  {
    Grouped(k, m);
    Halves(n, k * m, r);
    Multiple(k, m);
    SameResidue(n / 2, r / 2, m);
    Within(r / 2, m);
  }

  lemma Within(r: nat, m: nat)
    requires r < m
    ensures r % m == r
  {
  }

  lemma Grouped(k: int, m: nat)
    ensures k * (2 * m) == 2 * (k * m)
  {
  }

  lemma Halves(n: int, k: int, r: int)
    requires n == 2 * k + r
    ensures n / 2 == k + r / 2 && n % 2 == r % 2
  {
  }

  lemma {:induction false} BitOfZero(i: nat)
    ensures !Bit(0, i)
  {
    if i > 0 {
      BitOfZero(i - 1);
    }
  }

  /** Reducing modulo 2^w keeps the bits below w and clears the others. */
  lemma {:induction false} BitLow(n: nat, w: nat, i: nat)
    ensures Bit(n % Pow2(w), i) <==> i < w && Bit(n, i)
    decreases w
  {
    if w == 0 {
      BitOfZero(i);
    } else {
      ModHalf(n, Pow2(w - 1), Pow2(w));
      if i > 0 {
        BitLow(n / 2, w - 1, i - 1);
      }
    }
  }

  /** Adding 2^w to a smaller number sets bit w. */
  lemma {:induction false} BitTop(n: nat, w: nat, i: nat)
    requires n < Pow2(w)
    ensures Bit(n + Pow2(w), i) <==> i == w || Bit(n, i)
    decreases w
  {
    if w == 0 {
      if i > 0 {
        BitOfZero(i - 1);
      }
    } else if i > 0 {
      assert (n + Pow2(w)) / 2 == n / 2 + Pow2(w - 1);
      BitTop(n / 2, w - 1, i - 1);
    }
  }

  /** Clearing the three low bits. */
  lemma BitEighths(n: nat, i: nat)
    ensures Bit(n / 8 * 8, i) <==> i >= 3 && Bit(n, i)
  {
    var y := n / 8 * 8;
    assert y / 2 / 2 / 2 == n / 2 / 2 / 2;
    assert Bit(y, 0) == (y % 2 == 1) && Bit(y, 1) == (y / 2 % 2 == 1) && Bit(y, 2) == (y / 2 / 2 % 2 == 1);
    if i >= 3 {
      BitThree(y, i);
      BitThree(n, i);
    }
  }

  lemma BitThree(n: nat, i: nat)
    requires i >= 3
    ensures Bit(n, i) == Bit(n / 2 / 2 / 2, i - 3)
  {
    assert Bit(n, i) == Bit(n / 2, i - 1);
    assert Bit(n / 2, i - 1) == Bit(n / 2 / 2, i - 2);
  }
}
