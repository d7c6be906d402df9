/** Point compression and decompression of portal/gateway/gw/ed25519.py: 32 little-endian bytes holding y, with the
    parity of x in the top bit. */
module Encoding {
  import opened Wrappers
  import opened Modular
  import opened Fermat
  import opened Edwards
  import opened Points
  import opened Bytes

  /** The root _recover_x settles on: a power of x2, times _SQRT_M1 when that does not square to x2. */
  function Candidate(x2: int, p: int): int
    requires p >= 2
  {
    var x := Pow(x2, (p + 3) / 8) % p;
    if (x * x - x2) % p != 0 then x * SqrtM1(p) % p else x
  }

  /** _recover_x. The comparison of x2 with zero is on the product as it is, not on its residue. */
  function RecoverX(c: Curve, y: int, sign: int): Option<int> {
    if y >= c.p then None
    else
      var x2 := (y * y - 1) * Inv(c.d * y * y + 1, c.p);
      if x2 == 0 then (if sign != 0 then None else Some(0))
      else
        var x := Candidate(x2, c.p);
        if (x * x - x2) % c.p != 0 then None
        else if x % 2 != sign then Some(c.p - x)
        else Some(x)
  }

  /** _compress */
  function Compress(c: Curve, e: Ext): seq<byte> {
    var zinv := Inv(e.z, c.p);
    var x, y := e.x * zinv % c.p, e.y * zinv % c.p;
    ToLE(y + x % 2 * TWO_TO_255, 32)
  }

  /** _decompress */
  function Decompress(c: Curve, b: seq<byte>): Option<Ext> {
    if |b| != 32 then None
    else
      var n := FromLE(b);
      var sign, y := n / TWO_TO_255, n % TWO_TO_255;
      match RecoverX(c, y, sign)
      case None => None
      case Some(x) => Some(Ext(x, y, 1, x * y % c.p))
  }

  /** The encoding of an affine point (section 5.1.2 of RFC 8032). */
  function Encoded(a: Affine): seq<byte>
    requires a.y >= 0
  {
    ToLE(a.y + a.x % 2 * TWO_TO_255, 32)
  }

  ghost predicate Usable(c: Curve) {
    Complete(c) && c.p < TWO_TO_255
  }

  // ---- the candidate square and the curve equation ----

  /** d y^2 + 1 is never zero: -1 is a square and d is not. */
  lemma DenominatorOfX2(c: Curve, y: int)
    requires Complete(c)
    ensures !Zero(c.d * y * y + 1, c.p)
  {
    hide Zero;
    var p := c.p;
    if Zero(c.d * y * y + 1, p) {
      var i := SqrtM1(p);
      SqrtM1Correct(p);
      Combine(1, i * i + 1, -1, c.d * y * y + 1, p);
      assert c.d * y * y == c.d * (y * y);
      NoSquareRatio(c, i, y);
      Scale(c.d * y, y, p);
      OneIsNotZero(c.d * y * y, p);
    }
  }

  lemma OneIsNotZero(a: int, p: int)
    requires p > 1 && Zero(a, p)
    ensures !Zero(a + 1, p)
  {
    if Zero(a + 1, p) {
      Combine(1, a + 1, -1, a, p);
      Small(1, p);
    }
  }

  /** x squares to the candidate exactly when (x, y) satisfies the curve equation. */
  lemma RootIffOnCurve(c: Curve, x: int, y: int)
    requires Complete(c)
    ensures Zero(x * x - (y * y - 1) * Inv(c.d * y * y + 1, c.p), c.p)
        <==> Satisfies(c, x, y)
  {
    hide Zero, Inv;
    var p, den, num := c.p, c.d * y * y + 1, y * y - 1;
    var i := Inv(den, p);
    DenominatorOfX2(c, y);
    InverseCorrect(den, p);
    Scale(num, den * i - 1, p);
    // den (x^2 - num i) and the curve equation differ by a multiple of den i - 1
    ScaledRoot(c.d, x, y, den, num, i);
    Replace(-(den * (x * x - num * i)), y * y - x * x - (1 + c.d * (x * y) * (x * y)), p);
    if Zero(x * x - num * i, p) {
      Scale(den, x * x - num * i, p);
      Scale(-1, den * (x * x - num * i), p);
    }
    if Zero(y * y - x * x - (1 + c.d * (x * y) * (x * y)), p) {
      Scale(-1, -(den * (x * x - num * i)), p);
      Euclid(den, x * x - num * i, p);
    }
  }

  lemma ScaledRoot(d: int, x: int, y: int, den: int, num: int, i: int)
    requires den == d * y * y + 1 && num == y * y - 1
    ensures -(den * (x * x - num * i)) - (y * y - x * x - (1 + d * (x * y) * (x * y))) == num * (den * i - 1)
  {
    assert den * (x * x - num * i) == den * (x * x) - num * (den * i);
    assert den * (x * x) == d * (x * y) * (x * y) + x * x;
  }

  /** When the candidate square is zero as an integer, y is 1. */
  lemma ZeroCandidate(c: Curve, y: nat)
    requires Complete(c) && (y * y - 1) * Inv(c.d * y * y + 1, c.p) == 0
    ensures y == 1
  {
    DenominatorOfX2(c, y);
    InverseCorrect(c.d * y * y + 1, c.p);
    assert Inv(c.d * y * y + 1, c.p) != 0 by {
      Multiple(0, c.p);
    }
    assert y * y == 1;
  }

  /** Two residues with the same square are equal or opposite. */
  lemma SameSquare(x: int, x': int, p: int)
    requires Prime(p) && 0 <= x < p && 0 <= x' < p && Zero(x * x - x' * x', p)
    ensures x == x' || x + x' == p
  {
    hide Zero;
    assert x * x - x' * x' == (x - x') * (x + x');
    Euclid(x - x', x + x', p);
    if Zero(x - x', p) {
      Canonical(x, x', p);
    } else {
      Multiple(-1, p);
      Combine(1, x + x', 1, -1 * p, p);
      Small(x + x' - p, p);
    }
  }

  lemma CandidateInRange(x2: int, p: int)
    requires p >= 2
    ensures 0 <= Candidate(x2, p) < p
  {
    Residue(Pow(x2, (p + 3) / 8), p);
    Residue(Pow(x2, (p + 3) / 8) % p * SqrtM1(p), p);
  }

  lemma CandidateIsRoot(w: int, x2: int, p: int)
    requires Prime(p) && p % 8 == 5 && Zero(w * w - x2, p)
    ensures var x := Candidate(x2, p); Zero(x * x - x2, p) && 0 <= x < p
  {
    var x, i := Pow(x2, (p + 3) / 8) % p, SqrtM1(p);
    Residue(Pow(x2, (p + 3) / 8), p);
    RootOfSquare(w, x2, p);
    SqrtM1Correct(p);
    if !Zero(x * x - x2, p) {
      TimesRootOfMinusOne(x, i, x2, p);
    }
  }

  lemma TimesRootOfMinusOne(x: int, i: int, x2: int, p: int)
    requires p > 0 && Zero(x * x + x2, p) && Zero(i * i + 1, p)
    ensures var r := x * i % p; Zero(r * r - x2, p) && 0 <= r < p
  {
    hide Zero;
    var r := x * i % p;
    Residue(x * i, p);
    ReducedSquare(x * i, p);
    SquareOfProduct(x, i);
    Combine3(1, r * r - (x * i) * (x * i), x * x, i * i + 1, -1, x * x + x2, p);
    assert x * x * (i * i + 1) == (x * x) * (i * i) + x * x;
  }

  // ---- _recover_x ----

  /** For every point on the curve, _recover_x finds x from y and the parity of x. */
  lemma RecoverComplete(c: Curve, a: Affine)
    requires Complete(c) && On(c, a)
    ensures RecoverX(c, a.y, a.x % 2) == Some(a.x)
  {
    hide Zero, Satisfies, Inv, Candidate, IsRoot, Prime;
    var p, x2 := c.p, (a.y * a.y - 1) * Inv(c.d * a.y * a.y + 1, c.p);
    RootIffOnCurve(c, a.x, a.y);
    var x := Candidate(x2, p);
    CandidateIsRoot(a.x, x2, p);
    ZeroByMod(x * x - x2, p);
    SameRoots(a.x, x, x2, p);
    ParityPicks(a.x, x, p);
  }

  lemma ParityPicks(x: int, x': int, p: int)
    requires p % 2 == 1 && (x == x' || x + x' == p)
    ensures (if x' % 2 != x % 2 then p - x' else x') == x
  {
    var k, k' := x / 2, x' / 2;
    if x + x' == p && x' % 2 == x % 2 {
      assert p == 2 * (k + k' + x % 2);
    }
  }

  lemma SameRoots(x: int, x': int, x2: int, p: int)
    requires Prime(p) && p % 2 == 1 && 0 <= x < p && 0 <= x' < p && Zero(x * x - x2, p) && Zero(x' * x' - x2, p)
    ensures x == x' || x + x' == p
    ensures x2 == 0 ==> x == 0
  {
    hide Zero;
    Combine(1, x * x - x2, -1, x' * x' - x2, p);
    SameSquare(x, x', p);
    if x2 == 0 {
      Euclid(x, x, p);
      Small(x, p);
    }
  }

  /** Whatever _recover_x returns is a canonical point on the curve with the requested parity - except that for
      y = P - 1 with the sign bit set it returns x = P. */
  lemma RecoverSound(c: Curve, y: nat, sign: int)
    requires Complete(c) && (sign == 0 || sign == 1)
    ensures match RecoverX(c, y, sign)
            case None => true
            case Some(x) =>
              if y == c.p - 1 && sign == 1 then x == c.p
              else On(c, Affine(x, y)) && x % 2 == sign
  {
    hide Zero, Inv, Candidate, Satisfies;
    var p, x2 := c.p, (y * y - 1) * Inv(c.d * y * y + 1, c.p);
    if y < p && RecoverX(c, y, sign).Some? {
      if x2 == 0 {
        ZeroCandidate(c, y);
        NeutralOn(c);
      } else {
        var x := Candidate(x2, p);
        CandidateInRange(x2, p);
        ZeroByMod(x * x - x2, p);
        RootIffOnCurve(c, x, y);
        assert y == 1 ==> x2 == 0;
        SettledSound(c, y, sign, x);
      }
    }
  }

  lemma ZeroByMod(x: int, p: int)
    requires p > 0
    ensures Zero(x, p) <==> x % p == 0
  {
  }

  lemma SettledSound(c: Curve, y: nat, sign: int, x: int)
    requires Complete(c) && (sign == 0 || sign == 1) && y < c.p && y != 1 && 0 <= x < c.p && Satisfies(c, x, y)
    ensures var r := if x % 2 != sign then c.p - x else x;
            if y == c.p - 1 && sign == 1 then r == c.p else On(c, Affine(r, y)) && r % 2 == sign
  {
    hide Zero, Satisfies;
    OppositeOnCurve(c, x, y);
    if x == 0 {
      ZeroX(c, y);
    }
    if y == c.p - 1 {
      TopY(c, x);
    }
  }

  lemma OppositeOnCurve(c: Curve, x: int, y: int)
    requires Satisfies(c, x, y)
    ensures Satisfies(c, c.p - x, y)
  {
    Multiple(1, c.p);
    assert (c.p - x) - -x == 1 * c.p;
    NegateOnCore(c.p, c.d, x, y, c.p - x);
  }

  /** On the curve, x = 0 only for y = 1 and y = P - 1. */
  lemma ZeroX(c: Curve, y: nat)
    requires Complete(c) && y < c.p && Satisfies(c, 0, y)
    ensures y == 1 || y == c.p - 1
  {
    SameSquare(y, 1, c.p);
  }

  /** ... and conversely y = P - 1 only has x = 0. */
  lemma TopY(c: Curve, x: int)
    requires Complete(c) && 0 <= x < c.p && Satisfies(c, x, c.p - 1)
    ensures x == 0
  {
    hide Zero;
    var p, d, y := c.p, c.d, c.p - 1;
    // y^2 = 1, so (1 + d) x^2 = 0 - and 1 + d is the denominator of _recover_x at y = 1
    Multiple(p - 2, p);
    assert y * y - 1 == (p - 2) * p;
    Combine(1 - d * (x * x), y * y - 1, -1, y * y - x * x - (1 + d * (x * y) * (x * y)), p);
    TopIdentity(d, x, y);
    DenominatorOfX2(c, 1);
    assert d * 1 * 1 + 1 == d + 1;
    Euclid(d + 1, x * x, p);
    Euclid(x, x, p);
    Small(x, p);
  }

  lemma TopIdentity(d: int, x: int, y: int)
    ensures (1 - d * (x * x)) * (y * y - 1) + -1 * (y * y - x * x - (1 + d * (x * y) * (x * y))) == (d + 1) * (x * x)
  {
    SquareOfProduct(x, y);
    var xx, yy := x * x, y * y;
    assert d * (x * y) * (x * y) == d * (xx * yy);
    assert (1 - d * xx) * (yy - 1) == yy - 1 - d * (xx * yy) + d * xx;
  }

  // ---- _compress and _decompress ----

  /** _compress gives the encoding of the affine point, whatever the representation. */
  lemma CompressCorrect(c: Curve, e: Ext, a: Affine)
    requires Complete(c) && On(c, a) && Represents(c, e, a)
    ensures Compress(c, e) == Encoded(a)
    ensures c.p < TWO_TO_255 ==> |Compress(c, e)| == 32 && FromLE(Compress(c, e)) == a.y + (if a.x % 2 == 1 then TWO_TO_255 else 0)
  {
    hide ToLE, Zero, Inv;
    Divided(c.p, e.x, a.x, e.z);
    Divided(c.p, e.y, a.y, e.z);
    Exp256Of32();
    if c.p < TWO_TO_255 {
      FromTo(a.y + a.x % 2 * TWO_TO_255, 32);
    }
  }

  lemma Divided(p: int, n: int, x: int, z: int)
    requires Prime(p) && !Zero(z, p) && Zero(n - x * z, p) && 0 <= x < p
    ensures n * Inv(z, p) % p == x
  {
    hide Zero, Inv;
    InverseCorrect(z, p);
    DividedBy(p, n, x, z, Inv(z, p));
  }

  lemma DividedBy(p: int, n: int, x: int, z: int, i: int)
    requires 0 <= x < p && Zero(n - x * z, p) && Zero(z * i - 1, p)
    ensures n * i % p == x
  {
    hide Zero;
    var r := n * i % p;
    Residue(n * i, p);
    Combine3(1, r - n * i, i, n - x * z, x, z * i - 1, p);
    DividedIdentity(r, n, i, x, z);
    Canonical(r, x, p);
  }

  lemma DividedIdentity(r: int, n: int, i: int, x: int, z: int)
    ensures 1 * (r - n * i) + i * (n - x * z) + x * (z * i - 1) == r - x
  {
  }

  /** An encoding decodes to its own y and sign bit. */
  lemma EncodedBits(a: Affine)
    requires 0 <= a.y < TWO_TO_255
    ensures |Encoded(a)| == 32
    ensures FromLE(Encoded(a)) % TWO_TO_255 == a.y
    ensures FromLE(Encoded(a)) / TWO_TO_255 == a.x % 2
  {
    hide ToLE, FromLE, Exp256;
    Exp256Of32();
    FromTo(a.y + a.x % 2 * TWO_TO_255, 32);
  }

  /** Decompressing the compression of any representation of any point on the curve gives that point back. */
  lemma DecompressCompress(c: Curve, e: Ext, a: Affine)
    requires Usable(c) && On(c, a) && Represents(c, e, a)
    ensures var r := Decompress(c, Compress(c, e));
            r.Some? && Represents(c, r.value, a) && Equal(c, r.value, e)
  {
    hide ToLE, FromLE, Zero, Inv, Pow, RecoverX;
    CompressCorrect(c, e, a);
    EncodedBits(a);
    RecoverComplete(c, a);
    SelfZero(a.x, c.p);
    UnitRepresents(c, a.x, a);
    EqualCorrect(c, Ext(a.x, a.y, 1, a.x * a.y % c.p), e, a, a);
  }

  lemma UnitRepresents(c: Curve, x: int, a: Affine)
    requires Zero(x - a.x, c.p)
    ensures Represents(c, Ext(x, a.y, 1, x * a.y % c.p), a)
  {
    var p := c.p;
    if Zero(1, p) {
      Small(1, p);
    }
    Multiple(0, p);
    Residue(x * a.y, p);
    Scale(a.y, x - a.x, p);
    Combine(1, x * a.y % p - x * a.y, 1, a.y * (x - a.x), p);
    assert a.y * (x - a.x) == x * a.y - a.x * a.y;
  }

  /** The one encoding of a non-canonical point: y = P - 1 with the sign bit set. */
  function BadEncoding(c: Curve): seq<byte> {
    ToLE(c.p - 1 + TWO_TO_255, 32)
  }

  /** Every accepted encoding stands for a point on the curve. */
  lemma DecompressSound(c: Curve, b: seq<byte>) returns (a: Affine)
    requires Usable(c) && Decompress(c, b).Some?
    ensures On(c, a) && Represents(c, Decompress(c, b).value, a)
    ensures a == Affine(Decompress(c, b).value.x % c.p, Decompress(c, b).value.y)
    ensures b == BadEncoding(c) ==> a == Affine(0, c.p - 1)
    ensures b != BadEncoding(c) ==> b == Encoded(a)
  {
    hide ToLE, FromLE, RecoverX, Inv, Exp256, Zero, Satisfies, Represents;
    var n := FromLE(b);
    var sign, y := n / TWO_TO_255, n % TWO_TO_255;
    Exp256Of32();
    ToFrom(b);
    var x := RecoverX(c, y, sign).value;
    RecoverSound(c, y, sign);
    FromTo(c.p - 1 + TWO_TO_255, 32);
    a := Affine(x % c.p, y);
    if y == c.p - 1 && sign == 1 {
      TopOn(c);
      ReducedX(c.p, x);
      UnitRepresents(c, x, a);
    } else {
      ReducedX(c.p, x);
      UnitRepresents(c, x, a);
    }
  }

  lemma ReducedX(p: int, x: int)
    requires p > 0 && 0 <= x <= p
    ensures x % p == (if x == p then 0 else x) && Zero(x - x % p, p)
  {
    Residue(x, p);
    Multiple(1, p);
  }

  lemma TopOn(c: Curve)
    ensures On(c, Affine(0, c.p - 1))
  {
    Multiple(c.p - 2, c.p);
    assert (c.p - 1) * (c.p - 1) - 1 == (c.p - 2) * c.p;
  }

  /** Compressing an accepted encoding gives the same 32 bytes back exactly when it is not y = P - 1 with the sign bit. */
  lemma CompressDecompress(c: Curve, b: seq<byte>)
    requires Usable(c) && Decompress(c, b).Some?
    ensures Compress(c, Decompress(c, b).value) == b <==> b != BadEncoding(c)
  {
    hide ToLE, FromLE, Inv, Compress, Decompress, On, Exp256;
    var a := DecompressSound(c, b);
    CompressCorrect(c, Decompress(c, b).value, a);
    Exp256Of32();
    FromTo(c.p - 1, 32);
    FromTo(c.p - 1 + TWO_TO_255, 32);
  }

  /** That encoding is accepted, with x = P, and stands for the same point as the encoding without the sign bit;
      section 5.1.3 of RFC 8032 has it refused. */
  lemma BadEncodingAccepted(c: Curve)
    requires Usable(c)
    ensures Decompress(c, BadEncoding(c)) == Some(Ext(c.p, c.p - 1, 1, 0))
    ensures Represents(c, Ext(c.p, c.p - 1, 1, 0), Affine(0, c.p - 1)) && On(c, Affine(0, c.p - 1))
    ensures Compress(c, Ext(c.p, c.p - 1, 1, 0)) == ToLE(c.p - 1, 32) != BadEncoding(c)
  {
    hide ToLE, FromLE, Exp256, Candidate, Inv, Satisfies;
    var p, y := c.p, c.p - 1;
    var x2 := (y * y - 1) * Inv(c.d * y * y + 1, p);
    Exp256Of32();
    FromTo(p - 1 + TWO_TO_255, 32);
    FromTo(p - 1, 32);
    TopOn(c);
    RootIffOnCurve(c, 0, y);
    if x2 == 0 {
      ZeroCandidate(c, y);
    }
    CandidateIsRoot(0, x2, p);
    var x := Candidate(x2, p);
    RootIffOnCurve(c, x, y);
    TopY(c, x);
    assert p * y % p == 0 by { Multiple(y, p); }
    Multiple(1, p);
    UnitRepresents(c, p, Affine(0, y));
    CompressCorrect(c, Ext(p, y, 1, 0), Affine(0, y));
  }
}
