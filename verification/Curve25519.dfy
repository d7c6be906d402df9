/** The constants of portal/gateway/gw/ed25519.py: edwards25519 and its base point (section 5.1 of RFC 8032). */
module Curve25519 {
  import opened Wrappers
  import opened Bytes
  import opened Modular
  import opened Fermat
  import opened Edwards
  import opened Points
  import opened Encoding
  import opened Ed25519

  const P: Modulus := 0x7fffffffffffffffffffffffffffffffffffffffffffffffffffffffffffffed
  const Q: Modulus := 0x1000000000000000000000000000000014def9dea2f79cd65812631a5cf5d3ed

  /** Decimal values of D, _GX and _GY. */
  const D_VALUE := 37095705934669439343138083508754565189542113879843219016388785533085940283555
  const GX_VALUE := 15112221349535400772501151409588531511454012693041857206046113283949847762202
  const GY_VALUE := 46316835694926478169428394003475163141307993866256225615783033603165251855960

  /** D = -121665 * pow(121666, P - 2, P) % P */
  function EdwardsD(p: Modulus): int {
    -121665 * Inv(121666, p) % p
  }

  function Edwards25519(p: Modulus): Curve {
    Curve(p, EdwardsD(p))
  }

  /** _GY = 4 * _inv(5) % P */
  function BaseY(p: Modulus): int {
    4 * Inv(5, p) % p
  }

  /** _GX = _recover_x(_GY, 0), and _G. */
  function Base(p: Modulus): Option<Ext> {
    match RecoverX(Edwards25519(p), BaseY(p), 0)
    case None => None
    case Some(x) => Some(Ext(x, BaseY(p), 1, x * BaseY(p) % p))
  }

  /** The scheme of the source, over a hash. */
  function Source(p: Modulus, sha512: seq<byte> -> Digest): Option<Scheme> {
    match Base(p)
    case None => None
    case Some(g) => Some(Scheme(Edwards25519(p), Q, g, sha512))
  }

  // ---- the formulas give the values ----

  /** An inverse times a number is the quotient. */
  lemma Quotient(n: int, m: int, v: int, p: int)
    requires Prime(p) && p > 2 && !Zero(m, p) && 0 <= v < p && Zero(m * v - n, p)
    ensures n * Inv(m, p) % p == v
  {
    hide Zero, Inv, Prime;
    assert m * v - n == -(n - v * m);
    Scale(-1, m * v - n, p);
    assert -1 * (m * v - n) == n - v * m;
    Divided(p, n, v, m);
  }

  lemma SmallNonzero(m: int, p: int)
    requires 0 < m < p
    ensures !Zero(m, p)
  {
    if Zero(m, p) {
      Small(m, p);
    }
  }

  /** Values that satisfy the defining equations are the ones the formulas compute. */
  lemma FormulasGive(p: Modulus, d: int, x: int, y: int)
    requires Prime(p) && p % 8 == 5 && p > 121666 && 0 <= d < p && 0 <= y < p && 0 <= x < p && x % 2 == 0
    requires Zero(121666 * d - -121665, p) && Zero(5 * y - 4, p) && Satisfies(Curve(p, d), x, y)
    requires forall w :: !IsRoot(w, EdwardsD(p), p)
    ensures EdwardsD(p) == d && BaseY(p) == y && Base(p) == Some(Ext(x, y, 1, x * y % p))
    ensures Complete(Edwards25519(p)) && On(Edwards25519(p), Affine(x, y)) && Represents(Edwards25519(p), Ext(x, y, 1, x * y % p), Affine(x, y))
  {
    hide Zero, Inv, Prime, IsRoot, Satisfies, Represents, RecoverX;
    SmallNonzero(121666, p);
    SmallNonzero(5, p);
    Quotient(-121665, 121666, d, p);
    Quotient(4, 5, y, p);
    RecoverComplete(Edwards25519(p), Affine(x, y));
    SelfZero(x, p);
    UnitRepresents(Edwards25519(p), x, Affine(x, y));
  }

  lemma ByRemainder(n: int, p: int)
    requires p > 0 && n % p == 0
    ensures Zero(n, p)
  {
    ZeroByMod(n, p);
  }

  /** The decimal values satisfy them. */
  lemma Values(p: int)
    requires p == P
    ensures p % 8 == 5 && 121666 < p < TWO_TO_255 && Q < 2 * TWO_TO_255 && GX_VALUE % 2 == 0
    ensures Zero(121666 * D_VALUE - -121665, p) && Zero(5 * GY_VALUE - 4, p)
    ensures Satisfies(Curve(p, D_VALUE), GX_VALUE, GY_VALUE)
  {
    assert (121666 * D_VALUE - -121665) % P == 0;
    assert (5 * GY_VALUE - 4) % P == 0;
    assert (GY_VALUE * GY_VALUE - GX_VALUE * GX_VALUE - (1 + D_VALUE * (GX_VALUE * GY_VALUE) * (GX_VALUE * GY_VALUE))) % P == 0;
    ByRemainder(121666 * D_VALUE - -121665, p);
    ByRemainder(5 * GY_VALUE - 4, p);
    ByRemainder(GY_VALUE * GY_VALUE - GX_VALUE * GX_VALUE - (1 + D_VALUE * (GX_VALUE * GY_VALUE) * (GX_VALUE * GY_VALUE)), p);
  }

  // ---- the theorems for the constants of the source ----

  /** What is assumed: P is prime, D is not a square, and Q times the base point is the neutral point. */
  ghost predicate Assumed(p: Modulus) {
    && p == P && Prime(p)
    && (forall w :: !IsRoot(w, EdwardsD(p), p))
    && Times(Edwards25519(p), Q, Affine(GX_VALUE, GY_VALUE)) == Neutral
  }

  /** _recover_x finds the base point at import, and the module's constants make a sound scheme. */
  lemma SourceSound(p: Modulus, sha512: seq<byte> -> Digest)
    requires Assumed(p)
    ensures Source(p, sha512).Some? && Source(p, sha512).value.c.d == D_VALUE
    ensures Source(p, sha512).value.g == Ext(GX_VALUE, GY_VALUE, 1, GX_VALUE * GY_VALUE % p)
    ensures Sound(Source(p, sha512).value, Affine(GX_VALUE, GY_VALUE))
  {
    hide Zero, Inv, Prime, IsRoot, Satisfies, Represents, RecoverX, Times, EdwardsD, BaseY;
    Values(p);
    FormulasGive(p, D_VALUE, GX_VALUE, GY_VALUE);
  }

  /** Every signature of the source verifies: for all 32-byte seeds and all messages. */
  lemma SourceSignaturesVerify(p: Modulus, sha512: seq<byte> -> Digest, seed: seq<byte>, msg: seq<byte>)
    requires Assumed(p) && |seed| == 32
    ensures Source(p, sha512).Some?
    ensures var s := Source(p, sha512).value;
            PublicKey(s, seed).Ok? && Ed25519.Sign(s, seed, msg).Ok? && Verify(s, PublicKey(s, seed).value, msg, Ed25519.Sign(s, seed, msg).value)
  {
    hide Assumed, Source, Sound, PublicKey, Ed25519.Sign, Verify;
    SourceSound(p, sha512);
    SignedVerifies(Source(p, sha512).value, Affine(GX_VALUE, GY_VALUE), seed, msg);
  }

  /** With Q prime as well, a signature's second half is determined by the rest. */
  lemma SourceSecondHalfUnique(p: Modulus, sha512: seq<byte> -> Digest, pub: seq<byte>, msg: seq<byte>, sig: seq<byte>, sig': seq<byte>)
    requires Assumed(p) && Prime(Q) && Source(p, sha512).Some?
    requires Verify(Source(p, sha512).value, pub, msg, sig) && Verify(Source(p, sha512).value, pub, msg, sig') && sig[..32] == sig'[..32]
    ensures sig == sig'
  {
    hide Assumed, Sound, Verify, Prime, Base;
    SourceSound(p, sha512);
    SecondHalfUnique(Source(p, sha512).value, Affine(GX_VALUE, GY_VALUE), pub, msg, sig, sig');
  }

  /** And a signature that a seed's key made of one message is accepted for another exactly when the two hash to the same
      number modulo Q. */
  lemma SourceSignatureBinds(p: Modulus, sha512: seq<byte> -> Digest, seed: seq<byte>, msg: seq<byte>, msg': seq<byte>)
    requires Assumed(p) && Prime(Q) && |seed| == 32
    ensures Source(p, sha512).Some?
    ensures var s := Source(p, sha512).value;
            && PublicKey(s, seed).Ok? && Ed25519.Sign(s, seed, msg).Ok?
            && var pub, sig := PublicKey(s, seed).value, Ed25519.Sign(s, seed, msg).value;
               Verify(s, pub, msg', sig) <==> FromLE(sha512(sig[..32] + pub + msg)) % Q == FromLE(sha512(sig[..32] + pub + msg')) % Q
  {
    hide Assumed, Sound, PublicKey, Ed25519.Sign, Verify, Prime, Base, FromLE;
    SourceSound(p, sha512);
    SignedBinds(Source(p, sha512).value, Affine(GX_VALUE, GY_VALUE), seed, msg, msg');
  }
}
