/** Ed25519 as portal/gateway/gw/ed25519.py implements it: key expansion, signing and verification over a curve and a
    base point, with SHA-512 an arbitrary function to 64 bytes. */
module Ed25519 {
  import opened Wrappers
  import opened Modular
  import opened Fermat
  import opened Edwards
  import opened Associativity
  import opened Points
  import opened Bytes
  import opened Bits
  import opened Encoding

  type Digest = s: seq<byte> | |s| == 64 witness seq(64, i => 0)

  /** The module-level constants of the source, with the hash function. */
  datatype Scheme = Scheme(c: Curve, q: Modulus, g: Ext, sha512: seq<byte> -> Digest)

  datatype Error = SeedLength

  const TWO_TO_254: int := 0x4000000000000000000000000000000000000000000000000000000000000000

  /** The secret scalar: the three low bits and everything from bit 254 up cleared, then bit 254 set. */
  function Clamp(a: nat): nat {
    a % TWO_TO_254 / 8 * 8 + TWO_TO_254
  }

  /** _expand */
  function Expand(s: Scheme, seed: seq<byte>): Result<(nat, seq<byte>), Error> {
    if |seed| != 32 then Err(SeedLength)
    else
      var h := s.sha512(seed);
      Ok((Clamp(FromLE(h[..32])), h[32..]))
  }

  /** _h_modq */
  function HModQ(s: Scheme, m: seq<byte>): nat {
    FromLE(s.sha512(m)) % s.q
  }

  /** public_key */
  function PublicKey(s: Scheme, seed: seq<byte>): Result<seq<byte>, Error> {
    match Expand(s, seed)
    case Err(e) => Err(e)
    case Ok((a, _)) => Ok(Compress(s.c, Mul(s.c, a, s.g)))
  }

  /** sign */
  function Sign(s: Scheme, seed: seq<byte>, msg: seq<byte>): Result<seq<byte>, Error> {
    match Expand(s, seed)
    case Err(e) => Err(e)
    case Ok((a, prefix)) =>
      var pub := Compress(s.c, Mul(s.c, a, s.g));
      var r := HModQ(s, prefix + msg);
      var rs := Compress(s.c, Mul(s.c, r, s.g));
      var h := HModQ(s, rs + pub + msg);
      Ok(rs + ToLE((r + h * a) % s.q, 32))
  }

  /** verify */
  predicate Verify(s: Scheme, pub: seq<byte>, msg: seq<byte>, sig: seq<byte>) {
    if |pub| != 32 || |sig| != 64 then false
    else
      var a, r := Decompress(s.c, pub), Decompress(s.c, sig[..32]);
      if a.None? || r.None? then false
      else
        var n := FromLE(sig[32..]);
        if n >= s.q then false
        else
          var h := HModQ(s, sig[..32] + pub + msg);
          Equal(s.c, Mul(s.c, n, s.g), Add(s.c, r.value, Mul(s.c, h, a.value)))
  }

  // ---- what is assumed of a scheme ----

  /** The base point b is on a usable curve and q times it is the neutral point. */
  ghost predicate Sound(s: Scheme, b: Affine) {
    && Usable(s.c)
    && On(s.c, b)
    && Represents(s.c, s.g, b)
    && s.q < 2 * TWO_TO_255
    && Times(s.c, s.q, b) == Neutral
  }

  // ---- what verify decides ----

  /** The affine point an encoding is accepted as, if any. */
  function Decoded(c: Curve, b: seq<byte>): Option<Affine> {
    match Decompress(c, b)
    case None => None
    case Some(e) => Some(Affine(e.x % c.p, e.y))
  }

  lemma DecodedSound(c: Curve, b: seq<byte>)
    requires Usable(c) && Decompress(c, b).Some?
    ensures var a := Decoded(c, b).value; On(c, a) && Represents(c, Decompress(c, b).value, a)
  {
    hide Represents, Satisfies, RecoverX, ToLE, FromLE, Encoded;
    var a := DecompressSound(c, b);
  }

  /** verify accepts exactly when both encodings are accepted, the scalar is reduced, and [S]B = R + [h]A among the
      affine points (section 5.1.7 of RFC 8032, without the cofactor). */
  lemma VerifyMeans(s: Scheme, b: Affine, pub: seq<byte>, msg: seq<byte>, sig: seq<byte>)
    requires Sound(s, b)
    ensures Verify(s, pub, msg, sig) <==>
            && |pub| == 32 && |sig| == 64
            && Decoded(s.c, pub).Some? && Decoded(s.c, sig[..32]).Some?
            && FromLE(sig[32..]) < s.q
            && Times(s.c, FromLE(sig[32..]), b)
               == Sum(s.c, Decoded(s.c, sig[..32]).value, Times(s.c, FromLE(s.sha512(sig[..32] + pub + msg)) % s.q, Decoded(s.c, pub).value))
  {
    hide Sum, Times, Mul, Add, Equal, Represents, On, RecoverX, FromLE, Satisfies;
    if |pub| == 32 && |sig| == 64 && Decompress(s.c, pub).Some? && Decompress(s.c, sig[..32]).Some? {
      var n, h := FromLE(sig[32..]), HModQ(s, sig[..32] + pub + msg);
      var ea, er := Decompress(s.c, pub).value, Decompress(s.c, sig[..32]).value;
      var a, r := Decoded(s.c, pub).value, Decoded(s.c, sig[..32]).value;
      DecodedSound(s.c, pub);
      DecodedSound(s.c, sig[..32]);
      MulCorrect(s.c, n, s.g, b);
      MulCorrect(s.c, h, ea, a);
      AddCorrect(s.c, er, Mul(s.c, h, ea), r, Times(s.c, h, a));
      EqualCorrect(s.c, Mul(s.c, n, s.g), Add(s.c, er, Mul(s.c, h, ea)), Times(s.c, n, b), Sum(s.c, r, Times(s.c, h, a)));
    }
  }

  // ---- every signature verifies ----

  /** The encoding of a multiple of the base point is accepted as that multiple. */
  lemma MultipleDecodes(s: Scheme, b: Affine, n: nat)
    requires Sound(s, b)
    ensures var e := Compress(s.c, Mul(s.c, n, s.g));
            |e| == 32 && Decoded(s.c, e) == Some(Times(s.c, n, b)) && On(s.c, Times(s.c, n, b))
  {
    hide Sum, Times, Mul, Add, Equal, Represents, Satisfies, RecoverX, FromLE, ToLE;
    var m, t := Mul(s.c, n, s.g), Times(s.c, n, b);
    MulCorrect(s.c, n, s.g, b);
    DecompressCompress(s.c, m, t);
    DecodedSound(s.c, Compress(s.c, m));
    SamePoint(s.c, Decompress(s.c, Compress(s.c, m)).value, Decoded(s.c, Compress(s.c, m)).value, t);
  }

  lemma SamePoint(c: Curve, e: Ext, a: Affine, a': Affine)
    requires Complete(c) && On(c, a) && On(c, a') && Represents(c, e, a) && Represents(c, e, a')
    ensures a == a'
  {
    hide Represents, On;
    EqualCorrect(c, e, e, a, a');
    EqualCorrect(c, e, e, a, a);
  }

  /** [(r + h a) mod q]B = [r]B + [h]([a]B). */
  lemma ResponseSplits(s: Scheme, b: Affine, r: nat, h: nat, a: nat)
    requires Sound(s, b)
    ensures h * a >= 0
    ensures Times(s.c, (r + h * a) % s.q, b) == Sum(s.c, Times(s.c, r, b), Times(s.c, h, Times(s.c, a, b)))
  {
    hide Sum, On, Represents;
    TimesTimes(s.c, h, a, b);
    TimesModulo(s.c, r + h * a, s.q, b);
    TimesAdd(s.c, r, h * a, b);
  }

  /** For every 32-byte seed and every message, the signature verifies under the seed's public key; a seed of any other
      length is refused by both functions. */
  lemma SignedVerifies(s: Scheme, b: Affine, seed: seq<byte>, msg: seq<byte>)
    requires Sound(s, b)
    ensures if |seed| != 32 then PublicKey(s, seed) == Err(SeedLength) && Sign(s, seed, msg) == Err(SeedLength)
            else PublicKey(s, seed).Ok? && Sign(s, seed, msg).Ok? && Verify(s, PublicKey(s, seed).value, msg, Sign(s, seed, msg).value)
  {
    hide Sum, Times, Mul, Add, Equal, Represents, On, Compress, FromLE, ToLE, Verify, Decoded, Clamp, Usable;
    if |seed| == 32 {
      var (a, prefix) := Expand(s, seed).value;
      var pub := Compress(s.c, Mul(s.c, a, s.g));
      var r := HModQ(s, prefix + msg);
      var rs := Compress(s.c, Mul(s.c, r, s.g));
      var h := HModQ(s, rs + pub + msg);
      var n := (r + h * a) % s.q;
      var sig := rs + ToLE(n, 32);
      MultipleDecodes(s, b, a);
      MultipleDecodes(s, b, r);
      ResponseSplits(s, b, r, h, a);
      Exp256Of32();
      FromTo(n, 32);
      assert sig[..32] == rs && sig[32..] == ToLE(n, 32);
      VerifyMeans(s, b, pub, msg, sig);
    }
  }

  // ---- a signature is determined by its first half ----

  /** With a base point of prime order, at most one second half verifies for a given key, message and first half. */
  lemma SecondHalfUnique(s: Scheme, b: Affine, pub: seq<byte>, msg: seq<byte>, sig: seq<byte>, sig': seq<byte>)
    requires Sound(s, b) && Prime(s.q) && b != Neutral
    requires Verify(s, pub, msg, sig) && Verify(s, pub, msg, sig') && sig[..32] == sig'[..32]
    ensures sig == sig'
  {
    hide Sum, Times, Represents, On, FromLE, ToLE, HModQ, Verify, Decoded, Prime;
    VerifyMeans(s, b, pub, msg, sig);
    VerifyMeans(s, b, pub, msg, sig');
    TimesInjective(s.c, FromLE(sig[32..]), FromLE(sig'[32..]), s.q, b);
    ToFrom(sig[32..]);
    ToFrom(sig'[32..]);
    assert sig == sig[..32] + sig[32..] && sig' == sig'[..32] + sig'[32..];
  }

  // ---- a signature is for one message ----

  lemma CancelLeft(c: Curve, a: Affine, x: Affine, y: Affine)
    requires Complete(c) && On(c, a) && On(c, x) && On(c, y) && Sum(c, a, x) == Sum(c, a, y)
    ensures x == y
  {
    hide Sum, On, Negate;
    var n := Negate(c, a);
    NegateOn(c, a);
    SumNegate(c, a);
    SumCommutes(c, a, n);
    SumAssociates(c, n, a, x);
    SumAssociates(c, n, a, y);
    SumNeutral(c, x);
    SumNeutral(c, y);
  }

  /** A signature of one message is accepted for another exactly when the two hash to the same number modulo Q; for a key
      that is not the neutral point and of order Q. */
  lemma MessageBound(s: Scheme, b: Affine, pub: seq<byte>, msg: seq<byte>, msg': seq<byte>, sig: seq<byte>)
    requires Sound(s, b) && Prime(s.q) && Verify(s, pub, msg, sig)
    requires Decoded(s.c, pub).Some? && Decoded(s.c, pub).value != Neutral && Times(s.c, s.q, Decoded(s.c, pub).value) == Neutral
    ensures Verify(s, pub, msg', sig) <==>
              FromLE(s.sha512(sig[..32] + pub + msg)) % s.q == FromLE(s.sha512(sig[..32] + pub + msg')) % s.q
  {
    hide Sum, Times, Represents, On, FromLE, Verify, Decoded, Prime, HModQ;
    VerifyMeans(s, b, pub, msg, sig);
    VerifyMeans(s, b, pub, msg', sig);
    var a, r := Decoded(s.c, pub).value, Decoded(s.c, sig[..32]).value;
    var h, h' := FromLE(s.sha512(sig[..32] + pub + msg)) % s.q, FromLE(s.sha512(sig[..32] + pub + msg')) % s.q;
    DecodedOn(s.c, pub);
    DecodedOn(s.c, sig[..32]);
    TimesOn(s.c, h, a);
    TimesOn(s.c, h', a);
    if Verify(s, pub, msg', sig) {
      CancelLeft(s.c, r, Times(s.c, h, a), Times(s.c, h', a));
      TimesInjective(s.c, h, h', s.q, a);
    }
  }

  lemma DecodedOn(c: Curve, b: seq<byte>)
    requires Usable(c) && Decoded(c, b).Some?
    ensures On(c, Decoded(c, b).value)
  {
    DecodedSound(c, b);
  }

  // ---- what is signed ----

  /** The key of a seed and its signature of a message: the scalar a comes from the first half of the seed's hash, the
      nonce r from the second half and the message; the key is [a]B, and the signature is [r]B with r + h a modulo Q. */
  lemma SignMeans(s: Scheme, b: Affine, seed: seq<byte>, msg: seq<byte>)
    requires Sound(s, b) && |seed| == 32
    ensures PublicKey(s, seed).Ok? && Sign(s, seed, msg).Ok?
    ensures var pub, sig := PublicKey(s, seed).value, Sign(s, seed, msg).value;
            var a := Clamp(FromLE(s.sha512(seed)[..32]));
            var r := FromLE(s.sha512(s.sha512(seed)[32..] + msg)) % s.q;
            && |pub| == 32 && |sig| == 64
            && Decoded(s.c, pub) == Some(Times(s.c, a, b)) && Decoded(s.c, sig[..32]) == Some(Times(s.c, r, b))
            && FromLE(sig[32..]) == (r + FromLE(s.sha512(sig[..32] + pub + msg)) % s.q * a) % s.q
  {
    hide Sum, Times, Mul, Represents, On, Compress, FromLE, ToLE, Decoded, Clamp, Usable;
    var a := Clamp(FromLE(s.sha512(seed)[..32]));
    var r := HModQ(s, s.sha512(seed)[32..] + msg);
    var pub, rs := Compress(s.c, Mul(s.c, a, s.g)), Compress(s.c, Mul(s.c, r, s.g));
    var n := (r + HModQ(s, rs + pub + msg) * a) % s.q;
    MultipleDecodes(s, b, a);
    MultipleDecodes(s, b, r);
    Exp256Of32();
    FromTo(n, 32);
    var sig := rs + ToLE(n, 32);
    assert sig[..32] == rs && sig[32..] == ToLE(n, 32);
  }

  lemma Pow2Of64(k: nat)
    requires k == 8
    ensures Pow2(8 * k) == 0x10000000000000000 && Pow2(4 * k) == 0x100000000 && Pow2(2 * k) == 0x10000
  {
    Pow2Six(k);
    hide Pow2;
    Joined(k, k, 0x100, 0x100);
    Joined(2 * k, 2 * k, 0x10000, 0x10000);
    Joined(4 * k, 4 * k, 0x100000000, 0x100000000);
  }

  lemma Pow2Of192(k: nat)
    requires k == 8
    ensures Pow2(24 * k) == 0x1000000000000000000000000000000000000000000000000
  {
    Pow2Of64(k);
    hide Pow2;
    Joined(8 * k, 8 * k, 0x10000000000000000, 0x10000000000000000);
    Joined(16 * k, 8 * k, 0x100000000000000000000000000000000, 0x10000000000000000);
  }

  lemma Pow2Of(k: nat, n: nat)
    requires k == 8 && n == 254
    ensures Pow2(n) == TWO_TO_254
  {
    Pow2Six(k - 2);
    Pow2Six(k);
    Pow2Of64(k);
    Pow2Of192(k);
    hide Pow2;
    Joined(24 * k, 4 * k, 0x1000000000000000000000000000000000000000000000000, 0x100000000);
    Joined(28 * k, 2 * k, 0x100000000000000000000000000000000000000000000000000000000, 0x10000);
    Joined(30 * k, k, 0x1000000000000000000000000000000000000000000000000000000000000, 0x100);
    Joined(31 * k, k - 2, 0x100000000000000000000000000000000000000000000000000000000000000, 0x40);
  }

  lemma Joined(a: nat, b: nat, u: nat, v: nat)
    requires Pow2(a) == u && Pow2(b) == v
    ensures Pow2(a + b) == u * v
  {
    Pow2Add(a, b);
  }

  lemma Pow2Six(k: nat)
    ensures k == 6 ==> Pow2(k) == 64
    ensures k == 8 ==> Pow2(k) == 256
  {
    if k >= 6 {
      assert Pow2(k) == 2 * Pow2(k - 1) == 4 * Pow2(k - 2) == 8 * Pow2(k - 3) == 16 * Pow2(k - 4) == 32 * Pow2(k - 5) == 64 * Pow2(k - 6);
    }
  }

  /** The secret scalar has the bits 3 to 253 of the number, bit 254 set and all others clear. */
  lemma ClampBits(n: nat, i: nat)
    ensures Bit(Clamp(n), i) <==> i == 254 || (3 <= i < 254 && Bit(n, i))
  {
    hide Bit, Pow2;
    var k, w, x := 8, 254, n % TWO_TO_254;
    Pow2Of(k, w);
    BitLow(n, w, i);
    BitEighths(x, i);
    BitTop(x / 8 * 8, w, i);
  }

  /** The key of a seed is a point of order Q, when Q is an odd prime above 2^252. */
  lemma KeyNotNeutral(s: Scheme, b: Affine, n: nat)
    requires Sound(s, b) && Prime(s.q) && b != Neutral && 4 * s.q > TWO_TO_254 && s.q % 2 == 1
    ensures Times(s.c, Clamp(n), b) != Neutral && Times(s.c, s.q, Times(s.c, Clamp(n), b)) == Neutral
  {
    hide Times, On, Represents, Prime, Usable;
    var a := Clamp(n);
    ScalarApart(a, TWO_TO_254, s.q);
    UsableComplete(s.c);
    TimesModulo(s.c, a, s.q, b);
    ExactOrder(s.c, a % s.q, s.q, b);
    TimesTimes(s.c, s.q, a, b);
    TimesTimes(s.c, a, s.q, b);
    assert s.q * a == a * s.q;
    TimesOfNeutral(s.c, a);
  }

  lemma ScalarApart(a: nat, t: nat, q: nat)
    requires a % 8 == 0 && 0 < a < 2 * t && 4 * q > t && q % 2 == 1
    ensures a % q != 0
  {
    if a % q == 0 {
      var k := a / q;
      assert a == k * q;
      AtLeastOnce(k - 7, q);
      assert (k - 7) * q == k * q - 7 * q;
      SmallFactor(k, q);
    }
  }

  lemma SmallFactor(k: nat, q: nat)
    requires 0 < k < 8 && q % 2 == 1
    ensures k * q % 8 != 0
  {
    assert k == 1 || k == 2 || k == 3 || k == 4 || k == 5 || k == 6 || k == 7;
  }

  /** What a seed's key signs is accepted for another message exactly when the two hash to the same number modulo Q. */
  lemma SignedBinds(s: Scheme, b: Affine, seed: seq<byte>, msg: seq<byte>, msg': seq<byte>)
    requires Sound(s, b) && Prime(s.q) && b != Neutral && 4 * s.q > TWO_TO_254 && s.q % 2 == 1 && |seed| == 32
    ensures PublicKey(s, seed).Ok? && Sign(s, seed, msg).Ok?
    ensures var pub, sig := PublicKey(s, seed).value, Sign(s, seed, msg).value;
            Verify(s, pub, msg', sig) <==>
              FromLE(s.sha512(sig[..32] + pub + msg)) % s.q == FromLE(s.sha512(sig[..32] + pub + msg')) % s.q
  {
    hide Sum, Times, Mul, Represents, On, Compress, FromLE, ToLE, Decoded, Clamp, Usable, Verify, PublicKey, Sign, Prime;
    SignedVerifies(s, b, seed, msg);
    SignMeans(s, b, seed, msg);
    KeyNotNeutral(s, b, FromLE(s.sha512(seed)[..32]));
    MessageBound(s, b, PublicKey(s, seed).value, msg, msg', Sign(s, seed, msg).value);
  }

  // ---- the hypotheses can be met ----

  lemma SmallPrimes()
    ensures Prime(2) && Prime(13)
  {
    assert forall m :: 1 < m < 13 ==> 13 % m != 0;
  }

  /** 2 is not a square modulo 13. */
  lemma NotTwo(w: int)
    ensures !IsRoot(w, 2, 13)
  {
    hide Zero;
    var r := w % 13;
    NotTwoSmall(r);
    ReducedSquare(w, 13);
    if Zero(w * w - 2, 13) {
      Combine(1, r * r - w * w, 1, w * w - 2, 13);
    }
  }

  lemma NotTwoSmall(r: int)
    requires 0 <= r < 13
    ensures !Zero(r * r - 2, 13)
  {
    assert r == 0 || r == 1 || r == 2 || r == 3 || r == 4 || r == 5 || r == 6 || r == 7 || r == 8 || r == 9 || r == 10 || r == 11 || r == 12;
  }

  lemma SmallCurve(c: Curve)
    requires c == Curve(13, 2)
    ensures Usable(c) && On(c, Affine(0, 12)) && Negate(c, Affine(0, 12)) == Affine(0, 12)
    ensures Represents(c, Ext(0, 12, 1, 0), Affine(0, 12))
  {
    SmallPrimes();
    forall w
      ensures !IsRoot(w, c.d, c.p)
    {
      NotTwo(w);
    }
  }

  /** A small curve with a base point of order two meets every hypothesis used above. */
  lemma HypothesesMet(sha512: seq<byte> -> Digest)
    ensures var s, b := Scheme(Curve(13, 2), 2, Ext(0, 12, 1, 0), sha512), Affine(0, 12);
            Sound(s, b) && Prime(s.q) && b != Neutral
  {
    hide Usable, On, Represents, Sum, Negate, Prime;
    var c, b := Curve(13, 2), Affine(0, 12);
    SmallPrimes();
    SmallCurve(c);
    UsableComplete(c);
    SumNeutral(c, b);
    SumNegate(c, b);
    SumCommutes(c, b, Neutral);
    OrderTwo(c, b);
  }

  lemma UsableComplete(c: Curve)
    requires Usable(c)
    ensures Complete(c)
  {
  }

  lemma OrderTwo(c: Curve, b: Affine)
    requires Sum(c, b, b) == Neutral && Sum(c, b, Neutral) == b
    ensures Times(c, 2, b) == Neutral
  {
    hide Sum;
    assert Times(c, 1, b) == Sum(c, b, Times(c, 0, b));
  }
}
