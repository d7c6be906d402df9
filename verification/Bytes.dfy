/** Byte strings and their little-endian reading, as int.from_bytes and int.to_bytes use it. */
module Bytes {

  type byte = x: int | 0 <= x < 256

  function Exp256(k: nat): int {
    if k == 0 then 1 else 256 * Exp256(k - 1)
  }

  const TWO_TO_255: int := 0x8000000000000000000000000000000000000000000000000000000000000000

  lemma {:induction false} Exp256Add(a: nat, b: nat)
    ensures Exp256(a + b) == Exp256(a) * Exp256(b)
    decreases a
  {
    if a > 0 {
      Exp256Add(a - 1, b);
      assert 256 * (Exp256(a - 1) * Exp256(b)) == (256 * Exp256(a - 1)) * Exp256(b);
    }
  }

  lemma Exp256Of32()
    ensures Exp256(32) == 2 * TWO_TO_255
  {
    assert Exp256(1) == 256 * Exp256(0);
    Exp256Add(1, 1);
    Exp256Add(2, 2);
    Exp256Add(4, 4);
    Exp256Add(8, 8);
    Exp256Add(16, 16);
  }

  function FromLE(b: seq<byte>): (n: nat)
    ensures n < Exp256(|b|)
  {
    if |b| == 0 then 0 else b[0] + 256 * FromLE(b[1..])
  }

  function ToLE(n: nat, k: nat): (b: seq<byte>)
    ensures |b| == k
    decreases k
  {
    if k == 0 then [] else [n % 256] + ToLE(n / 256, k - 1)
  }

  /** The first bytes are the low ones. */
  lemma {:induction false} FromJoined(a: seq<byte>, b: seq<byte>)
    ensures FromLE(a + b) == FromLE(a) + Exp256(|a|) * FromLE(b)
    ensures |a| == 1 ==> FromLE(a) == a[0]
  {
    if a == [] {
      assert a + b == b;
    } else {
      assert (a + b)[1..] == a[1..] + b && (a + b)[0] == a[0];
      FromJoined(a[1..], b);
      Grouped(a[0], FromLE(a[1..]), Exp256(|a| - 1), FromLE(b));
    }
  }

  lemma Grouped(x: int, f: int, e: int, n: int)
    ensures x + 256 * (f + e * n) == x + 256 * f + (256 * e) * n
  {
  }

  lemma {:induction false} FromTo(n: nat, k: nat)
    requires n < Exp256(k)
    ensures FromLE(ToLE(n, k)) == n
    decreases k
  {
    if k > 0 {
      assert n / 256 < Exp256(k - 1);
      FromTo(n / 256, k - 1);
      assert ToLE(n, k)[1..] == ToLE(n / 256, k - 1);
    }
  }

  lemma {:induction false} ToFrom(b: seq<byte>)
    ensures ToLE(FromLE(b), |b|) == b
  {
    if |b| > 0 {
      ToFrom(b[1..]);
      assert FromLE(b) % 256 == b[0] && FromLE(b) / 256 == FromLE(b[1..]);
      assert b == [b[0]] + b[1..];
    }
  }
}
