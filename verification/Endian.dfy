/** Fixed-width integers as byte strings, in both byte orders. */
module Endian {
  import opened Bytes

  function Pow256(k: nat): (p: nat)
    ensures p > 0
  {
    if k == 0 then 1 else 256 * Pow256(k - 1)
  }

  lemma FieldSizes()
    ensures Pow256(1) == 0x100 && Pow256(2) == 0x1_0000
    ensures Pow256(4) == 0x1_0000_0000 && Pow256(8) == 0x1_0000_0000_0000_0000
  {
    assert Pow256(1) == 256 * Pow256(0);
    assert Pow256(3) == 256 * Pow256(2) && Pow256(4) == 256 * Pow256(3);
    assert Pow256(5) == 256 * Pow256(4) && Pow256(6) == 256 * Pow256(5);
    assert Pow256(7) == 256 * Pow256(6) && Pow256(8) == 256 * Pow256(7);
  }

  /** struct.pack("<...") for a k-byte field */
  function Little(n: nat, k: nat): (b: Buf)
    ensures |b| == k
  {
    if k == 0 then [] else [n % 256] + Little(n / 256, k - 1)
  }

  function FromLittle(b: Buf): nat {
    if |b| == 0 then 0 else b[0] + 256 * FromLittle(b[1..])
  }

  lemma {:induction false} LittleRoundTrip(n: nat, k: nat)
    requires n < Pow256(k)
    ensures FromLittle(Little(n, k)) == n
  {
    if k == 0 {
    } else {
      LittleRoundTrip(n / 256, k - 1);
      assert Little(n, k)[1..] == Little(n / 256, k - 1);
    }
  }

  /** struct.pack("!...") for a k-byte field */
  function Big(n: nat, k: nat): (b: Buf)
    ensures |b| == k
  {
    if k == 0 then [] else Big(n / 256, k - 1) + [n % 256]
  }

  function FromBig(b: Buf): nat {
    if |b| == 0 then 0 else 256 * FromBig(b[..|b| - 1]) + b[|b| - 1]
  }

  lemma {:induction false} BigRoundTrip(n: nat, k: nat)
    requires n < Pow256(k)
    ensures FromBig(Big(n, k)) == n
  {
    if k == 0 {
    } else {
      BigRoundTrip(n / 256, k - 1);
      assert Big(n, k)[..k - 1] == Big(n / 256, k - 1);
    }
  }

  /** Any k bytes are the k-byte field of the number they spell. */
  lemma {:induction false} BigOfBytes(b: Buf)
    ensures FromBig(b) < Pow256(|b|) && Big(FromBig(b), |b|) == b
  {
    if |b| == 0 {
    } else {
      BigOfBytes(b[..|b| - 1]);
    }
  }

  /** The last byte of a big-endian field is the lowest, the first byte of a little-endian one. */
  lemma {:induction false} SmallNumber(n: Byte, k: nat)
    requires k > 0
    ensures Big(n, k) == Zeros(k - 1) + [n]
    ensures Little(n, k) == [n] + Zeros(k - 1)
  {
    BigZero(k - 1);
  }

  lemma {:induction false} BigZero(k: nat)
    ensures Big(0, k) == Zeros(k) == Little(0, k)
  {
    if k == 0 {
    } else {
      BigZero(k - 1);
    }
  }
}
