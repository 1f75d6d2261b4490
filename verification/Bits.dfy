/** Bitwise operators on natural numbers, and on byte strings position by position. */
module Bits {
  import opened Bytes
  import opened Modular

  function And(a: nat, b: nat): nat {
    if a == 0 || b == 0 then 0 else 2 * And(a / 2, b / 2) + (if a % 2 == 1 && b % 2 == 1 then 1 else 0)
  }

  function Or(a: nat, b: nat): nat
    decreases a + b
  {
    if a == 0 && b == 0 then 0 else 2 * Or(a / 2, b / 2) + (if a % 2 == 1 || b % 2 == 1 then 1 else 0)
  }

  function Xor(a: nat, b: nat): nat
    decreases a + b
  {
    if a == 0 && b == 0 then 0 else 2 * Xor(a / 2, b / 2) + (if a % 2 != b % 2 then 1 else 0)
  }

  function Pow2(k: nat): (p: nat)
    ensures p > 0
  {
    if k == 0 then 1 else 2 * Pow2(k - 1)
  }

  /** Bit k of n. */
  predicate Bit(n: nat, k: nat) {
    if k == 0 then n % 2 == 1 else Bit(n / 2, k - 1)
  }

  lemma {:induction false} ZeroBits(k: nat)
    ensures !Bit(0, k)
  {
    if k == 0 {
    } else {
      ZeroBits(k - 1);
    }
  }

  /** The operators work bit by bit. */
  lemma {:induction false} AndBits(a: nat, b: nat, k: nat)
    ensures Bit(And(a, b), k) <==> Bit(a, k) && Bit(b, k)
    decreases k
  {
    ZeroBits(k);
    if k == 0 {
    } else {
      AndBits(a / 2, b / 2, k - 1);
      HalfOf(And(a, b), And(a / 2, b / 2), a == 0 || b == 0);
    }
  }

  lemma {:induction false} OrBits(a: nat, b: nat, k: nat)
    ensures Bit(Or(a, b), k) <==> Bit(a, k) || Bit(b, k)
    decreases k
  {
    ZeroBits(k);
    if k == 0 {
    } else {
      OrBits(a / 2, b / 2, k - 1);
      HalfOf(Or(a, b), Or(a / 2, b / 2), a == 0 && b == 0);
    }
  }

  lemma {:induction false} XorBits(a: nat, b: nat, k: nat)
    ensures Bit(Xor(a, b), k) <==> Bit(a, k) != Bit(b, k)
    decreases k
  {
    ZeroBits(k);
    if k == 0 {
    } else {
      XorBits(a / 2, b / 2, k - 1);
      HalfOf(Xor(a, b), Xor(a / 2, b / 2), a == 0 && b == 0);
    }
  }

  lemma HalfOf(whole: nat, half: nat, zero: bool)
    requires if zero then whole == half == 0 else whole == 2 * half || whole == 2 * half + 1
    ensures whole / 2 == half
  {
  }

  lemma {:induction false} XorBound(a: nat, b: nat, k: nat)
    requires a < Pow2(k) && b < Pow2(k)
    ensures Xor(a, b) < Pow2(k)
  {
    if k == 0 {
    } else {
      XorBound(a / 2, b / 2, k - 1);
    }
  }

  lemma {:induction false} AndBound(a: nat, b: nat)
    ensures And(a, b) <= a
  {
    if a == 0 || b == 0 {
    } else {
      AndBound(a / 2, b / 2);
    }
  }

  lemma {:induction false} OrBound(a: nat, b: nat, k: nat)
    requires a < Pow2(k) && b < Pow2(k)
    ensures Or(a, b) < Pow2(k)
  {
    if k == 0 {
    } else {
      OrBound(a / 2, b / 2, k - 1);
    }
  }

  /** Masking twice with the same number undoes itself. */
  lemma {:induction false} XorTwice(a: nat, b: nat)
    ensures Xor(Xor(a, b), b) == a
    decreases a + b
  {
    if a == 0 && b == 0 {
    } else {
      XorTwice(a / 2, b / 2);
      var x := Xor(a, b);
      assert x / 2 == Xor(a / 2, b / 2);
    }
  }

  /** A mask is determined by what it does. */
  lemma XorCancels(a: nat, m: nat, n: nat)
    requires Xor(a, m) == Xor(a, n)
    ensures m == n
  {
    XorCommutes(a, m);
    XorCommutes(a, n);
    XorTwice(m, a);
    XorTwice(n, a);
  }

  lemma {:induction false} XorCommutes(a: nat, b: nat)
    ensures Xor(a, b) == Xor(b, a)
    decreases a + b
  {
    if a == 0 && b == 0 {
    } else {
      XorCommutes(a / 2, b / 2);
    }
  }

  /** The number with `h` above the k low bits of `l`. */
  function Join(h: nat, l: nat, k: nat): nat {
    if k == 0 then h else 2 * Join(h, l / 2, k - 1) + l % 2
  }

  lemma AndDigit(x: nat, p: nat, y: nat, q: nat)
    requires p < 2 && q < 2
    ensures And(2 * x + p, 2 * y + q) == 2 * And(x, y) + (if p == 1 && q == 1 then 1 else 0)
  {
    assert (2 * x + p) / 2 == x && (2 * y + q) / 2 == y;
    AndStep(2 * x + p, 2 * y + q);
  }

  lemma OrDigit(x: nat, p: nat, y: nat, q: nat)
    requires p < 2 && q < 2
    ensures Or(2 * x + p, 2 * y + q) == 2 * Or(x, y) + (if p == 1 || q == 1 then 1 else 0)
  {
    assert (2 * x + p) / 2 == x && (2 * y + q) / 2 == y;
    OrStep(2 * x + p, 2 * y + q);
  }

  lemma JoinDigit(h: nat, l: nat, p: nat, k: nat)
    requires k > 0 && p < 2
    ensures Join(h, 2 * l + p, k) == 2 * Join(h, l, k - 1) + p
  {
    assert (2 * l + p) / 2 == l && (2 * l + p) % 2 == p;
  }

  lemma AndJoinDigit(ah: nat, x: nat, p: nat, bh: nat, y: nat, q: nat, k: nat)
    requires k > 0 && p < 2 && q < 2
    requires And(Join(ah, x, k - 1), Join(bh, y, k - 1)) == Join(And(ah, bh), And(x, y), k - 1)
    ensures And(Join(ah, 2 * x + p, k), Join(bh, 2 * y + q, k)) == Join(And(ah, bh), And(2 * x + p, 2 * y + q), k)
  {
    JoinDigit(ah, x, p, k);
    JoinDigit(bh, y, q, k);
    AndDigit(Join(ah, x, k - 1), p, Join(bh, y, k - 1), q);
    AndDigit(x, p, y, q);
    JoinDigit(And(ah, bh), And(x, y), if p == 1 && q == 1 then 1 else 0, k);
  }

  lemma {:induction false} AndJoin(ah: nat, al: nat, bh: nat, bl: nat, k: nat)
    ensures And(Join(ah, al, k), Join(bh, bl, k)) == Join(And(ah, bh), And(al, bl), k)
  {
    if k == 0 {
    } else {
      AndJoin(ah, al / 2, bh, bl / 2, k - 1);
      AndJoinDigit(ah, al / 2, al % 2, bh, bl / 2, bl % 2, k);
    }
  }

  lemma OrJoinDigit(ah: nat, x: nat, p: nat, bh: nat, y: nat, q: nat, k: nat)
    requires k > 0 && p < 2 && q < 2
    requires Or(Join(ah, x, k - 1), Join(bh, y, k - 1)) == Join(Or(ah, bh), Or(x, y), k - 1)
    ensures Or(Join(ah, 2 * x + p, k), Join(bh, 2 * y + q, k)) == Join(Or(ah, bh), Or(2 * x + p, 2 * y + q), k)
  {
    JoinDigit(ah, x, p, k);
    JoinDigit(bh, y, q, k);
    OrDigit(Join(ah, x, k - 1), p, Join(bh, y, k - 1), q);
    OrDigit(x, p, y, q);
    JoinDigit(Or(ah, bh), Or(x, y), if p == 1 || q == 1 then 1 else 0, k);
  }

  lemma {:induction false} OrJoin(ah: nat, al: nat, bh: nat, bl: nat, k: nat)
    ensures Or(Join(ah, al, k), Join(bh, bl, k)) == Join(Or(ah, bh), Or(al, bl), k)
  {
    if k == 0 {
    } else {
      OrJoin(ah, al / 2, bh, bl / 2, k - 1);
      OrJoinDigit(ah, al / 2, al % 2, bh, bl / 2, bl % 2, k);
    }
  }

  lemma JoinNibble(h: nat, l: nat)
    requires l < 16
    ensures Join(h, l, 4) == 16 * h + l
  {
    assert Join(h, l / 2 / 2 / 2, 1) == 2 * Join(h, l / 2 / 2 / 2 / 2, 0) + l / 2 / 2 / 2 % 2;
    assert Join(h, l / 2 / 2, 2) == 2 * Join(h, l / 2 / 2 / 2, 1) + l / 2 / 2 % 2;
    assert Join(h, l / 2, 3) == 2 * Join(h, l / 2 / 2, 2) + l / 2 % 2;
  }

  lemma AndStep(a: nat, b: nat)
    ensures And(a, b) == 2 * And(a / 2, b / 2) + (if a % 2 == 1 && b % 2 == 1 then 1 else 0)
  {
  }

  lemma OrStep(a: nat, b: nat)
    ensures Or(a, b) == 2 * Or(a / 2, b / 2) + (if a % 2 == 1 || b % 2 == 1 then 1 else 0)
  {
  }

  lemma {:induction false} OrZero(a: nat)
    ensures Or(a, 0) == a
  {
    if a == 0 {
    } else {
      OrZero(a / 2);
    }
  }

  /** Masking with ones keeps a number that fits. */
  lemma {:induction false} AndOnes(a: nat, k: nat)
    requires a < Pow2(k)
    ensures And(a, Pow2(k) - 1) == a
  {
    if k == 0 {
    } else {
      AndOnes(a / 2, k - 1);
      AndStep(a, Pow2(k) - 1);
    }
  }

  lemma ByteBound(a: Byte, b: Byte)
    ensures 0 <= Xor(a, b) < 256 && 0 <= And(a, b) < 256 && 0 <= Or(a, b) < 256
  {
    assert Pow2(4) == 16;
    assert Pow2(8) == 16 * Pow2(4);
    XorBound(a, b, 8);
    OrBound(a, b, 8);
    AndBound(a, b);
  }

  function XorByte(a: Byte, b: Byte): Byte {
    ByteBound(a, b);
    Xor(a, b)
  }

  function AndByte(a: Byte, b: Byte): Byte {
    ByteBound(a, b);
    And(a, b)
  }

  function OrByte(a: Byte, b: Byte): Byte {
    ByteBound(a, b);
    Or(a, b)
  }

  /** b_and: stops at the end of the shorter string. */
  function AndBufs(a: Buf, b: Buf): (r: Buf)
    ensures |r| == Min(|a|, |b|)
  {
    seq(Min(|a|, |b|), i requires 0 <= i < Min(|a|, |b|) => AndByte(a[i], b[i]))
  }

  function OrBufs(a: Buf, b: Buf): (r: Buf)
    ensures |r| == Min(|a|, |b|)
  {
    seq(Min(|a|, |b|), i requires 0 <= i < Min(|a|, |b|) => OrByte(a[i], b[i]))
  }

  lemma AndPair(x: Byte, y: Byte, p: Byte, q: Byte)
    ensures AndBufs([x, y], [p, q]) == [AndByte(x, p), AndByte(y, q)]
  {
  }

  lemma OrPair(x: Byte, y: Byte, p: Byte, q: Byte)
    ensures OrBufs([x, y], [p, q]) == [OrByte(x, p), OrByte(y, q)]
  {
  }

  function XorZip(a: Buf, b: Buf): (r: Buf)
    ensures |r| == Min(|a|, |b|)
  {
    seq(Min(|a|, |b|), i requires 0 <= i < Min(|a|, |b|) => XorByte(a[i], b[i]))
  }

  /** xor_bufs mixes each string cyclically to the longer length and keeps the shorter; it divides by
      zero when exactly one of them is empty. */
  predicate XorFails(a: Buf, b: Buf) {
    (|a| == 0) != (|b| == 0)
  }

  function Cyclic(a: Buf, i: nat): (x: Byte)
    requires |a| > 0
    ensures i < |a| ==> x == a[i]
  {
    if i < |a| then ModSmall(i, |a|); a[i % |a|] else a[i % |a|]
  }

  method XorBufs(a: Buf, b: Buf) returns (ok: bool, r: Buf)
    ensures ok == !XorFails(a, b)
    ensures ok <==> (a == [] <==> b == [])
    ensures ok ==> r == XorZip(a, b)
  {
    r := [];
    if XorFails(a, b) {
      return false, [];
    }
    var n := Max(|a|, |b|);
    for i := 0 to n
      invariant |r| == i && (i > 0 ==> |a| > 0 && |b| > 0)
      invariant forall k :: 0 <= k < i && k < |a| && k < |b| ==> r[k] == XorByte(a[k], b[k])
    {
      r := r + [XorByte(Cyclic(a, i), Cyclic(b, i))];
    }
    ok, r := true, r[..Min(|a|, |b|)];
  }

  lemma XorZipTwice(a: Buf, m: Buf)
    requires |a| <= |m|
    ensures XorZip(XorZip(a, m), m) == a
  {
    forall i | 0 <= i < |a| ensures XorZip(XorZip(a, m), m)[i] == a[i] {
      XorTwice(a[i], m[i]);
    }
  }
}
