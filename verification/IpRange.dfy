/** Address blocks: an address split by a CIDR into network and host, indexed and compared. */
module IpRange {
  import opened Bits
  import opened Families
  import opened Modular
  import opened Options
  import opened Ranges

  const CIDR_WAN: nat := 1000

  /** The largest length len() can return. */
  const MAX_LEN: nat := 0x7FFF_FFFF_FFFF_FFFF

  function MaxCidr(af: Af): nat {
    if af == IP4 then 32 else 128
  }

  // ------------------------------------------------------------------
  // Counting bits
  // ------------------------------------------------------------------

  function PopCount(n: nat): nat {
    if n == 0 then 0 else n % 2 + PopCount(n / 2)
  }

  lemma {:induction false} AndSelf(n: nat)
    ensures And(n, n) == n
  {
    if n == 0 {
    } else {
      AndSelf(n / 2);
    }
  }

  lemma CountDouble(m: nat)
    ensures PopCount(2 * m) == PopCount(m)
  {
    assert 2 * m / 2 == m;
  }

  lemma OddLosesItsBit(n: nat, h: nat)
    requires n == 2 * h + 1
    ensures And(n, n - 1) == 2 * h && PopCount(n) == PopCount(h) + 1
  {
    AndStep(n, n - 1);
    AndSelf(h);
    assert (n - 1) / 2 == h;
  }

  lemma EvenPassesOn(n: nat, h: nat)
    requires h > 0 && n == 2 * h
    ensures And(n, n - 1) == 2 * And(h, h - 1)
  {
    AndStep(n, n - 1);
    assert (n - 1) / 2 == h - 1;
  }

  /** n & (n - 1) drops the lowest set bit. */
  lemma {:induction false} DropsLowestBit(n: nat)
    requires n > 0
    ensures And(n, n - 1) < n && PopCount(And(n, n - 1)) == PopCount(n) - 1
  {
    var h := n / 2;
    CountDouble(h);
    if n % 2 == 1 {
      OddLosesItsBit(n, h);
    } else {
      DropsLowestBit(h);
      EvenPassesOn(n, h);
      CountDouble(And(h, h - 1));
    }
  }

  method HammingWeight(n: nat) returns (c: nat)
    ensures c == PopCount(n)
  {
    c := 0;
    var m := n;
    while m != 0
      invariant c + PopCount(m) == PopCount(n)
      decreases m
    {
      DropsLowestBit(m);
      c := c + 1;
      m := And(m, m - 1);
    }
  }

  // ------------------------------------------------------------------
  // Netmasks
  // ------------------------------------------------------------------

  function Repeat(c: char, n: nat): (s: string)
    ensures |s| == n
  {
    seq(n, _ => c)
  }

  /** int(s, 2) for a string of 0s and 1s */
  function FromBinary(s: string): nat {
    if |s| == 0 then 0 else 2 * FromBinary(s[..|s| - 1]) + (if s[|s| - 1] == '1' then 1 else 0)
  }

  /** The address whose first `cidr` bits are set; None where it does not fit the family. */
  function CidrToNetmask(cidr: nat, af: Af): Option<nat> {
    var end := MaxCidr(af);
    var n := FromBinary(Repeat('1', cidr) + Repeat('0', if cidr <= end then end - cidr else 0));
    if n < Pow2(end) then Some(n) else None
  }

  lemma {:induction false} BinaryOfRun(ones: nat, zeros: nat)
    ensures var n := FromBinary(Repeat('1', ones) + Repeat('0', zeros));
            n == Pow2(ones + zeros) - Pow2(zeros) && PopCount(n) == ones
    decreases ones + zeros
  {
    var s := Repeat('1', ones) + Repeat('0', zeros);
    if zeros > 0 {
      BinaryOfRun(ones, zeros - 1);
      assert s[..|s| - 1] == Repeat('1', ones) + Repeat('0', zeros - 1);
      var m := FromBinary(s[..|s| - 1]);
      assert FromBinary(s) == 2 * m;
      assert PopCount(2 * m) == PopCount(m);
    } else if ones > 0 {
      BinaryOfRun(ones - 1, 0);
      assert s[..|s| - 1] == Repeat('1', ones - 1) + Repeat('0', 0);
      var m := FromBinary(s[..|s| - 1]);
      assert FromBinary(s) == 2 * m + 1;
      assert (2 * m + 1) / 2 == m;
    }
  }

  lemma DoubleProduct(a: int, b: int)
    ensures a * (2 * b) == 2 * (a * b)
  {
  }

  lemma {:induction false} Pow2Sum(a: nat, b: nat)
    ensures Pow2(a + b) == Pow2(a) * Pow2(b)
  {
    if a == 0 {
    } else {
      Pow2Sum(a - 1, b);
      DoubleProduct(Pow2(b), Pow2(a - 1));
    }
  }

  lemma {:induction false} Pow2Rises(a: nat, b: nat)
    requires a <= b
    ensures Pow2(a) <= Pow2(b) && (a < b ==> 2 * Pow2(a) <= Pow2(b))
  {
    if a >= b {
    } else {
      Pow2Rises(a, b - 1);
    }
  }

  /** A netmask exists exactly up to the width of the family, and counting its bits gives the CIDR back. */
  lemma HammingInvertsNetmask(cidr: nat, af: Af)
    ensures CidrToNetmask(cidr, af).Some? <==> cidr <= MaxCidr(af)
    ensures cidr <= MaxCidr(af) ==> PopCount(CidrToNetmask(cidr, af).value) == cidr
  {
    var end := MaxCidr(af);
    if cidr <= end {
      BinaryOfRun(cidr, end - cidr);
    } else {
      BinaryOfRun(cidr, 0);
      Pow2Rises(end, cidr);
    }
  }

  /** The other way round only a mask without gaps comes back. */
  lemma NetmaskInvertsHammingIff(mask: nat, af: Af)
    ensures CidrToNetmask(PopCount(mask), af) == Some(mask)
            <==> exists cidr: nat :: cidr <= MaxCidr(af) && CidrToNetmask(cidr, af) == Some(mask)
  {
    HammingInvertsNetmask(PopCount(mask), af);
    if cidr: nat :| cidr <= MaxCidr(af) && CidrToNetmask(cidr, af) == Some(mask) {
      HammingInvertsNetmask(cidr, af);
    }
  }

  // ------------------------------------------------------------------
  // Blocks
  // ------------------------------------------------------------------

  datatype Mask = Netmask(bits: nat) | Cidr(length: nat)

  datatype Block = Block(af: Af, cidr: nat, nw: nat, host: nat, hostNo: nat, r: Range)

  function HostBits(b: Block): nat
    requires b.cidr <= MaxCidr(b.af)
  {
    MaxCidr(b.af) - b.cidr
  }

  /** The fields for an address and a CIDR that fits. */
  function BlockOf(af: Af, ip: nat, cidr: nat): Block
    requires cidr <= MaxCidr(af)
  {
    var h := MaxCidr(af) - cidr;
    var host := ip % Pow2(h);
    var hostNo := if h == 0 || h == MaxCidr(af) then 1 else Pow2(h) - 1;
    HostWithin(ip, Pow2(h));
    Block(af, cidr, ip - host, host, hostNo, Range(ip - host, ip - host + if h == 0 then 0 else hostNo))
  }

  lemma HostWithin(ip: nat, m: nat)
    requires m > 0
    ensures ip % m <= ip && ip - ip % m == ip / m * m
  {
    assert ip == m * (ip / m) + ip % m;
    assert m * (ip / m) >= 0;
  }

  /** The CIDR an argument stands for. */
  function CidrOf(af: Af, mask: Mask): nat {
    match mask
    case Netmask(bits) => PopCount(bits)
    case Cidr(n) => if n == CIDR_WAN then MaxCidr(af) else n
  }

  function Blocked(af: Af, ip: nat, mask: Mask): Option<Block> {
    if mask == Netmask(ip) || CidrOf(af, mask) > MaxCidr(af) then None
    else Some(BlockOf(af, ip, CidrOf(af, mask)))
  }

  /** The low digits of n: the last one, and the low digits of its half. */
  lemma HalveRemainder(n: nat, m: nat, twice: nat)
    requires m > 0 && twice == 2 * m
    ensures n % twice == 2 * (n / 2 % m) + n % 2
  {
    var q, r := n / 2 / m, n / 2 % m;
    assert n / 2 == q * m + r;
    assert q * twice == 2 * (q * m);
    DivModUnique(n, twice, q, 2 * r + n % 2);
  }

  lemma AndOdd(m: nat, mask: nat, n: nat)
    requires m > 0 && mask == 2 * (m - 1) + 1
    ensures And(mask, n) == 2 * And(m - 1, n / 2) + n % 2
  {
    AndStep(mask, n);
    assert mask / 2 == m - 1 && mask % 2 == 1;
  }

  /** Masking with m - 1 leaves the remainder by m. */
  predicate MasksLow(n: nat, m: nat) {
    m > 0 && And(m - 1, n) == n % m
  }

  lemma MaskTwice(n: nat, m: nat, twice: nat)
    requires MasksLow(n / 2, m) && twice == 2 * m
    ensures MasksLow(n, twice)
  {
    HalveRemainder(n, m, twice);
    AndOdd(m, twice - 1, n);
  }

  lemma {:induction false} AndLowBits(n: nat, k: nat)
    ensures MasksLow(n, Pow2(k))
  {
    if k == 0 {
    } else {
      AndLowBits(n / 2, k - 1);
      MaskTwice(n, Pow2(k - 1), Pow2(k));
    }
  }

  /** The CIDR an argument stands for; None where it has no netmask. */
  method ReadMask(af: Af, mask: Mask) returns (cidr: Option<nat>)
    ensures cidr == if mask.Cidr? && CidrOf(af, mask) > MaxCidr(af) then None else Some(CidrOf(af, mask))
  {
    match mask {
      case Cidr(n) =>
        var length := n;
        if length != 0 {
          if length == CIDR_WAN {
            length := MaxCidr(af);
          }
          var netmask := CidrToNetmask(length, af);
          HammingInvertsNetmask(length, af);
          if netmask.None? {
            return None;
          }
        }
        return Some(length);
      case Netmask(bits) =>
        var weight := HammingWeight(bits);
        return Some(weight);
    }
  }

  method SplitAddress(af: Af, ip: nat, cidr: nat) returns (b: Block)
    requires cidr <= MaxCidr(af)
    ensures b == BlockOf(af, ip, cidr)
  {
    var width := MaxCidr(af);
    var hostBits := width - cidr;
    AndLowBits(ip, hostBits);
    HostWithin(ip, Pow2(hostBits));
    var nw, host, hostNo := ip, 0, 1;
    if hostBits != 0 {
      host := And(Pow2(hostBits) - 1, ip);
      nw := ip - host;
      if hostBits != width {
        hostNo := Pow2(hostBits) - 1;
      }
    }
    var r := if cidr == width then Range(nw, nw) else Range(nw, nw + hostNo);
    b := Block(af, cidr, nw, host, hostNo, r);
  }

  /** The constructor, for an address already parsed; None where an assertion or a conversion raises. */
  method MakeRange(af: Af, ip: nat, mask: Mask) returns (b: Option<Block>)
    ensures b == Blocked(af, ip, mask)
    ensures var width := match af case IP4 => 32 case IP6 => 128;
            match mask
            case Netmask(bits) =>
              && (b.None? <==> bits == ip || PopCount(bits) > width)
              && (b.Some? ==> b.value.cidr == PopCount(bits))
            case Cidr(n) =>
              && (b.None? <==> n > width && n != 1000)
              && (b.Some? ==> b.value.cidr == if n == 1000 then width else n)
    ensures b.Some? ==> b.value.af == af && b.value.nw + b.value.host == ip
  {
    if mask == Netmask(ip) {
      return None;
    }
    var cidr := ReadMask(af, mask);
    if cidr.None? || cidr.value > MaxCidr(af) {
      return None;
    }
    var block := SplitAddress(af, ip, cidr.value);
    b := Some(block);
  }

  /** All addresses with the block's network part. */
  function Whole(b: Block): Range
    requires b.cidr <= MaxCidr(b.af)
  {
    Range(b.nw, b.nw + Pow2(HostBits(b)) - 1)
  }

  predicate Built(b: Block) {
    && b.cidr <= MaxCidr(b.af)
    && b == BlockOf(b.af, b.nw + b.host, b.cidr)
  }

  /** The address comes back from its parts, and the range field is the whole block unless the CIDR is 0. */
  lemma BlockFacts(af: Af, ip: nat, cidr: nat)
    requires cidr <= MaxCidr(af)
    ensures var b := BlockOf(af, ip, cidr);
            && Built(b) && b.nw + b.host == ip && InRange(ip, Whole(b)) && b.host < Pow2(HostBits(b))
            && b.nw == ip / Pow2(HostBits(b)) * Pow2(HostBits(b)) && b.hostNo > 0
            && (cidr > 0 ==> b.r == Whole(b))
            && (cidr == 0 && ip < Pow2(MaxCidr(af)) ==> b.r == Range(0, 1) && b.nw == 0)
  {
    var h := MaxCidr(af) - cidr;
    HostWithin(ip, Pow2(h));
    Pow2Rises(0, h);
    if cidr == 0 && ip < Pow2(h) {
      ModSmall(ip, Pow2(h));
    }
  }

  // ------------------------------------------------------------------
  // Indexing
  // ------------------------------------------------------------------

  function GetValue(b: Block, i: int): nat
    requires b.cidr <= MaxCidr(b.af)
  {
    if b.cidr == MaxCidr(b.af) then b.nw
    else
      var offset := if i < 0 then i else i + 1;
      var host := Wrap(offset, b.hostNo + 1);
      b.nw + if host == 0 then 1 else host
  }

  /** Any index lands inside the block, and never on its network address unless that is all there is. */
  lemma IndexLandsInside(b: Block, i: int)
    requires Built(b)
    ensures InRange(GetValue(b, i), b.r) && InRange(GetValue(b, i), Whole(b))
    ensures b.cidr < MaxCidr(b.af) ==> GetValue(b, i) > b.nw
  {
    BlockFacts(b.af, b.nw + b.host, b.cidr);
    Pow2Rises(0, HostBits(b));
  }

  /** Indices below the length count up from the first host. */
  lemma IndexCounts(b: Block, i: nat)
    requires Built(b) && i < b.hostNo
    ensures GetValue(b, i) == if b.cidr == MaxCidr(b.af) then b.nw else b.nw + 1 + i
  {
  }

  /** Negative indices count back from the end. */
  lemma NegativeIndex(b: Block, k: int)
    requires Built(b) && 1 <= k <= b.hostNo
    ensures GetValue(b, -k) == GetValue(b, b.hostNo - k)
  {
    assert Wrap(-k, b.hostNo + 1) == b.hostNo + 1 - k;
  }

  function Hosts(b: Block): seq<nat>
    requires b.cidr <= MaxCidr(b.af)
  {
    seq(b.hostNo, i => GetValue(b, i))
  }

  /** A proper block's indices go through all its addresses but the network address, each once. */
  lemma HostsAreAllButNetwork(b: Block, x: nat)
    requires Built(b) && 0 < b.cidr < MaxCidr(b.af)
    ensures x in Hosts(b) <==> InRange(x, Whole(b)) && x != b.nw
    ensures forall i, j :: 0 <= i < j < |Hosts(b)| ==> Hosts(b)[i] < Hosts(b)[j]
  {
    forall i | 0 <= i < b.hostNo ensures Hosts(b)[i] == b.nw + 1 + i {
      IndexCounts(b, i);
    }
    assert Whole(b).hi == b.nw + b.hostNo;
    if InRange(x, Whole(b)) && x != b.nw {
      assert Hosts(b)[x - b.nw - 1] == x;
    }
  }

  /** The host part of the address plays no role in indexing: index 0 is the address only for host 1. */
  lemma FirstIndexIsAddressIff(af: Af, ip: nat, cidr: nat)
    requires cidr <= MaxCidr(af) && ip < Pow2(MaxCidr(af))
    ensures GetValue(BlockOf(af, ip, cidr), 0) == ip <==> cidr == MaxCidr(af) || BlockOf(af, ip, cidr).host == 1
  {
    var b := BlockOf(af, ip, cidr);
    BlockFacts(af, ip, cidr);
    IndexCounts(b, 0);
    if cidr == MaxCidr(af) {
      assert Pow2(0) == 1;
    }
  }

  // ------------------------------------------------------------------
  // Iterating
  // ------------------------------------------------------------------

  function IterValue(b: Block, reverse: bool, p: nat): nat
    requires b.cidr <= MaxCidr(b.af)
  {
    if reverse then GetValue(b, b.hostNo - 1 - p) else GetValue(b, p)
  }

  /** What an iterator delivers until it stops. */
  function Delivered(b: Block, reverse: bool): seq<nat>
    requires b.cidr <= MaxCidr(b.af)
  {
    seq(b.hostNo, (p: nat) => IterValue(b, reverse, p))
  }

  class IPRangeIter {
    const ipr: Block
    const reverse: bool
    var hostP: nat

    constructor (ipr: Block, reverse: bool)
      ensures this.ipr == ipr && this.reverse == reverse && hostP == 0
    {
      this.ipr := ipr;
      this.reverse := reverse;
      hostP := 0;
    }

    /** None ends the iteration; `ok` is false where len() overflows on the way back. */
    method Next() returns (ok: bool, r: Option<nat>)
      requires ipr.cidr <= MaxCidr(ipr.af) && hostP <= ipr.hostNo
      modifies this
      ensures ok <==> old(hostP) >= ipr.hostNo || !reverse || ipr.hostNo <= MAX_LEN
      ensures ok ==> if old(hostP) < |Delivered(ipr, reverse)|
                     then r == Some(Delivered(ipr, reverse)[old(hostP)]) && hostP == old(hostP) + 1
                     else r == None && hostP == old(hostP)
      ensures !ok ==> r == None && hostP == old(hostP)
    {
      if hostP >= ipr.hostNo {
        return true, None;
      }
      if !reverse {
        r := Some(GetValue(ipr, hostP));
      } else {
        if ipr.hostNo > MAX_LEN {
          return false, None;
        }
        r := Some(GetValue(ipr, (ipr.hostNo - 1) - hostP));
      }
      ok := true;
      hostP := hostP + 1;
    }
  }

  /** Forward iteration lists the hosts; reverse iteration lists them backwards. */
  lemma IterationOrder(b: Block, p: nat)
    requires Built(b) && p < b.hostNo
    ensures Delivered(b, false) == Hosts(b)
    ensures |Delivered(b, true)| == |Hosts(b)| && Delivered(b, true)[p] == Hosts(b)[b.hostNo - 1 - p]
  {
  }

  // ------------------------------------------------------------------
  // Comparing
  // ------------------------------------------------------------------

  predicate Equal(a: Block, b: Block) {
    RangeIntersects(a.r, b.r)
  }

  predicate Within(a: Range, b: Range) {
    b.lo <= a.lo && a.hi <= b.hi
  }

  predicate Nested(a: Block, b: Block)
    requires a.cidr <= MaxCidr(a.af) && b.cidr <= MaxCidr(b.af)
  {
    Within(Whole(a), Whole(b)) || Within(Whole(b), Whole(a))
  }

  lemma TimesRises(a: int, b: int, s: int)
    requires s > 0 && a * s < b * s
    ensures a < b
  {
    if b <= a {
      MulMonotone(b, a, s);
    }
  }

  /** Stretches of s numbers and of k * s numbers, both starting at multiples of s. */
  lemma AlignedMeet(p: int, k: int, q: int, s: int)
    requires s > 0
    requires p * s <= q * s + s - 1 && q * s <= (p + k) * s - 1
    ensures p * s <= q * s && q * s + s <= (p + k) * s
  {
    assert (q + 1) * s == q * s + s;
    TimesRises(p, q + 1, s);
    TimesRises(q, p + k, s);
    MulMonotone(p, q, s);
    MulMonotone(q + 1, p + k, s);
  }

  lemma Regroup(p: int, k: int, s: int)
    ensures p * (k * s) == (p * k) * s && (p * k + k) * s == p * (k * s) + k * s
  {
    assert p * (k * s) == (p * k) * s;
    assert (p * k + k) * s == (p * k) * s + k * s;
  }

  lemma SmallerInside(a: Block, b: Block)
    requires Built(a) && Built(b) && a.af == b.af && a.cidr <= b.cidr
    requires a.nw <= Whole(b).hi && b.nw <= Whole(a).hi
    ensures Within(Whole(b), Whole(a))
  {
    var h, g := HostBits(b), HostBits(a);
    var s, k := Pow2(h), Pow2(g - h);
    BlockFacts(a.af, a.nw + a.host, a.cidr);
    BlockFacts(b.af, b.nw + b.host, b.cidr);
    Pow2Sum(g - h, h);
    NestedSizes(a.nw, b.nw, (a.nw + a.host) / Pow2(g), k, (b.nw + b.host) / s, s);
  }

  lemma NestedSizes(x: int, y: int, p: int, k: int, q: int, s: int)
    requires s > 0 && x == p * (k * s) && y == q * s
    requires x <= y + s - 1 && y <= x + k * s - 1
    ensures x <= y && y + s <= x + k * s
  {
    Regroup(p, k, s);
    AlignedMeet(p * k, k, q, s);
  }

  /** Blocks of one family that share an address are nested. */
  lemma MeetMeansNested(a: Block, b: Block)
    requires Built(a) && Built(b) && a.af == b.af
    requires a.nw <= Whole(b).hi && b.nw <= Whole(a).hi
    ensures Nested(a, b)
  {
    if a.cidr <= b.cidr {
      SmallerInside(a, b);
    } else {
      SmallerInside(b, a);
    }
  }

  /** A block of CIDR 0 takes only the addresses 0 and 1 into the comparison. */
  predicate ZeroReaches(zero: Block, b: Block) {
    zero.cidr == 0 && b.cidr != 0 ==> b.nw <= 1
  }

  /** Inside one family == is nesting, exactly when no block of CIDR 0 misses the other one. */
  lemma EqualIsNestedIff(af: Af, x: nat, c: nat, y: nat, d: nat)
    requires c <= MaxCidr(af) && d <= MaxCidr(af) && x < Pow2(MaxCidr(af)) && y < Pow2(MaxCidr(af))
    ensures var a, b := BlockOf(af, x, c), BlockOf(af, y, d);
            (Equal(a, b) <==> Nested(a, b)) <==> ZeroReaches(a, b) && ZeroReaches(b, a)
  {
    var a, b := BlockOf(af, x, c), BlockOf(af, y, d);
    BlockFacts(af, x, c);
    BlockFacts(af, y, d);
    if c > 0 && d > 0 {
      if Equal(a, b) {
        MeetMeansNested(a, b);
      }
    } else {
      ZeroHoldsAll(af, x, c, y);
      ZeroHoldsAll(af, y, d, x);
      if c == 0 && d > 0 {
        HoldsBlock(a, b, y);
      } else if d == 0 && c > 0 {
        HoldsBlock(b, a, x);
      }
    }
  }

  lemma ZeroHoldsAll(af: Af, x: nat, c: nat, y: nat)
    requires c <= MaxCidr(af) && x < Pow2(MaxCidr(af)) && y < Pow2(MaxCidr(af))
    ensures c == 0 ==> Whole(BlockOf(af, x, c)) == Range(0, Pow2(MaxCidr(af)) - 1)
  {
    BlockFacts(af, x, c);
  }

  lemma HoldsBlock(zero: Block, b: Block, ip: nat)
    requires Built(zero) && Built(b) && zero.af == b.af && zero.cidr == 0
    requires Whole(zero) == Range(0, Pow2(MaxCidr(b.af)) - 1)
    requires b.nw + b.host == ip && ip < Pow2(MaxCidr(b.af))
    ensures Nested(zero, b)
  {
    BlockFacts(b.af, ip, b.cidr);
    SmallerInside(zero, b);
  }
}
