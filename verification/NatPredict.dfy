/**
 Port prediction for hole punching: given one mapping learned from a STUN server,
 guess the external ports a NAT will hand out next and choose local ports for them.
 Random picks are parameters, so results hold for every pick.
 */
module NatPredict {
  import opened Bytes
  import opened Modular
  import opened Options
  import opened Ranges

  const MAX_PORT := 65535
  const STUN_PORT := 3478

  datatype NatType =
    OpenInternet | SymmetricUdpFirewall | FullCone | RestrictNat | RestrictPortNat | SymmetricNat | BlockedNat

  datatype DeltaType =
    NaDelta | EqualDelta | PreservDelta | IndependentDelta | DependentDelta | RandomDelta

  datatype Nat = Nat(kind: NatType, delta: DeltaType, step: int, range: Range) {
    predicate IsOpen() {
      kind.OpenInternet? || kind.SymmetricUdpFirewall?
    }

    /** Neither an easy NAT nor one whose ports follow the local ones. */
    predicate IsHard() {
      !(kind.OpenInternet? || kind.FullCone?) && !(delta.PreservDelta? || delta.EqualDelta?)
    }

    predicate CanPredict() {
      kind.FullCone? || kind.RestrictNat? || kind.RestrictPortNat? || kind.OpenInternet?
    }
  }

  datatype PunchMode = Lan | Remote | Self

  datatype NATMapping = NATMapping(local: int, reply: int, remote: int)

  // ------------------------------------------------------------------
  // field_wrap: a counter kept inside a port range
  // ------------------------------------------------------------------

  /** The value field_wrap settles on. */
  function Wrapped(n: int, field: Range): int
    requires field.hi >= 0
  {
    var x := Wrap(n, field.hi + 1);
    if x < field.lo then Wrap(x + field.lo, field.hi + 1) else x
  }

  method FieldWrap(n: int, field: Range) returns (x: int)
    requires field.hi >= 0
    ensures x == Wrapped(n, field)
  {
    var stop := field.hi + 1;
    WrapIsMod(n, stop);
    x := n % stop;
    var y := x;
    var settled := false;
    while !settled
      invariant !settled ==> x == y == Wrap(n, stop)
      invariant settled ==> x == Wrapped(n, field)
      decreases !settled
    {
      if x < field.lo {
        x := x + field.lo;
        WrapIsMod(x, stop);
        y := x % stop;
        if x != y {
          x := y;
        }
      }
      settled := x == y;
    }
  }

  /** A counter that really wraps from the end of its range to the start. */
  function Ring(n: int, field: Range): int
    requires field.lo <= field.hi
  {
    field.lo + Wrap(n - field.lo, Size(field))
  }

  lemma WrappedAt(n: int, field: Range)
    requires 0 < field.lo <= field.hi
    ensures var x := Wrap(n, field.hi + 1);
            0 <= x <= field.hi &&
            Wrapped(n, field) == if x >= field.lo then x
                                 else if x + field.lo <= field.hi then x + field.lo
                                 else x + field.lo - (field.hi + 1)
  {
  }

  /** field_wrap keeps every number inside its range exactly when the range starts in its lower half. */
  lemma WrappedInRangeIff(field: Range)
    requires 0 < field.lo <= field.hi
    ensures (forall n :: InRange(Wrapped(n, field), field)) <==> 2 * field.lo <= field.hi + 1
  {
    if 2 * field.lo > field.hi + 1 {
      var n := field.lo - 1;
      WrappedAt(n, field);
      assert !InRange(Wrapped(n, field), field);
    } else {
      forall n ensures InRange(Wrapped(n, field), field) {
        WrappedAt(n, field);
      }
    }
  }

  lemma RingAt(n: int, field: Range)
    requires field.lo <= n <= field.hi + Size(field)
    ensures Ring(n, field) == if n <= field.hi then n else n - Size(field)
  {
  }

  /** Up to one lap past its end, field_wrap is the wrapping counter exactly while it has gone no
      further than `lo` beyond the end. */
  lemma WrappedIsRingIff(n: int, field: Range)
    requires 0 < field.lo <= n <= field.hi + Size(field) && field.lo <= field.hi
    ensures Wrapped(n, field) == Ring(n, field) <==> n <= field.hi + field.lo
  {
    WrappedAt(n, field);
    RingAt(n, field);
    if n > field.hi {
      assert Wrap(n, field.hi + 1) == n - (field.hi + 1);
    }
  }

  /** The default range 2000..65535 leaves the ring once it is 2001 past the end. */
  lemma RingMissed()
    ensures Wrapped(MAX_PORT + 2001, Range(2000, MAX_PORT)) == 2000
    ensures Ring(MAX_PORT + 2001, Range(2000, MAX_PORT)) == 4000
  {
  }

  // ------------------------------------------------------------------
  // One predicted mapping
  // ------------------------------------------------------------------

  function PortWrap(p: int): int {
    if p % MAX_PORT == 0 then 1 else p % MAX_PORT
  }

  function Abs(x: int): nat {
    if x < 0 then -x else x
  }

  /** A random port of a range; drawing from an empty range raises. */
  function FromRange(r: Range, pick: nat): (p: Option<int>)
    ensures p.Some? <==> r.lo <= r.hi
    ensures p.Some? ==> InRange(p.value, r)
  {
    if r.lo > r.hi then None else Some(r.lo + Wrap(pick, Size(r)))
  }

  function BindPort(rmap: NATMapping): int {
    if rmap.reply != 0 then rmap.reply else rmap.remote
  }

  /** The wanted port if our NAT can allocate it, else a random one. */
  function Allocatable(port: int, our: Nat, useRange: Range, pick: nat): Option<int> {
    if InRange(port, our.range) then Some(port) else FromRange(useRange, pick)
  }

  /** None where the source raises. */
  function GetSingleMapping(mode: PunchMode, rmap: NATMapping, last: NATMapping, useRange: Range,
                            our: Nat, preloaded: NATMapping, pick: nat): Option<NATMapping> {
    var bind := BindPort(rmap);
    if bind == 0 || rmap.remote == 0 then None
    else if mode.Self? then
      var remote := Wrapped(rmap.remote + 1000, Range(2001, MAX_PORT));
      Some(NATMapping(remote, 0, remote))
    else
      var reply := if our.kind.RestrictPortNat? then bind else 0;
      if our.IsOpen() then Some(NATMapping(bind, 0, bind))
      else
        match our.delta
        case EqualDelta => (
          match Allocatable(bind, our, useRange, pick)
          case None => None
          case Some(port) => Some(NATMapping(port, 0, port)))
        case PreservDelta => (
          match Allocatable(bind, our, useRange, pick)
          case None => None
          case Some(port) => Some(NATMapping(PortWrap(last.local + Abs(last.remote - port)), reply, port)))
        case IndependentDelta =>
          if useRange.hi < 0 then None
          else Some(NATMapping(FromRange(Range(2000, MAX_PORT), pick).value, reply,
                               Wrapped(last.remote + our.step, useRange)))
        case DependentDelta =>
          if useRange.hi < 0 then None
          else Some(NATMapping(PortWrap(last.local + 1), reply, Wrapped(last.remote + our.step, useRange)))
        case _ =>
          if our.CanPredict()
          then Some(NATMapping(preloaded.local, if our.kind.RestrictPortNat? then STUN_PORT else 0, preloaded.remote))
          else None
  }

  /** Whether a NAT allocates its external ports from a running counter. */
  predicate Counting(mode: PunchMode, our: Nat) {
    !mode.Self? && !our.IsOpen() && (our.delta.IndependentDelta? || our.delta.DependentDelta?)
  }

  /** Against a NAT that really counts round its range, the predicted port is its next allocation
      exactly when the step does not carry it further than the range's start past the range's end. */
  lemma PredictionMatchesCounter(mode: PunchMode, rmap: NATMapping, last: NATMapping, useRange: Range,
                                 our: Nat, preloaded: NATMapping, pick: nat)
    requires Counting(mode, our) && rmap.remote != 0
    requires 0 < useRange.lo <= useRange.hi && InRange(last.remote, useRange)
    requires 0 <= our.step <= Size(useRange)
    ensures var m := GetSingleMapping(mode, rmap, last, useRange, our, preloaded, pick);
            && m.Some?
            && (m.value.remote == Ring(last.remote + our.step, useRange)
                <==> last.remote + our.step <= useRange.hi + useRange.lo)
  {
    WrappedIsRingIff(last.remote + our.step, useRange);
  }

  // ------------------------------------------------------------------
  // The whole prediction
  // ------------------------------------------------------------------

  /** The first `n` predictions.  Every one of them starts from the same last known mapping. */
  function Predictions(mode: PunchMode, recv: seq<NATMapping>, preloaded: seq<NATMapping>,
                       useRange: Range, our: Nat, picks: nat -> nat, n: nat): Option<seq<NATMapping>>
    requires n <= |recv| && |preloaded| > 0
  {
    if n == 0 then Some([])
    else
      match Predictions(mode, recv, preloaded, useRange, our, picks, n - 1)
      case None => None
      case Some(done) =>
        match GetSingleMapping(mode, recv[n - 1], preloaded[|preloaded| - 1], useRange, our,
                               preloaded[if n - 1 < |preloaded| then n - 1 else 0], picks(n - 1))
        case None => None
        case Some(m) => Some(done + [m])
  }

  /** The prediction loop; it raises when there is no preloaded mapping or a NAT is unpredictable. */
  method PredictMappings(mode: PunchMode, recv: seq<NATMapping>, preloaded: seq<NATMapping>,
                       useRange: Range, our: Nat, picks: nat -> nat) returns (r: Option<seq<NATMapping>>)
    ensures r == if |preloaded| == 0 then None
                 else Predictions(mode, recv, preloaded, useRange, our, picks, |recv|)
    ensures r.Some? ==> |r.value| == |recv|
  {
    if |preloaded| == 0 {
      return None;
    }
    var results: seq<NATMapping> := [];
    for i := 0 to |recv|
      invariant Predictions(mode, recv, preloaded, useRange, our, picks, i) == Some(results)
      invariant |results| == i
    {
      var pre := if i < |preloaded| then preloaded[i] else preloaded[0];
      var m := GetSingleMapping(mode, recv[i], preloaded[|preloaded| - 1], useRange, our, pre, picks(i));
      if m.None? {
        assert Predictions(mode, recv, preloaded, useRange, our, picks, i + 1).None?;
        NoneStays(mode, recv, preloaded, useRange, our, picks, i + 1);
        return None;
      }
      results := results + [m.value];
    }
    r := Some(results);
  }

  lemma {:induction false} NoneStays(mode: PunchMode, recv: seq<NATMapping>, preloaded: seq<NATMapping>,
                                     useRange: Range, our: Nat, picks: nat -> nat, n: nat)
    requires n <= |recv| && |preloaded| > 0
    requires Predictions(mode, recv, preloaded, useRange, our, picks, n).None?
    ensures Predictions(mode, recv, preloaded, useRange, our, picks, |recv|).None?
    decreases |recv| - n
  {
    if n >= |recv| {
    } else {
      NoneStays(mode, recv, preloaded, useRange, our, picks, n + 1);
    }
  }

  /** What the predictions for a counting NAT really are: one port, repeated for every mapping,
      because the last known mapping is not carried from one prediction to the next. */
  lemma {:induction false} CountingPredictionsCoincide(
      mode: PunchMode, recv: seq<NATMapping>, preloaded: seq<NATMapping>,
      useRange: Range, our: Nat, picks: nat -> nat, n: nat)
    requires n <= |recv| && |preloaded| > 0 && Counting(mode, our) && useRange.hi >= 0
    requires Predictions(mode, recv, preloaded, useRange, our, picks, n).Some?
    ensures var ms := Predictions(mode, recv, preloaded, useRange, our, picks, n).value;
            |ms| == n && AllAt(ms, Wrapped(preloaded[|preloaded| - 1].remote + our.step, useRange))
  {
    if n == 0 {
    } else {
      CountingPredictionsCoincide(mode, recv, preloaded, useRange, our, picks, n - 1);
    }
  }

  /** A step goes round the range a whole number of times. */
  predicate WholeLaps(step: int, r: Range)
    requires r.lo <= r.hi
  {
    Wrap(step, Size(r)) == 0
  }

  lemma RingShift(x: int, d: int, r: Range)
    requires r.lo <= r.hi
    ensures Ring(x + d, r) == Ring(x, r) <==> WholeLaps(d, r)
  {
    var m, y := Size(r), x - r.lo;
    WrapIsMod(y + d, m);
    WrapIsMod(y, m);
    WrapIsMod(d, m);
    TurnReturns(y, d, m);
  }

  lemma TurnReturns(y: int, d: int, m: int)
    requires m > 0
    ensures (y + d) % m == y % m <==> d % m == 0
  {
    var k, q := y % m, y / m;
    assert y == m * q + k;
    assert y + d == (k + d) + q * m;
    ModAddMultiple(k + d, q, m);
    OffsetReturns(k, d, m);
  }

  /** What a counting NAT hands out at the i-th allocation after `last`. */
  function CounterPort(last: int, step: int, i: nat, r: Range): int
    requires r.lo <= r.hi
  {
    Ring(last + (i + 1) * step, r)
  }

  lemma CounterStays(last: int, step: int, i: nat, r: Range)
    requires r.lo <= r.hi && WholeLaps(step, r)
    ensures CounterPort(last, step, i, r) == Ring(last + step, r)
  {
    var m, q := Size(r), step / Size(r);
    WrapIsMod(step, m);
    assert step == m * q;
    assert i * step == 0 + (i * q) * m;
    WrapIsMod(i * step, m);
    ModAddMultiple(0, i * q, m);
    ModSmall(0, m);
    RingShift(last + step, i * step, r);
    assert last + step + i * step == last + (i + 1) * step;
  }

  lemma FirstPorts(last: int, step: int, r: Range)
    requires r.lo <= r.hi
    ensures CounterPort(last, step, 0, r) == Ring(last + step, r)
    ensures CounterPort(last, step, 1, r) == Ring(last + step, r) <==> WholeLaps(step, r)
  {
    RingShift(last + step, step, r);
  }

  predicate FollowsCounter(ms: seq<NATMapping>, last: int, step: int, r: Range)
    requires r.lo <= r.hi
  {
    forall i {:trigger CounterPort(last, step, i, r)} :: 0 <= i < |ms| ==> ms[i].remote == CounterPort(last, step, i, r)
  }

  /** The counter is followed if and only if the first step stays in the window, and there is only
      one prediction or a step goes round the whole range. */
  predicate FollowsExactlyWhenNear(ms: seq<NATMapping>, last: int, step: int, r: Range)
    requires r.lo <= r.hi
  {
    FollowsCounter(ms, last, step, r)
    <==> last + step <= r.hi + r.lo && (|ms| == 1 || WholeLaps(step, r))
  }

  /** Against a NAT that really counts, all predictions are right exactly when the first step stays
      in the window, and there is only one prediction or a step goes round the whole range. */
  lemma PredictionsFollowCounterIff(mode: PunchMode, recv: seq<NATMapping>, preloaded: seq<NATMapping>,
                                    useRange: Range, our: Nat, picks: nat -> nat, n: nat)
    requires 0 < n <= |recv| && |preloaded| > 0 && Counting(mode, our)
    requires CanRepeat(preloaded[|preloaded| - 1].remote, our.step, useRange)
    requires Predictions(mode, recv, preloaded, useRange, our, picks, n).Some?
    ensures |Predictions(mode, recv, preloaded, useRange, our, picks, n).value| == n
    ensures FollowsExactlyWhenNear(Predictions(mode, recv, preloaded, useRange, our, picks, n).value,
                                   preloaded[|preloaded| - 1].remote, our.step, useRange)
  {
    CountingPredictionsCoincide(mode, recv, preloaded, useRange, our, picks, n);
    RepeatsFollowIff(Predictions(mode, recv, preloaded, useRange, our, picks, n).value,
                     preloaded[|preloaded| - 1].remote, our.step, useRange);
  }

  /** The last mapping known is in the range, and a step goes round it once at most. */
  predicate CanRepeat(last: int, step: int, r: Range) {
    0 < r.lo <= r.hi && InRange(last, r) && 0 <= step <= Size(r)
  }

  predicate AllAt(ms: seq<NATMapping>, port: int) {
    forall i :: 0 <= i < |ms| ==> ms[i].remote == port
  }

  lemma RepeatsFollowIff(ms: seq<NATMapping>, last: int, step: int, r: Range)
    requires CanRepeat(last, step, r) && |ms| > 0 && AllAt(ms, Wrapped(last + step, r))
    ensures FollowsExactlyWhenNear(ms, last, step, r)
  {
    WrappedIsRingIff(last + step, r);
    OnePortFollowsIff(ms, Wrapped(last + step, r), last, step, r);
  }

  lemma OnePortFollowsIff(ms: seq<NATMapping>, port: int, last: int, step: int, r: Range)
    requires r.lo <= r.hi && |ms| > 0 && AllAt(ms, port)
    ensures FollowsCounter(ms, last, step, r)
            <==> port == Ring(last + step, r) && (|ms| == 1 || WholeLaps(step, r))
  {
    FirstPorts(last, step, r);
    if WholeLaps(step, r) {
      forall i: nat | i < |ms| ensures CounterPort(last, step, i, r) == Ring(last + step, r) {
        CounterStays(last, step, i, r);
      }
    } else if |ms| > 1 {
      assert ms[0].remote == ms[1].remote;
    }
  }

  /** Two mappings are enough to see it: both predictions say 3001 and the counter hands out 3001, 3002. */
  lemma SecondPredictionMisses(picks: nat -> nat)
    ensures var our, r := Nat(SymmetricNat, IndependentDelta, 1, Range(2000, MAX_PORT)), Range(2000, MAX_PORT);
            var want := [NATMapping(0, 0, 4000), NATMapping(0, 0, 4001)];
            var ms := Predictions(Remote, want, [NATMapping(3000, 0, 3000)], r, our, picks, 2);
            && ms.Some? && ms.value[0].remote == ms.value[1].remote == 3001
            && Ring(3000 + 1, r) == 3001 && Ring(3000 + 2, r) == 3002
  {
    var our, r := Nat(SymmetricNat, IndependentDelta, 1, Range(2000, MAX_PORT)), Range(2000, MAX_PORT);
    var want, pre := [NATMapping(0, 0, 4000), NATMapping(0, 0, 4001)], [NATMapping(3000, 0, 3000)];
    assert Predictions(Remote, want, pre, r, our, picks, 0) == Some([]);
    assert Predictions(Remote, want, pre, r, our, picks, 1).Some?;
    assert Predictions(Remote, want, pre, r, our, picks, 2).Some?;
    CountingPredictionsCoincide(Remote, want, pre, r, our, picks, 2);
  }

  lemma OffsetReturns(k: int, d: int, m: int)
    requires 0 <= k < m
    ensures (k + d) % m == k <==> d % m == 0
  {
    var q, r := d / m, d % m;
    assert d == m * q + r;
    assert k + d == (k + r) + q * m;
    ModAddMultiple(k + r, q, m);
    if k + r < m {
      ModSmall(k + r, m);
    } else {
      ModOnce(k + r, m);
    }
  }

  // ------------------------------------------------------------------
  // The range both NATs allocate from
  // ------------------------------------------------------------------

  /** The range to use, and our NAT's own range afterwards: when it is the range returned, raising
      its low end changes it in place.  None where the source raises. */
  function NatsIntersect(ours: Range, theirs: Range, testNo: int): (Option<Range>, Range) {
    var shared := if RangeIntersects(ours, theirs) then IntersectRange(ours, theirs) else ours;
    var isNew := RangeIntersects(ours, theirs) && shared.hi - shared.lo >= testNo;
    var use := if isNew then shared else ours;
    if use.lo <= 1024 then
      var raised := Range(2000, use.hi);
      (if 2000 >= use.hi then None else Some(raised), if isNew then ours else raised)
    else
      (Some(use), ours)
  }

  /** The range found never reaches into the low ports, holds only ports of our own range, and when
      the NATs share at least testNo + 1 ports above the low ones it holds only shared ports. */
  lemma UsedRangeFits(ours: Range, theirs: Range, testNo: int, port: int)
    requires ours.lo <= ours.hi && theirs.lo <= theirs.hi
    requires NatsIntersect(ours, theirs, testNo).0.Some?
    requires InRange(port, NatsIntersect(ours, theirs, testNo).0.value)
    ensures port > 1024 && InRange(port, ours)
    ensures RangeIntersects(ours, theirs)
            && IntersectRange(ours, theirs).hi - IntersectRange(ours, theirs).lo >= testNo
            ==> InRange(port, theirs)
  {
    IntersectionIsExact(ours, theirs);
    var shared := IntersectRange(ours, theirs);
    if RangeIntersects(ours, theirs) {
      assert InRange(shared.hi, shared) || shared.lo > shared.hi;
    }
    assert InRange(port, shared) <==> shared.lo <= port <= shared.hi;
  }

  // ------------------------------------------------------------------
  // Setting a prediction up
  // ------------------------------------------------------------------

  /** May `strict` with its random ports be reached by `other` from the STUN port?  None raises. */
  function StrictSide(strict: Nat, other: Nat): Option<bool> {
    if !strict.delta.RandomDelta? then Some(false)
    else if other.IsHard() || !InRange(STUN_PORT, other.range) then None
    else Some(true)
  }

  /** Whether to aim at the STUN port; None where two NATs cannot be brought together. */
  function CanPredictBoth(our: Nat, their: Nat): Option<bool> {
    var ourStrict, theirStrict := our.kind.RestrictPortNat?, their.kind.RestrictPortNat?;
    if ourStrict && theirStrict then
      if our.delta.RandomDelta? || their.delta.RandomDelta? then None else Some(false)
    else if ourStrict then StrictSide(our, their)
    else if theirStrict then StrictSide(their, our)
    else Some(false)
  }

  method NatsCanPredict(our: Nat, their: Nat) returns (r: Option<bool>)
    ensures r == CanPredictBoth(our, their)
  {
    var ourStrict, otherStrict := our.kind.RestrictPortNat?, their.kind.RestrictPortNat?;
    if ourStrict && otherStrict {
      if our.delta.RandomDelta? || their.delta.RandomDelta? {
        return None;
      }
    }
    var useStunPort := false;
    if ourStrict || otherStrict {
      var orders := [(our, their), (their, our)];
      for k := 0 to 2
        invariant k > 0 ==> CanPredictBoth(our, their) == Some(useStunPort)
        invariant k == 0 ==> !useStunPort
      {
        var (strict, unrestrict) := orders[k];
        if unrestrict.kind.RestrictPortNat? {
          strict, unrestrict := unrestrict, strict;
        }
        var strictRandDelta := strict.delta.RandomDelta?;
        if strictRandDelta && unrestrict.IsHard() {
          return None;
        }
        if strictRandDelta && !InRange(STUN_PORT, unrestrict.range) {
          return None;
        }
        if strictRandDelta {
          useStunPort := true;
        }
      }
    }
    r := Some(useStunPort);
  }

  /** Both ends come to the same answer; when it is the STUN port, one end is a strict NAT with random
      ports and the other can use that port. */
  lemma BothEndsDecideAlike(a: Nat, b: Nat)
    ensures CanPredictBoth(a, b) == CanPredictBoth(b, a)
    ensures CanPredictBoth(a, b) == Some(true) ==>
              || (a.kind.RestrictPortNat? && a.delta.RandomDelta? && !b.IsHard() && InRange(STUN_PORT, b.range))
              || (b.kind.RestrictPortNat? && b.delta.RandomDelta? && !a.IsHard() && InRange(STUN_PORT, a.range))
  {
  }

  /** What a prediction works from: the range, our NAT with its range as it stands by now, and the
      peer's mappings or templates in their place. */
  datatype Setup = Setup(useRange: Range, src: Nat, recv: seq<NATMapping>)

  const TEST_NO := 2
  const OPEN_NAT := Nat(OpenInternet, NaDelta, 0, Range(1, MAX_PORT))

  function Template(r: Range, pick: nat): NATMapping
    requires r.lo <= r.hi
  {
    NATMapping(0, 0, FromRange(r, pick).value)
  }

  /** None where the source raises. */
  function InitPredictions(mode: PunchMode, src: Nat, dest: Nat, recv: Option<seq<NATMapping>>, picks: nat -> nat)
    : Option<Setup>
  {
    var our := if mode.Remote? then src else OPEN_NAT;
    var their := if mode.Remote? then dest else OPEN_NAT;
    var useStunPort := CanPredictBoth(our, their);
    if useStunPort.None? then None
    else
      var (use, ourRange) := NatsIntersect(our.range, their.range, if recv.Some? then |recv.value| else TEST_NO);
      if use.None? then None
      else if recv.Some? then Some(Setup(use.value, our.(range := ourRange), recv.value))
      else if useStunPort.value then Some(Setup(use.value, our.(range := ourRange), [NATMapping(0, 0, STUN_PORT)]))
      else if use.value.lo > use.value.hi then None
      else Some(Setup(use.value, our.(range := ourRange),
                      [Template(use.value, picks(0)), Template(use.value, picks(1))]))
  }

  function Predicted(mode: PunchMode, src: Nat, dest: Nat, recv: Option<seq<NATMapping>>,
                     preloaded: seq<NATMapping>, templatePicks: nat -> nat, picks: nat -> nat): Option<seq<NATMapping>>
  {
    match InitPredictions(mode, src, dest, recv, templatePicks)
    case None => None
    case Some(s) =>
      if |preloaded| == 0 then None
      else Predictions(mode, s.recv, preloaded, s.useRange, s.src, picks, |s.recv|)
  }

  /** The whole prediction; `preloaded` are the mappings the STUN servers gave. */
  method NatPrediction(mode: PunchMode, src: Nat, dest: Nat, recv: Option<seq<NATMapping>>,
                       preloaded: seq<NATMapping>, templatePicks: nat -> nat, picks: nat -> nat)
    returns (r: Option<seq<NATMapping>>)
    ensures r == Predicted(mode, src, dest, recv, preloaded, templatePicks, picks)
    ensures r.Some? && recv.Some? ==> |r.value| == |recv.value|
    ensures r.Some? && recv.None? ==> |r.value| == 1 || |r.value| == TEST_NO
  {
    var our, their := src, dest;
    if mode.Lan? || mode.Self? {
      our, their := OPEN_NAT, OPEN_NAT;
    }
    var testNo := if recv.Some? then |recv.value| else TEST_NO;
    var useStunPort := NatsCanPredict(our, their);
    if useStunPort.None? {
      return None;
    }
    var (use, ourRange) := NatsIntersect(our.range, their.range, testNo);
    if use.None? {
      return None;
    }
    our := our.(range := ourRange);
    if useStunPort.value {
      testNo := 1;
    }
    var wanted: seq<NATMapping>;
    if recv.Some? {
      wanted := recv.value;
    } else {
      wanted := [];
      for k := 0 to testNo
        invariant |wanted| == k && (k > 0 && !useStunPort.value ==> use.value.lo <= use.value.hi)
        invariant forall j :: 0 <= j < k ==>
          wanted[j] == if useStunPort.value then NATMapping(0, 0, STUN_PORT)
                       else NATMapping(0, 0, FromRange(use.value, templatePicks(j)).value)
      {
        if useStunPort.value {
          wanted := wanted + [NATMapping(0, 0, STUN_PORT)];
        } else {
          var port := FromRange(use.value, templatePicks(k));
          if port.None? {
            return None;
          }
          wanted := wanted + [NATMapping(0, 0, port.value)];
        }
      }
    }
    if recv.None? {
      assert wanted == if useStunPort.value then [NATMapping(0, 0, STUN_PORT)]
                       else [Template(use.value, templatePicks(0)), Template(use.value, templatePicks(1))];
    }
    r := PredictMappings(mode, wanted, preloaded, use.value, our, picks);
  }

  /** An unprompted prediction between remote NATs aims at ports the pair can use. */
  lemma TemplatesFit(src: Nat, dest: Nat, picks: nat -> nat, j: nat)
    requires src.range.lo <= src.range.hi && dest.range.lo <= dest.range.hi
    requires InitPredictions(Remote, src, dest, None, picks).Some?
    requires j < |InitPredictions(Remote, src, dest, None, picks).value.recv|
    ensures var s := InitPredictions(Remote, src, dest, None, picks).value;
            var port := s.recv[j].remote;
            if CanPredictBoth(src, dest) == Some(true) then |s.recv| == 1 && port == STUN_PORT
            else |s.recv| == TEST_NO && port > 1024 && InRange(port, src.range) && InRange(port, s.useRange)
  {
    var s := InitPredictions(Remote, src, dest, None, picks).value;
    if CanPredictBoth(src, dest) != Some(true) {
      UsedRangeFits(src.range, dest.range, TEST_NO, s.recv[j].remote);
    }
  }

  // ------------------------------------------------------------------
  // Adjustments made to mappings in place
  // ------------------------------------------------------------------

  function Shifted(m: NATMapping): NATMapping {
    NATMapping(PortWrap(m.local + 1000), m.reply, PortWrap(m.local + 1000))
  }

  /** Punching ourselves needs other ports than the ones we bind. */
  function SelfPunched(mode: PunchMode, ms: seq<NATMapping>): (r: seq<NATMapping>)
    ensures |r| == |ms|
  {
    if mode.Self? then seq(|ms|, i requires 0 <= i < |ms| => Shifted(ms[i])) else ms
  }

  method SelfPunchPatch(mode: PunchMode, mappings: array<NATMapping>)
    modifies mappings
    ensures mappings[..] == SelfPunched(mode, old(mappings[..]))
  {
    if !mode.Self? {
      return;
    }
    for i := 0 to mappings.Length
      invariant forall k :: 0 <= k < i ==> mappings[k] == Shifted(old(mappings[k]))
      invariant forall k :: i <= k < mappings.Length ==> mappings[k] == old(mappings[k])
    {
      mappings[i] := mappings[i].(local := PortWrap(mappings[i].local + 1000));
      mappings[i] := mappings[i].(remote := mappings[i].local);
    }
  }

  /** Everything update_for_reply_ports is given besides the two lists of mappings. */
  datatype ReplyContext = ReplyContext(mode: PunchMode, src: Nat, dest: Nat, preloaded: seq<NATMapping>,
                                       picks: nat -> nat)

  predicate NeedsReplyPort(c: ReplyContext, wanted: NATMapping) {
    && !c.mode.Self?
    && wanted.reply != 0
    && !(c.src.delta.IndependentDelta? || c.src.delta.DependentDelta? || c.src.delta.RandomDelta?)
  }

  /** One entry after the update, or None where computing it raises. */
  function ReplyUpdated(c: ReplyContext, use: Range, i: nat, m: NATMapping, wanted: NATMapping): Option<NATMapping> {
    if !NeedsReplyPort(c, wanted) then Some(m)
    else if i >= |c.preloaded| then None
    else
      match GetSingleMapping(c.mode, wanted, c.preloaded[|c.preloaded| - 1], use, c.src, c.preloaded[i], c.picks(i))
      case None => None
      case Some(got) => Some(NATMapping(got.local, m.reply, wanted.reply))
  }

  /** The list as it stands when the update stops, and whether it got to its end without raising. */
  function UpdatedFrom(c: ReplyContext, use: Range, i: nat, ms: seq<NATMapping>, wanted: seq<NATMapping>)
    : (r: (seq<NATMapping>, bool))
    ensures |r.0| == |ms|
    decreases |ms| - i
  {
    if i >= |ms| || i >= |wanted| then (ms, true)
    else
      match ReplyUpdated(c, use, i, ms[i], wanted[i])
      case None => (ms, false)
      case Some(m) => UpdatedFrom(c, use, i + 1, ms[i := m], wanted)
  }

  /** Our NAT's own range may have been raised by the time the first port is allocated. */
  function WithRange(c: ReplyContext, range: Range): ReplyContext {
    c.(src := c.src.(range := range))
  }

  /** What update_for_reply_ports leaves in the list it changes. */
  function ForReplyPorts(c: ReplyContext, ms: seq<NATMapping>, wanted: seq<NATMapping>)
    : (r: (seq<NATMapping>, bool))
    ensures |r.0| == |ms|
  {
    var (use, own) := NatsIntersect(c.src.range, c.dest.range, Min(|ms|, |wanted|));
    match use
    case None => (ms, false)
    case Some(range) => UpdatedFrom(WithRange(c, own), range, 0, ms, wanted)
  }

  /** The update in place; ok is false where it raises, possibly part of the way through. */
  method UpdateForReplyPorts(given: ReplyContext, ms: array<NATMapping>, wanted: seq<NATMapping>) returns (ok: bool)
    modifies ms
    ensures (ms[..], ok) == ForReplyPorts(given, old(ms[..]), wanted)
  {
    var testNo := Min(ms.Length, |wanted|);
    var (use, own) := NatsIntersect(given.src.range, given.dest.range, testNo);
    if use.None? {
      return false;
    }
    var c := WithRange(given, own);
    ghost var was := ms[..];
    for i := 0 to testNo
      invariant UpdatedFrom(c, use.value, i, ms[..], wanted) == UpdatedFrom(c, use.value, 0, was, wanted)
    {
      if c.mode.Self? {
        NoUpdate(c, use.value, i, ms[..], wanted);
        return true;
      }
      if NeedsReplyPort(c, wanted[i]) {
        if i >= |c.preloaded| {
          return false;
        }
        var got := GetSingleMapping(c.mode, wanted[i], c.preloaded[|c.preloaded| - 1], use.value, c.src,
                                    c.preloaded[i], c.picks(i));
        if got.None? {
          return false;
        }
        ghost var before := ms[..];
        ms[i] := ms[i].(local := got.value.local, remote := wanted[i].reply);
        assert ms[..] == before[i := ms[i]];
      } else {
        assert ms[..] == ms[..][i := ms[i]];
      }
    }
    ok := true;
  }

  lemma {:induction false} NoUpdate(c: ReplyContext, use: Range, i: nat, ms: seq<NATMapping>, wanted: seq<NATMapping>)
    requires c.mode.Self?
    ensures UpdatedFrom(c, use, i, ms, wanted) == (ms, true)
    decreases |ms| - i
  {
    if i >= |ms| || i >= |wanted| {
    } else {
      assert ms[i := ms[i]] == ms;
      NoUpdate(c, use, i + 1, ms, wanted);
    }
  }

  /** Entries whose partner asks for no reply port are left alone; the others are either left alone
      too, after a failure, or aimed at the port asked for. */
  lemma {:induction false} UpdateIsLocal(c: ReplyContext, use: Range, i: nat, ms: seq<NATMapping>,
                                         wanted: seq<NATMapping>, j: nat)
    requires j < |ms|
    ensures var (r, ok) := UpdatedFrom(c, use, i, ms, wanted);
            && (j < i || j >= |wanted| || !NeedsReplyPort(c, wanted[j]) ==> r[j] == ms[j])
            && (ok && i <= j < |wanted| && NeedsReplyPort(c, wanted[j]) ==> r[j].remote == wanted[j].reply)
            && (r[j] == ms[j] || (j < |wanted| && r[j].remote == wanted[j].reply && r[j].reply == ms[j].reply))
    decreases |ms| - i
  {
    if i >= |ms| || i >= |wanted| {
    } else {
      var m := ReplyUpdated(c, use, i, ms[i], wanted[i]);
      if m.Some? {
        UpdateIsLocal(c, use, i + 1, ms[i := m.value], wanted, j);
        if i == j {
          UpdateKeepsEarlier(c, use, i + 1, ms[i := m.value], wanted, j);
        }
      }
    }
  }

  lemma {:induction false} UpdateKeepsEarlier(c: ReplyContext, use: Range, i: nat, ms: seq<NATMapping>,
                                              wanted: seq<NATMapping>, j: nat)
    requires j < i && j < |ms|
    ensures UpdatedFrom(c, use, i, ms, wanted).0[j] == ms[j]
    decreases |ms| - i
  {
    if i >= |ms| || i >= |wanted| {
    } else {
      var m := ReplyUpdated(c, use, i, ms[i], wanted[i]);
      if m.Some? {
        UpdateKeepsEarlier(c, use, i + 1, ms[i := m.value], wanted, j);
      }
    }
  }
}
