/**
 Cleaning clock offsets.  Numbers are exact; a deviation is described by its square, the
 population variance.
 */
module ClockSkew {
  import opened Options

  const MIN_DATA: nat := 10
  const MAX_SDEV := 60.0
  const CLEAN_STEPS: nat := 3

  function Sum(xs: seq<real>): real {
    if |xs| == 0 then 0.0 else Sum(xs[..|xs| - 1]) + xs[|xs| - 1]
  }

  function Square(x: real): real {
    x * x
  }

  /** Sum of squared distances from c. */
  function Dev(xs: seq<real>, c: real): (d: real)
  {
    if |xs| == 0 then 0.0 else Dev(xs[..|xs| - 1], c) + Square(xs[|xs| - 1] - c)
  }

  function Avg(xs: seq<real>): real
    requires |xs| > 0
  {
    Sum(xs) / |xs| as real
  }

  function Var(xs: seq<real>): real
    requires |xs| > 0
  {
    Dev(xs, Avg(xs)) / |xs| as real
  }

  /** The points whose squared distance from c is at most v, in order. */
  function Near(xs: seq<real>, c: real, v: real): (r: seq<real>)
    ensures |r| <= |xs|
  {
    if |xs| == 0 then []
    else
      var rest := Near(xs[..|xs| - 1], c, v);
      if Square(xs[|xs| - 1] - c) > v then rest else rest + [xs[|xs| - 1]]
  }

  /** One pass: keep what lies within one deviation of the average. */
  function Pass(xs: seq<real>): seq<real>
    requires |xs| > 0
  {
    Near(xs, Avg(xs), Var(xs))
  }

  predicate Settled(xs: seq<real>) {
    |xs| < 2 || Var(xs) <= Square(MAX_SDEV) || |xs| < MIN_DATA
  }

  /** Up to `steps` passes, ending early once the points are settled. */
  function Clean(xs: seq<real>, steps: nat): seq<real>
    decreases steps
  {
    if steps == 0 || |xs| == 0 then xs
    else
      var kept := Pass(xs);
      if Settled(kept) then kept else Clean(kept, steps - 1)
  }

  lemma SquareRises(a: real, b: real)
    requires 0.0 <= a < b
    ensures Square(a) < Square(b)
  {
    var d := b - a;
    assert b * b == a * a + d * (a + a) + d * d;
  }

  lemma SquareOfOpposite(x: real)
    ensures Square(-x) == Square(x)
  {
  }

  /** The source compares with avg - sdev and avg + sdev. */
  lemma SquareForm(x: real, avg: real, sdev: real)
    requires sdev >= 0.0
    ensures x < avg - sdev || x > avg + sdev <==> Square(x - avg) > Square(sdev)
  {
    SquareOfOpposite(x - avg);
    var d := if x >= avg then x - avg else avg - x;
    if d > sdev {
      SquareRises(sdev, d);
    } else if d < sdev {
      SquareRises(d, sdev);
    }
  }

  // ------------------------------------------------------------------
  // The average
  // ------------------------------------------------------------------

  /** n times v, by repeated addition */
  function Times(n: nat, v: real): real {
    if n == 0 then 0.0 else Times(n - 1, v) + v
  }

  lemma Distribute(d: real, a: real, b: real)
    ensures d * (a + b) == d * a + d * b
  {
  }

  lemma {:induction false} TimesIsProduct(n: nat, v: real)
    ensures Times(n, v) == n as real * v
  {
    if n == 0 {
    } else {
      TimesIsProduct(n - 1, v);
      Distribute(v, (n - 1) as real, 1.0);
    }
  }

  lemma QuotientTimes(s: real, n: nat)
    requires n > 0
    ensures Times(n, s / n as real) == s
  {
    TimesIsProduct(n, s / n as real);
  }

  lemma {:induction false} TimesRises(n: nat, a: real, b: real)
    requires n > 0 && a < b
    ensures Times(n, a) < Times(n, b)
  {
    if n <= 1 {
    } else {
      TimesRises(n - 1, a, b);
    }
  }

  lemma {:induction false} TimesAdds(m: nat, n: nat, v: real)
    ensures Times(m + n, v) == Times(m, v) + Times(n, v)
  {
    if n == 0 {
    } else {
      TimesAdds(m, n - 1, v);
    }
  }

  lemma QuotientBetween(s: real, n: nat, lo: real, hi: real)
    requires n > 0 && Times(n, lo) <= s <= Times(n, hi)
    ensures lo <= s / n as real <= hi
  {
    var q := s / n as real;
    QuotientTimes(s, n);
    if q < lo {
      TimesRises(n, q, lo);
    }
    if q > hi {
      TimesRises(n, hi, q);
    }
  }

  lemma {:induction false} SumBetween(xs: seq<real>, lo: real, hi: real)
    requires forall i :: 0 <= i < |xs| ==> lo <= xs[i] <= hi
    ensures Times(|xs|, lo) <= Sum(xs) <= Times(|xs|, hi)
  {
    if |xs| == 0 {
    } else {
      SumBetween(xs[..|xs| - 1], lo, hi);
    }
  }

  lemma AvgBetween(xs: seq<real>, lo: real, hi: real)
    requires |xs| > 0 && forall i :: 0 <= i < |xs| ==> lo <= xs[i] <= hi
    ensures lo <= Avg(xs) <= hi
  {
    SumBetween(xs, lo, hi);
    QuotientBetween(Sum(xs), |xs|, lo, hi);
  }

  // ------------------------------------------------------------------
  // The variance
  // ------------------------------------------------------------------

  /** p exceeds q by d times a. */
  predicate Shifted(p: real, q: real, d: real, a: real) {
    p == q + d * a
  }

  lemma SquareShift(x: real, c: real, m: real)
    ensures Shifted(Square(x - c), Square(x - m), m - c, x + x - (m + c))
  {
    var a, b := x - m, m - c;
    assert x + x - (m + c) == a + a + b;
    assert (a + b) * (a + b) == a * a + b * (a + a + b);
  }

  lemma ShiftsAdd(p: real, q: real, r: real, s: real, d: real, a: real, b: real)
    requires Shifted(p, q, d, a) && Shifted(r, s, d, b)
    ensures Shifted(p + r, q + s, d, a + b)
  {
    Distribute(d, a, b);
  }

  /** What moving the centre from m to c does to the sum of squares. */
  lemma {:induction false} DevShift(xs: seq<real>, c: real, m: real)
    ensures Shifted(Dev(xs, c), Dev(xs, m), m - c, Sum(xs) + Sum(xs) - Times(|xs|, m + c))
  {
    if |xs| == 0 {
    } else {
      var rest, x := xs[..|xs| - 1], xs[|xs| - 1];
      var a, b := Sum(rest) + Sum(rest) - Times(|rest|, m + c), x + x - (m + c);
      DevShift(rest, c, m);
      SquareShift(x, c, m);
      ShiftsAdd(Dev(rest, c), Dev(rest, m), Square(x - c), Square(x - m), m - c, a, b);
      assert a + b == Sum(xs) + Sum(xs) - Times(|xs|, m + c);
    }
  }

  lemma {:induction false} TimesOfSum(n: nat, a: real, b: real)
    ensures Times(n, a + b) == Times(n, a) + Times(n, b)
  {
    if n == 0 {
    } else {
      TimesOfSum(n - 1, a, b);
    }
  }

  lemma {:induction false} ProductNotNegative(n: nat, d: real)
    ensures d * Times(n, d) >= 0.0
  {
    if n == 0 {
    } else {
      ProductNotNegative(n - 1, d);
      SquareNotNegative(d);
      Distribute(d, Times(n - 1, d), d);
    }
  }

  lemma ShiftFromMean(n: nat, sum: real, m: real, c: real, p: real, q: real)
    requires Times(n, m) == sum
    ensures Shifted(p, q, m - c, sum + sum - Times(n, m + c)) ==> p >= q
  {
    var d := m - c;
    TimesOfSum(n, m, c);
    TimesOfSum(n, d, c);
    assert d + c == m;
    assert sum + sum - Times(n, m + c) == Times(n, d);
    ProductNotNegative(n, d);
  }

  lemma MeanBeatsCentre(xs: seq<real>, m: real, c: real)
    requires Times(|xs|, m) == Sum(xs)
    ensures Dev(xs, m) <= Dev(xs, c)
  {
    DevShift(xs, c, m);
    ShiftFromMean(|xs|, Sum(xs), m, c, Dev(xs, c), Dev(xs, m));
  }

  /** The mean is the centre with the least sum of squares. */
  lemma MeanIsLeast(xs: seq<real>, c: real)
    requires |xs| > 0
    ensures Dev(xs, Avg(xs)) <= Dev(xs, c)
  {
    QuotientTimes(Sum(xs), |xs|);
    MeanBeatsCentre(xs, Avg(xs), c);
  }

  lemma SquareNotNegative(x: real)
    ensures Square(x) >= 0.0
  {
  }

  /** The sum of the squares. */
  function Squares(xs: seq<real>): real {
    if |xs| == 0 then 0.0 else Squares(xs[..|xs| - 1]) + xs[|xs| - 1] * xs[|xs| - 1]
  }

  lemma {:induction false} DevFromZero(xs: seq<real>)
    ensures Dev(xs, 0.0) == Squares(xs)
  {
    if |xs| == 0 {
    } else {
      DevFromZero(xs[..|xs| - 1]);
    }
  }

  lemma ShiftFromZero(xs: seq<real>, m: real)
    requires Times(|xs|, m) == Sum(xs)
    ensures Dev(xs, m) == Squares(xs) - m * Sum(xs)
  {
    DevShift(xs, 0.0, m);
    DevFromZero(xs);
    assert m + 0.0 == m == m - 0.0;
    assert Shifted(Squares(xs), Dev(xs, m), m, Sum(xs) + Sum(xs) - Times(|xs|, m));
    assert Sum(xs) + Sum(xs) - Times(|xs|, m) == Sum(xs);
  }

  /** m and v are the average and the variance by the moments: n times m is the sum, and n times v is the
      sum of the squares less m times the sum. */
  predicate ByMoments(xs: seq<real>, m: real, v: real) {
    Times(|xs|, m) == Sum(xs) && Times(|xs|, v) == Squares(xs) - m * Sum(xs)
  }

  lemma MomentsOfDev(xs: seq<real>, m: real, v: real)
    requires Times(|xs|, m) == Sum(xs) && Times(|xs|, v) == Dev(xs, m)
    ensures ByMoments(xs, m, v)
  {
    ShiftFromZero(xs, m);
  }

  lemma Moments(xs: seq<real>)
    requires |xs| > 0
    ensures ByMoments(xs, Avg(xs), Var(xs))
  {
    QuotientTimes(Sum(xs), |xs|);
    QuotientTimes(Dev(xs, Avg(xs)), |xs|);
    MomentsOfDev(xs, Avg(xs), Var(xs));
  }

  predicate MoreDropped(kept: seq<real>, xs: seq<real>, c: real, v: real)
    requires |kept| <= |xs|
  {
    && Dev(kept, c) + Times(|xs| - |kept|, v) <= Dev(xs, c)
    && (|kept| < |xs| ==> Dev(kept, c) + Times(|xs| - |kept|, v) < Dev(xs, c))
  }

  lemma DropOne(kept: seq<real>, rest: seq<real>, x: real, c: real, v: real)
    requires |kept| <= |rest| && MoreDropped(kept, rest, c, v) && Square(x - c) > v
    ensures MoreDropped(kept, rest + [x], c, v)
  {
    assert (rest + [x])[..|rest|] == rest;
    var gone := |rest| - |kept|;
    assert Times(gone + 1, v) == Times(gone, v) + v;
  }

  lemma KeepOne(kept: seq<real>, rest: seq<real>, x: real, c: real, v: real)
    requires |kept| <= |rest| && MoreDropped(kept, rest, c, v)
    ensures MoreDropped(kept + [x], rest + [x], c, v)
  {
    assert (rest + [x])[..|rest|] == rest && (kept + [x])[..|kept|] == kept;
  }

  /** Every dropped point takes more than v with it. */
  lemma {:induction false} DroppedDev(xs: seq<real>, c: real, v: real)
    ensures MoreDropped(Near(xs, c, v), xs, c, v)
  {
    if |xs| == 0 {
    } else {
      var rest, x := xs[..|xs| - 1], xs[|xs| - 1];
      assert rest + [x] == xs;
      DroppedDev(rest, c, v);
      if Square(x - c) <= v {
        KeepOne(Near(rest, c, v), rest, x, c, v);
      } else {
        DropOne(Near(rest, c, v), rest, x, c, v);
      }
    }
  }

  lemma {:induction false} NearCounts(xs: seq<real>, c: real, v: real, x: real)
    ensures multiset(Near(xs, c, v))[x] == if Square(x - c) <= v then multiset(xs)[x] else 0
  {
    if |xs| == 0 {
    } else {
      var rest, last := xs[..|xs| - 1], xs[|xs| - 1];
      NearCounts(rest, c, v, x);
      assert xs == rest + [last];
    }
  }

  /** A pass keeps every occurrence of a point within one deviation of the average, and none of any other. */
  lemma PassKeeps(xs: seq<real>, x: real)
    requires |xs| > 0
    ensures multiset(Pass(xs))[x] == if Square(x - Avg(xs)) <= Var(xs) then multiset(xs)[x] else 0
  {
    NearCounts(xs, Avg(xs), Var(xs), x);
  }

  /** A pass always keeps something, and never increases the variance. */
  lemma PassShrinks(xs: seq<real>)
    requires |xs| > 0
    ensures |Pass(xs)| > 0 && Var(Pass(xs)) <= Var(xs)
  {
    var c, v, n := Avg(xs), Var(xs), |xs|;
    var kept := Pass(xs);
    DroppedDev(xs, c, v);
    QuotientTimes(Dev(xs, c), n);
    TimesAdds(n - |kept|, |kept|, v);
    MeanOfKept(kept, c, v);
  }

  lemma MeanOfKept(kept: seq<real>, c: real, v: real)
    requires |kept| > 0 ==> Dev(kept, c) <= Times(|kept|, v)
    ensures |kept| > 0 ==> Var(kept) <= v
  {
    if |kept| > 0 {
      MeanIsLeast(kept, c);
      var d := Dev(kept, Avg(kept));
      QuotientTimes(d, |kept|);
      if d / |kept| as real > v {
        TimesRises(|kept|, v, d / |kept| as real);
      }
    }
  }

  // ------------------------------------------------------------------
  // All passes
  // ------------------------------------------------------------------

  /** The kept points in their old order, with some left out. */
  predicate Subsequence(a: seq<real>, b: seq<real>) {
    if |a| == 0 then true
    else if |b| == 0 then false
    else
      || (a[|a| - 1] == b[|b| - 1] && Subsequence(a[..|a| - 1], b[..|b| - 1]))
      || Subsequence(a, b[..|b| - 1])
  }

  lemma {:induction false} SubsequenceOfSelf(a: seq<real>)
    ensures Subsequence(a, a)
  {
    if |a| == 0 {
    } else {
      SubsequenceOfSelf(a[..|a| - 1]);
    }
  }

  lemma {:induction false} SubsequenceTransitive(a: seq<real>, b: seq<real>, c: seq<real>)
    requires Subsequence(a, b) && Subsequence(b, c)
    ensures Subsequence(a, c)
    decreases |b| + |c|
  {
    if |a| == 0 {
    } else {
      var b', c' := b[..|b| - 1], c[..|c| - 1];
      if Subsequence(b, c') {
        SubsequenceTransitive(a, b, c');
      } else if Subsequence(a, b') {
        SubsequenceTransitive(a, b', c');
      } else {
        SubsequenceTransitive(a[..|a| - 1], b', c');
      }
    }
  }

  lemma {:induction false} SubsequenceMembers(a: seq<real>, b: seq<real>, lo: real, hi: real)
    requires Subsequence(a, b) && forall i :: 0 <= i < |b| ==> lo <= b[i] <= hi
    ensures forall i :: 0 <= i < |a| ==> lo <= a[i] <= hi
    decreases |b|
  {
    if |a| == 0 {
    } else {
      if Subsequence(a, b[..|b| - 1]) {
        SubsequenceMembers(a, b[..|b| - 1], lo, hi);
      } else {
        SubsequenceMembers(a[..|a| - 1], b[..|b| - 1], lo, hi);
        assert a == a[..|a| - 1] + [a[|a| - 1]];
      }
    }
  }

  lemma {:induction false} NearIsSubsequence(xs: seq<real>, c: real, v: real)
    ensures Subsequence(Near(xs, c, v), xs)
  {
    if |xs| == 0 {
    } else {
      var rest, x := xs[..|xs| - 1], xs[|xs| - 1];
      NearIsSubsequence(rest, c, v);
      if Square(x - c) <= v {
        var kept := Near(xs, c, v);
        assert kept[..|kept| - 1] == Near(rest, c, v);
      }
    }
  }

  /** Cleaning keeps a non-empty part of the points in order, and does not raise the variance. */
  lemma {:induction false} CleanKeeps(xs: seq<real>, steps: nat)
    requires |xs| > 0
    ensures var kept := Clean(xs, steps);
            |kept| > 0 && Subsequence(kept, xs) && Var(kept) <= Var(xs)
    decreases steps
  {
    if steps == 0 {
      SubsequenceOfSelf(xs);
    } else {
      var kept := Pass(xs);
      PassShrinks(xs);
      NearIsSubsequence(xs, Avg(xs), Var(xs));
      if !Settled(kept) {
        CleanKeeps(kept, steps - 1);
        SubsequenceTransitive(Clean(kept, steps - 1), kept, xs);
      }
    }
  }

  function Passes(xs: seq<real>, n: nat): seq<real>
    decreases n
  {
    if n == 0 || |xs| == 0 then xs else Passes(Pass(xs), n - 1)
  }

  /** Fewer than ten points are left, or they deviate by at most a minute. */
  predicate FewOrClose(xs: seq<real>) {
    |xs| < 10 || Var(xs) <= 3600.0
  }

  /** The first pass, of at most `limit`, after which few points are left or all are close. */
  predicate StopsAt(xs: seq<real>, n: nat, limit: nat) {
    && 1 <= n <= limit
    && (n < limit ==> FewOrClose(Passes(xs, n)))
    && (forall k :: 1 <= k < n ==> !FewOrClose(Passes(xs, k)))
  }

  lemma {:induction false} CleanStops(xs: seq<real>, steps: nat) returns (n: nat)
    requires |xs| > 0 && steps > 0
    ensures StopsAt(xs, n, steps) && Clean(xs, steps) == Passes(xs, n)
    decreases steps
  {
    var kept := Pass(xs);
    PassShrinks(xs);
    assert Passes(xs, 1) == kept;
    if Settled(kept) || steps == 1 {
      n := 1;
    } else {
      var later := CleanStops(kept, steps - 1);
      n := later + 1;
      assert forall k :: 1 < k <= n ==> Passes(xs, k) == Passes(kept, k - 1);
    }
  }

  /** Enough points, close enough together. */
  predicate Usable(xs: seq<real>) {
    |xs| >= MIN_DATA && Var(xs) <= Square(MAX_SDEV)
  }

  /** The result: None where computing a deviation raises. */
  function Skew(xs: seq<real>): Option<real> {
    if |xs| == 0 then Some(0.0)
    else if |xs| == 1 then None
    else
      var kept := Clean(xs, CLEAN_STEPS);
      Some(if Usable(kept) then Avg(kept) else 0.0)
  }

  /** A skew other than 0 is the mean of at least ten of the points, and lies among them. */
  lemma SkewIsSound(xs: seq<real>, lo: real, hi: real)
    requires |xs| >= 2 && forall i :: 0 <= i < |xs| ==> lo <= xs[i] <= hi
    ensures Skew(xs).Some?
    ensures var kept := Clean(xs, CLEAN_STEPS);
            || (!Usable(kept) && Skew(xs).value == 0.0)
            || (&& Usable(kept) && Subsequence(kept, xs) && |kept| >= MIN_DATA && Var(kept) <= Var(xs)
                && Skew(xs).value == Avg(kept) && lo <= Skew(xs).value <= hi)
  {
    var kept := Clean(xs, CLEAN_STEPS);
    CleanKeeps(xs, CLEAN_STEPS);
    if Usable(kept) {
      SubsequenceMembers(kept, xs, lo, hi);
      AvgBetween(kept, lo, hi);
    }
  }

  /** The skew for two points or more: the average after the first pass, of three, that leaves few or
      close points, and 0 where those are too few or still too far apart. */
  lemma SkewIsMeanOfPasses(xs: seq<real>) returns (n: nat)
    requires |xs| >= 2
    ensures StopsAt(xs, n, 3) && |Passes(xs, n)| > 0
    ensures var kept := Passes(xs, n);
            && (|kept| >= 10 && Var(kept) <= 3600.0 ==> Skew(xs) == Some(Avg(kept)))
            && (|kept| < 10 || Var(kept) > 3600.0 ==> Skew(xs) == Some(0.0))
  {
    n := CleanStops(xs, 3);
    CleanKeeps(xs, 3);
  }

  // ------------------------------------------------------------------
  // The clock
  // ------------------------------------------------------------------

  class SysClock {
    var dataPoints: seq<real>

    constructor (points: seq<real>)
      ensures dataPoints == points
    {
      dataPoints := points;
    }

    static method StatxAvg(points: seq<real>) returns (r: real)
      requires |points| > 0
      ensures r == Avg(points)
    {
      var total := 0.0;
      for i := 0 to |points|
        invariant total == Sum(points[..i])
      {
        total := total + points[i];
        assert points[..i + 1][..i] == points[..i];
      }
      assert points[..|points|] == points;
      r := total / |points| as real;
    }

    /** The square of the deviation; None for fewer than two points. */
    static method StatxVar(points: seq<real>) returns (r: Option<real>)
      requires |points| > 0
      ensures r == if |points| < 2 then None else Some(Var(points))
    {
      if |points| < 2 {
        return None;
      }
      var c := StatxAvg(points);
      var total := 0.0;
      for i := 0 to |points|
        invariant total == Dev(points[..i], c)
      {
        total := total + Square(points[i] - c);
        assert points[..i + 1][..i] == points[..i];
      }
      assert points[..|points|] == points;
      r := Some(total / |points| as real);
    }

    static method KeepNear(points: seq<real>, avg: real, variance: real) returns (kept: seq<real>)
      ensures kept == Near(points, avg, variance)
    {
      kept := [];
      for i := 0 to |points|
        invariant kept == Near(points[..i], avg, variance)
      {
        assert points[..i + 1][..i] == points[..i];
        if Square(points[i] - avg) > variance {
          continue;
        }
        kept := kept + [points[i]];
      }
      assert points[..|points|] == points;
    }

    /** Replaces the points by the cleaned ones; None where the deviation of a single point is asked for. */
    method CalculateClockSkew() returns (r: Option<real>)
      modifies this
      ensures r == Skew(old(dataPoints))
      ensures (|old(dataPoints)| == 0 ==> r == Some(0.0)) && (|old(dataPoints)| == 1 ==> r == None)
      ensures dataPoints == if |old(dataPoints)| < 2 then old(dataPoints) else Clean(old(dataPoints), CLEAN_STEPS)
    {
      if |dataPoints| < 1 {
        return Some(0.0);
      }
      var avg := StatxAvg(dataPoints);
      var first := StatxVar(dataPoints);
      if first.None? {
        return None;
      }
      var variance := first.value;
      ghost var start := dataPoints;
      var k := 0;
      while k < CLEAN_STEPS
        invariant k <= CLEAN_STEPS && |dataPoints| >= 2
        invariant avg == Avg(dataPoints) && variance == Var(dataPoints)
        invariant Clean(start, CLEAN_STEPS) == Clean(dataPoints, CLEAN_STEPS - k)
      {
        ghost var was := dataPoints;
        dataPoints := KeepNear(dataPoints, avg, variance);
        assert dataPoints == Pass(was);
        PassShrinks(was);
        if |dataPoints| < 2 {
          break;
        }
        avg := StatxAvg(dataPoints);
        var next := StatxVar(dataPoints);
        variance := next.value;
        if variance <= Square(MAX_SDEV) || |dataPoints| < MIN_DATA {
          break;
        }
        k := k + 1;
      }
      if variance > Square(MAX_SDEV) || |dataPoints| < MIN_DATA {
        return Some(0.0);
      }
      r := Some(avg);
    }
  }
}
