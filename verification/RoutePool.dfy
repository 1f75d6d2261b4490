/**
 Routes indexed as if every outside address had an index of its own, and the search that
 finds the route for an index.
 */
module RoutePool {
  import opened Families
  import opened IpRange
  import opened Modular
  import opened Options

  // ------------------------------------------------------------------
  // Searching a sorted list
  // ------------------------------------------------------------------

  predicate Increasing(s: seq<int>) {
    forall i, j :: 0 <= i < j < |s| ==> s[i] < s[j]
  }

  predicate LowerBoundAt(s: seq<int>, i: int, k: int) {
    0 <= k < |s| && s[k] >= i && (k > 0 ==> s[k - 1] < i)
  }

  function HalfStep(n: nat): (h: nat)
    ensures n > 0 ==> 1 <= h <= n
  {
    if n / 2 == 0 then 1 else n / 2
  }

  /** The search from position p in round x; None where it gives up and raises. */
  function SearchFrom(s: seq<int>, i: int, p: nat, x: nat): Option<nat>
    requires p < |s|
    decreases |s| - x
  {
    if x >= |s| then None
    else if p == 0 then Some(0)
    else if s[p] >= i && s[p - 1] < i then Some(p)
    else
      var q := if s[p] >= i then p - HalfStep(p) else p + HalfStep(p);
      if q >= |s| - 1 then Some(|s| - 1) else SearchFrom(s, i, q, x + 1)
  }

  function Search(s: seq<int>, i: int): Option<nat> {
    if |s| == 0 then None else SearchFrom(s, i, |s| / 2, 0)
  }

  /** The source's loop; `found` is false where it raises, and `r` is None for an empty list. */
  method SortedSearch(s: seq<int>, i: int, startAt: Option<int>) returns (found: bool, r: Option<nat>)
    ensures |s| == 0 ==> found && r == None
    ensures |s| > 0 ==> r == SearchFrom(s, i, if startAt.None? then |s| / 2 else startAt.value % |s|, 0)
    ensures |s| > 0 ==> found == r.Some?
  {
    if |s| == 0 {
      return true, None;
    }
    var x := 0;
    var start := if startAt.None? then |s| / 2 else startAt.value % |s|;
    ghost var first := start;
    while x < |s|
      invariant 0 <= start < |s| && x <= |s|
      invariant SearchFrom(s, i, first, 0) == SearchFrom(s, i, start, x)
      decreases |s| - x
    {
      if start <= 0 {
        return true, Some(0);
      }
      if s[start] >= i {
        if s[start - 1] < i {
          return true, Some(start);
        } else {
          start := start - HalfStep(start);
        }
      } else {
        start := start + HalfStep(start);
      }
      if start >= |s| - 1 {
        return true, Some(|s| - 1);
      }
      x := x + 1;
    }
    return false, None;
  }

  /** A result on an increasing list is the lower bound or the last index. */
  lemma {:induction false} SearchPartlyRight(s: seq<int>, i: int, p: nat, x: nat)
    requires Increasing(s) && p < |s| && (p == 0 ==> s[0] >= i)
    ensures var r := SearchFrom(s, i, p, x);
            r.Some? ==> r.value == |s| - 1 || LowerBoundAt(s, i, r.value)
    decreases |s| - x
  {
    if x < |s| && p > 0 && !(s[p] >= i && s[p - 1] < i) {
      var q := if s[p] >= i then p - HalfStep(p) else p + HalfStep(p);
      if q < |s| - 1 {
        SearchPartlyRight(s, i, q, x + 1);
      }
    }
  }

  lemma SearchResult(s: seq<int>, i: int)
    requires Increasing(s)
    ensures var r := Search(s, i);
            r.Some? ==> r.value == |s| - 1 || LowerBoundAt(s, i, r.value)
  {
    if |s| > 1 {
      SearchPartlyRight(s, i, |s| / 2, 0);
    }
  }

  /** The same search, knowing only the length n and the position t of the lower bound. */
  function Probe(n: nat, t: nat, p: nat, x: nat): Option<nat>
    decreases n - x
  {
    if x >= n then None
    else if p == 0 then Some(0)
    else if p >= t && p - 1 < t then Some(p)
    else
      var q := if p >= t then p - HalfStep(p) else p + HalfStep(p);
      if q >= n - 1 then Some(n - 1) else Probe(n, t, q, x + 1)
  }

  lemma {:induction false} SearchIsProbe(s: seq<int>, i: int, t: nat, p: nat, x: nat)
    requires Increasing(s) && p < |s| && LowerBoundAt(s, i, t)
    ensures SearchFrom(s, i, p, x) == Probe(|s|, t, p, x)
    decreases |s| - x
  {
    assert s[p] >= i <==> p >= t;
    if p > 0 {
      assert s[p - 1] < i <==> p - 1 < t;
    }
    if x < |s| && p > 0 && !(s[p] >= i && s[p - 1] < i) {
      var q := if s[p] >= i then p - HalfStep(p) else p + HalfStep(p);
      if q < |s| - 1 {
        SearchIsProbe(s, i, t, q, x + 1);
      }
    }
  }

  lemma ShortProbes(n: nat, t: nat)
    requires t < n <= 6
    ensures Probe(n, t, n / 2, 0) == Some(t)
  {
    assert Probe(1, 0, 0, 0) == Some(0);
    assert Probe(2, 0, 1, 0) == Some(0) && Probe(2, 1, 1, 0) == Some(1);
    assert Probe(3, 0, 1, 0) == Some(0) && Probe(3, 1, 1, 0) == Some(1) && Probe(3, 2, 1, 0) == Some(2);
    assert Probe(4, 0, 2, 0) == Some(0) && Probe(4, 1, 2, 0) == Some(1);
    assert Probe(4, 2, 2, 0) == Some(2) && Probe(4, 3, 2, 0) == Some(3);
    assert Probe(5, 0, 2, 0) == Some(0) && Probe(5, 1, 2, 0) == Some(1) && Probe(5, 2, 2, 0) == Some(2);
    assert Probe(5, 3, 2, 0) == Some(3) && Probe(5, 4, 2, 0) == Some(4);
    assert Probe(6, 0, 3, 0) == Some(0) && Probe(6, 1, 3, 0) == Some(1) && Probe(6, 2, 3, 0) == Some(2);
    assert Probe(6, 3, 3, 0) == Some(3) && Probe(6, 4, 3, 0) == Some(4) && Probe(6, 5, 3, 0) == Some(5);
  }

  /** From length 7 on the last position but one is overshot; at length 8 position 5 is never hit. */
  lemma LongProbeMisses(n: nat)
    requires n >= 7
    ensures n != 8 ==> Probe(n, n - 2, n / 2, 0) == Some(n - 1)
    ensures n == 8 ==> Probe(n, 5, n / 2, 0) == None
  {
    if n == 7 {
      assert Probe(7, 5, 3, 0) == Some(6);
    } else if n == 8 {
      assert Probe(8, 5, 3, 7) == None && Probe(8, 5, 4, 6) == None;
      assert Probe(8, 5, 6, 5) == None && Probe(8, 5, 4, 4) == None;
      assert Probe(8, 5, 3, 3) == None && Probe(8, 5, 6, 2) == None;
      assert Probe(8, 5, 4, 0) == None;
    } else {
      var p := n / 2;
      var q := p + p / 2;
      assert HalfStep(p) == p / 2 && q < n - 2 && p > 1;
      assert q + q / 2 >= n - 1 && HalfStep(q) == q / 2;
      assert Probe(n, n - 2, q, 1) == Some(n - 1);
    }
  }

  lemma LowerBoundOfMember(s: seq<int>, t: nat)
    requires Increasing(s) && t < |s|
    ensures LowerBoundAt(s, s[t], t)
  {
  }

  lemma {:induction false} LowerBoundExists(s: seq<int>, i: int) returns (t: nat)
    requires |s| > 0 && i <= s[|s| - 1]
    ensures LowerBoundAt(s, i, t)
  {
    t := 0;
    while s[t] < i
      invariant t < |s| && (t > 0 ==> s[t - 1] < i)
      decreases |s| - t
    {
      t := t + 1;
    }
  }

  /** Every number of the list is found at its own position. */
  predicate SearchesRight(s: seq<int>) {
    forall t :: 0 <= t < |s| ==> Search(s, s[t]) == Some(t)
  }

  lemma SearchRightAt(s: seq<int>, i: int, t: nat)
    requires Increasing(s) && |s| <= 6 && LowerBoundAt(s, i, t)
    ensures Search(s, i) == Some(t)
  {
    SearchIsProbe(s, i, t, |s| / 2, 0);
    ShortProbes(|s|, t);
  }

  lemma MissedAt(s: seq<int>) returns (t: nat)
    requires Increasing(s) && |s| > 6
    ensures t < |s| && Search(s, s[t]) != Some(t)
  {
    t := if |s| == 8 then 5 else |s| - 2;
    LowerBoundOfMember(s, t);
    SearchIsProbe(s, s[t], t, |s| / 2, 0);
    LongProbeMisses(|s|);
  }

  /** The search is a lower bound on every increasing list of up to six numbers, and on no longer one. */
  lemma SearchRightIff(s: seq<int>)
    requires Increasing(s)
    ensures SearchesRight(s) <==> |s| <= 6
    ensures |s| <= 6 ==> forall i, t :: LowerBoundAt(s, i, t) ==> Search(s, i) == Some(t)
  {
    if |s| <= 6 {
      forall i, t | LowerBoundAt(s, i, t) ensures Search(s, i) == Some(t) {
        SearchRightAt(s, i, t);
      }
      forall t | 0 <= t < |s| ensures Search(s, s[t]) == Some(t) {
        LowerBoundOfMember(s, t);
      }
    } else {
      var t := MissedAt(s);
    }
  }

  lemma SearchMisses()
    ensures Search([1, 2, 3, 4, 5, 6, 7], 6) == Some(6)
    ensures Search([1, 2, 3, 4, 5, 6, 7, 8], 6) == None
  {
    var s, u := [1, 2, 3, 4, 5, 6, 7], [1, 2, 3, 4, 5, 6, 7, 8];
    SearchIsProbe(s, 6, 5, 3, 0);
    SearchIsProbe(u, 6, 5, 4, 0);
    LongProbeMisses(7);
    LongProbeMisses(8);
  }

  // ------------------------------------------------------------------
  // The pool
  // ------------------------------------------------------------------

  /** A route's outside ranges and its ranges on the card. */
  datatype Route = Route(af: Af, ext: seq<Block>, nics: seq<Block>)

  /** Is an address outside the private ranges? */
  type Public = (Af, nat) -> bool

  /** A route built for one host. */
  datatype Info = Info(routeOffset: nat, hostOffset: int, wanIp: nat)

  /** What the constructor of a range asserts about its fields. */
  predicate RouteOk(r: Route) {
    forall i :: 0 <= i < |r.ext| ==> r.ext[i].cidr <= MaxCidr(r.ext[i].af) && r.ext[i].hostNo > 0
  }

  predicate RoutesOk(routes: seq<Route>) {
    forall i :: 0 <= i < |routes| ==> RouteOk(routes[i])
  }

  function Span(r: Route): nat {
    if |r.ext| == 0 then 0 else r.ext[0].hostNo
  }

  /** Hosts of the first k routes. */
  function Upto(routes: seq<Route>, k: nat): nat
    requires k <= |routes|
  {
    if k == 0 then 0 else Upto(routes, k - 1) + Span(routes[k - 1])
  }

  function Total(routes: seq<Route>): nat {
    Upto(routes, |routes|)
  }

  /** For every route, how many hosts there are up to its end. */
  function LenList(routes: seq<Route>): (s: seq<int>)
    ensures |s| == |routes|
  {
    seq(|routes|, k requires 0 <= k < |routes| => Upto(routes, k + 1))
  }

  function HostsOf(routes: seq<Route>, r: nat): (s: seq<Info>)
    requires RoutesOk(routes) && r < |routes|
    ensures |s| == Span(routes[r])
  {
    assert RouteOk(routes[r]);
    seq(Span(routes[r]), j requires 0 <= j < Span(routes[r]) =>
                           Info(r, Upto(routes, r) + j, GetValue(routes[r].ext[0], j)))
  }

  /** The hosts of the first k routes, one route after the other. */
  function FlatUpto(routes: seq<Route>, k: nat): (s: seq<Info>)
    requires RoutesOk(routes) && k <= |routes|
    ensures |s| == Upto(routes, k)
  {
    if k == 0 then [] else FlatUpto(routes, k - 1) + HostsOf(routes, k - 1)
  }

  function Flat(routes: seq<Route>): (s: seq<Info>)
    requires RoutesOk(routes)
    ensures |s| == Total(routes)
  {
    FlatUpto(routes, |routes|)
  }

  lemma {:induction false} UptoRises(routes: seq<Route>, a: nat, b: nat)
    requires a <= b <= |routes|
    ensures Upto(routes, a) <= Upto(routes, b)
    decreases b
  {
    if a >= b {
    } else {
      UptoRises(routes, a, b - 1);
    }
  }

  lemma {:induction false} FlatAt(routes: seq<Route>, r: nat, j: nat, k: nat)
    requires RoutesOk(routes) && r < k <= |routes| && j < Span(routes[r])
    ensures Upto(routes, r) + j < Upto(routes, k)
    ensures FlatUpto(routes, k)[Upto(routes, r) + j] == HostsOf(routes, r)[j]
    decreases k
  {
    if r >= k - 1 {
    } else {
      FlatAt(routes, r, j, k - 1);
    }
  }

  predicate AllHaveHosts(routes: seq<Route>) {
    forall r :: 0 <= r < |routes| ==> |routes[r].ext| > 0
  }

  /** The list of lengths rises strictly, starting above 0, exactly when every route has an outside range. */
  lemma LenListIncreasingIff(routes: seq<Route>)
    requires RoutesOk(routes)
    ensures var s := LenList(routes);
            (|s| > 0 ==> s[0] > 0) && Increasing(s) <==> AllHaveHosts(routes)
  {
    var s := LenList(routes);
    if AllHaveHosts(routes) {
      forall r | 0 <= r < |routes| ensures Upto(routes, r) < Upto(routes, r + 1) {
        assert RouteOk(routes[r]);
      }
      StepsIncrease(s);
      if |s| > 0 {
        assert Upto(routes, 0) < Upto(routes, 0 + 1);
      }
    } else {
      var r :| 0 <= r < |routes| && |routes[r].ext| == 0;
      assert Upto(routes, r + 1) == Upto(routes, r);
      if r > 0 {
        assert s[r] == s[r - 1];
      }
    }
  }

  lemma StepsIncrease(s: seq<int>)
    requires forall k :: 1 <= k < |s| ==> s[k - 1] < s[k]
    ensures Increasing(s)
  {
    forall i, j | 0 <= i < j < |s| ensures s[i] < s[j] {
      StepsReach(s, i, j);
    }
  }

  lemma {:induction false} StepsReach(s: seq<int>, i: nat, j: nat)
    requires forall k :: 1 <= k < |s| ==> s[k - 1] < s[k]
    requires i < j < |s|
    ensures s[i] < s[j]
    decreases j
  {
    if i + 1 >= j {
    } else {
      StepsReach(s, i, j - 1);
    }
  }

  /** The first range on the card can be asked for its length. */
  predicate HasNic(r: Route) {
    |r.nics| > 0 && r.nics[0].hostNo <= MAX_LEN
  }

  /** What building a route for one outside address asserts. */
  predicate Buildable(r: Route, public: Public, ip: nat)
    requires |r.ext| > 0
  {
    && ip != 0 && public(r.af, ip) && r.ext[0].af == r.af
    && forall i :: 0 <= i < |r.nics| ==> r.nics[i].af == r.af
  }

  predicate Good(r: Route) {
    |r.ext| > 0 && HasNic(r)
  }

  predicate HostShown(r: Route, public: Public, j: nat)
    requires RouteOk(r) && |r.ext| > 0
  {
    Buildable(r, public, GetValue(r.ext[0], j))
  }

  /** The route for one host; None where an assertion fails or a list is empty. */
  function RouteInfo(routes: seq<Route>, public: Public, r: nat, host: int): Option<Info>
    requires RoutesOk(routes)
  {
    if r >= |routes| then None
    else
      var wanHosts := Total(routes);
      var rel := host - Upto(routes, r);
      if rel > Upto(routes, r + 1) - 1 || !Good(routes[r]) || rel + 1 > wanHosts || wanHosts == 0 then None
      else
        assert RouteOk(routes[r]);
        var ip := GetValue(routes[r].ext[0], Wrap(rel, wanHosts));
        if Buildable(routes[r], public, ip) then Some(Info(r, host, ip)) else None
  }

  /** Asking for a host of a good route gives the flat list's entry, if a route can be built for it. */
  lemma InfoIsFlat(routes: seq<Route>, public: Public, r: nat, host: nat)
    requires RoutesOk(routes) && r < |routes| && Good(routes[r])
    requires Upto(routes, r) <= host < Upto(routes, r + 1)
    ensures host < Total(routes) && RouteOk(routes[r])
    ensures RouteInfo(routes, public, r, host)
            == if HostShown(routes[r], public, host - Upto(routes, r)) then Some(Flat(routes)[host]) else None
  {
    var rel := host - Upto(routes, r);
    assert RouteOk(routes[r]);
    FlatAt(routes, r, rel, |routes|);
  }

  /** A host of a route is had exactly when the route has a card whose first range can be measured, and the
      host's address is not zero, is public and is of one family with the route and all its cards. */
  lemma InfoIff(routes: seq<Route>, public: Public, r: nat, host: nat)
    requires RoutesOk(routes) && r < |routes| && Upto(routes, r) <= host < Upto(routes, r + 1)
    ensures RouteOk(routes[r]) && routes[r].ext != []
    ensures var route, info := routes[r], RouteInfo(routes, public, r, host);
            var ip := GetValue(route.ext[0], host - Upto(routes, r));
            && (info.Some? <==> && route.nics != [] && route.nics[0].hostNo <= 0x7FFF_FFFF_FFFF_FFFF
                                && ip != 0 && public(route.af, ip) && route.ext[0].af == route.af
                                && forall nic <- route.nics :: nic.af == route.af)
            && (info.Some? ==> info.value == Info(r, host, ip))
  {
    assert RouteOk(routes[r]) && Upto(routes, r + 1) == Upto(routes, r) + Span(routes[r]);
    var rel := host - Upto(routes, r);
    UptoRises(routes, r + 1, |routes|);
    assert Wrap(rel, Total(routes)) == rel;
  }

  // ------------------------------------------------------------------
  // Iterating forwards
  // ------------------------------------------------------------------

  /** What a loop over the pool sees, and whether it ran to its end. */
  datatype Walk = Walk(seen: seq<Info>, ended: bool)

  function NextRoute(routes: seq<Route>, hostP: nat, r: nat): nat
    requires r < |routes|
  {
    if hostP >= Upto(routes, r + 1) && r < |routes| - 1 then r + 1 else r
  }

  function WalkFrom(routes: seq<Route>, public: Public, hostP: nat, r: nat): Walk
    requires RoutesOk(routes)
    decreases Total(routes) - hostP
  {
    if hostP >= Total(routes) then Walk([], true)
    else
      match RouteInfo(routes, public, r, hostP)
      case None => Walk([], false)
      case Some(info) =>
        var rest := WalkFrom(routes, public, hostP + 1, NextRoute(routes, hostP + 1, r));
        Walk([info] + rest.seen, rest.ended)
  }

  /** Up to the last route with outside hosts, every route has an outside range and a card. */
  predicate NoGaps(routes: seq<Route>) {
    forall i, j :: 0 <= i <= j < |routes| && Span(routes[j]) > 0 ==> Good(routes[i])
  }

  /** Every outside host of a route can have a route of its own. */
  ghost predicate HostsShown(r: Route, public: Public)
    requires RouteOk(r)
  {
    forall j: nat :: j < Span(r) ==> HostShown(r, public, j)
  }

  /** No gaps, and a route can be built for every host. */
  ghost predicate FrontLoaded(routes: seq<Route>, public: Public)
    requires RoutesOk(routes)
  {
    NoGaps(routes) && forall r :: 0 <= r < |routes| ==> RouteOk(routes[r]) && HostsShown(routes[r], public)
  }

  /** The iterator's pointers: at a host of route r, or at a route without hosts; what came before was shown. */
  ghost predicate At(routes: seq<Route>, public: Public, hostP: nat, r: nat)
    requires RoutesOk(routes)
  {
    && r < |routes| && Upto(routes, r) <= hostP
    && (hostP < Upto(routes, r + 1) || hostP == Upto(routes, r))
    && (forall i :: 0 <= i < r ==> Good(routes[i]) && RouteOk(routes[i]) && HostsShown(routes[i], public))
    && ShownUpto(routes, public, r, hostP - Upto(routes, r))
  }

  /** The first k hosts of route r can be shown. */
  ghost predicate ShownUpto(routes: seq<Route>, public: Public, r: nat, k: nat)
    requires RoutesOk(routes) && r < |routes|
  {
    RouteOk(routes[r]) && forall j: nat :: j < k && j < Span(routes[r]) ==> HostShown(routes[r], public, j)
  }

  /** A step from a host that is shown lands on the next host, on the next route, or at the end. */
  lemma StepStaysAt(routes: seq<Route>, public: Public, hostP: nat, r: nat)
    requires RoutesOk(routes) && At(routes, public, hostP, r) && Good(routes[r]) && hostP < Total(routes)
    requires RouteOk(routes[r]) && HostShown(routes[r], public, hostP - Upto(routes, r))
    ensures Upto(routes, r) <= hostP < Upto(routes, r + 1)
    ensures hostP + 1 < Total(routes) ==> At(routes, public, hostP + 1, NextRoute(routes, hostP + 1, r))
    ensures hostP + 1 == Upto(routes, r + 1) ==> HostsShown(routes[r], public)
  {
    var k := hostP - Upto(routes, r);
    forall j: nat | j <= k && j < Span(routes[r]) ensures HostShown(routes[r], public, j) {
      if j == k {
        assert HostShown(routes[r], public, k);
      }
    }
  }

  /** Reaching the end over good routes leaves only routes without outside hosts behind it. */
  lemma EndMeansFrontLoaded(routes: seq<Route>, public: Public, r: nat)
    requires RoutesOk(routes) && r < |routes| && (forall i :: 0 <= i <= r ==> Good(routes[i]))
    requires forall i :: 0 <= i <= r ==> RouteOk(routes[i]) && HostsShown(routes[i], public)
    requires Upto(routes, r + 1) >= Total(routes)
    ensures FrontLoaded(routes, public)
  {
    forall j | r < j < |routes| ensures Span(routes[j]) == 0 {
      UptoRises(routes, r + 1, j);
      UptoRises(routes, j + 1, |routes|);
    }
    forall j | r < j < |routes| ensures RouteOk(routes[j]) && HostsShown(routes[j], public) {
      assert RouteOk(routes[j]);
    }
  }

  /** A route that cannot be shown, with hosts still to come, means there is a gap. */
  lemma BadRouteBeforeHosts(routes: seq<Route>, r: nat)
    requires r < |routes| && !Good(routes[r]) && Upto(routes, r) < Total(routes)
    ensures !NoGaps(routes)
  {
    if forall j :: r <= j < |routes| ==> Span(routes[j]) == 0 {
      NoMoreHosts(routes, r, |routes|);
    }
  }

  lemma {:induction false} NoMoreHosts(routes: seq<Route>, r: nat, b: nat)
    requires r <= b <= |routes| && forall j :: r <= j < |routes| ==> Span(routes[j]) == 0
    ensures Upto(routes, b) == Upto(routes, r)
    decreases b
  {
    if r == b {
    } else {
      NoMoreHosts(routes, r, b - 1);
    }
  }

  /** One turn of the loop at a host that is shown. */
  lemma WalkStep(routes: seq<Route>, public: Public, hostP: nat, r: nat)
    requires RoutesOk(routes) && hostP < Total(routes) && At(routes, public, hostP, r) && Good(routes[r])
    requires RouteOk(routes[r]) && HostShown(routes[r], public, hostP - Upto(routes, r))
    ensures var rest := WalkFrom(routes, public, hostP + 1, NextRoute(routes, hostP + 1, r));
            WalkFrom(routes, public, hostP, r) == Walk([Flat(routes)[hostP]] + rest.seen, rest.ended)
  {
    StepStaysAt(routes, public, hostP, r);
    InfoIsFlat(routes, public, r, hostP);
  }

  /** The walk from host p on ends as it should, having seen the rest of the flat list. */
  predicate RightWalk(w: Walk, flat: seq<Info>, p: nat, front: bool)
    requires p <= |flat|
  {
    (w.ended <==> front) && (front ==> w.seen == flat[p..])
  }

  lemma ExtendWalk(rest: Walk, flat: seq<Info>, p: nat, front: bool)
    requires p < |flat| && RightWalk(rest, flat, p + 1, front)
    ensures RightWalk(Walk([flat[p]] + rest.seen, rest.ended), flat, p, front)
  {
    assert flat[p..] == [flat[p]] + flat[p + 1..];
  }

  /** Where a route or a host cannot be shown the walk breaks off. */
  lemma WalkBreaks(routes: seq<Route>, public: Public, hostP: nat, r: nat)
    requires RoutesOk(routes) && hostP < Total(routes) && At(routes, public, hostP, r)
    requires RouteOk(routes[r])
    requires Good(routes[r]) ==> !HostShown(routes[r], public, hostP - Upto(routes, r))
    ensures !WalkFrom(routes, public, hostP, r).ended && !FrontLoaded(routes, public)
  {
    if Good(routes[r]) {
      InfoIsFlat(routes, public, r, hostP);
    } else {
      BadRouteBeforeHosts(routes, r);
    }
  }

  /** After the last host the walk is over. */
  lemma WalkEnds(routes: seq<Route>, public: Public, hostP: nat, r: nat)
    requires RoutesOk(routes) && hostP + 1 == Total(routes) && At(routes, public, hostP, r)
    requires Good(routes[r]) && RouteOk(routes[r]) && HostShown(routes[r], public, hostP - Upto(routes, r))
    ensures var next := NextRoute(routes, hostP + 1, r);
            RightWalk(WalkFrom(routes, public, hostP + 1, next), Flat(routes), hostP + 1, FrontLoaded(routes, public))
  {
    StepStaysAt(routes, public, hostP, r);
    UptoRises(routes, r + 1, |routes|);
    EndMeansFrontLoaded(routes, public, r);
  }

  lemma {:induction false} WalkFromPosition(routes: seq<Route>, public: Public, hostP: nat, r: nat)
    requires RoutesOk(routes) && hostP < Total(routes) && At(routes, public, hostP, r)
    ensures RightWalk(WalkFrom(routes, public, hostP, r), Flat(routes), hostP, FrontLoaded(routes, public))
    decreases Total(routes) - hostP
  {
    assert RouteOk(routes[r]);
    if !Good(routes[r]) || !HostShown(routes[r], public, hostP - Upto(routes, r)) {
      WalkBreaks(routes, public, hostP, r);
    } else {
      WalkStep(routes, public, hostP, r);
      StepStaysAt(routes, public, hostP, r);
      var next := NextRoute(routes, hostP + 1, r);
      if hostP + 1 < Total(routes) {
        WalkFromPosition(routes, public, hostP + 1, next);
      } else {
        WalkEnds(routes, public, hostP, r);
      }
      ExtendWalk(WalkFrom(routes, public, hostP + 1, next), Flat(routes), hostP, FrontLoaded(routes, public));
    }
  }

  lemma NothingToShow(routes: seq<Route>, public: Public)
    requires RoutesOk(routes) && Total(routes) == 0
    ensures FrontLoaded(routes, public)
  {
    forall j | 0 <= j < |routes| ensures Span(routes[j]) == 0 && RouteOk(routes[j]) {
      UptoRises(routes, j + 1, |routes|);
    }
  }

  /** A loop over the pool runs to its end and sees the flat list exactly when the pool is front-loaded. */
  lemma ForwardIterationIff(routes: seq<Route>, public: Public)
    requires RoutesOk(routes)
    ensures WalkFrom(routes, public, 0, 0) == Walk(Flat(routes), true) <==> FrontLoaded(routes, public)
  {
    if Total(routes) > 0 {
      assert RouteOk(routes[0]);
      WalkFromPosition(routes, public, 0, 0);
      assert Flat(routes)[0..] == Flat(routes);
    } else {
      NothingToShow(routes, public);
    }
  }

  // ------------------------------------------------------------------
  // Indexing
  // ------------------------------------------------------------------

  /** pool[key] for a pool that has hosts; None where it raises. */
  function GetItem(routes: seq<Route>, public: Public, key: int): Option<Info>
    requires RoutesOk(routes) && Total(routes) > 0
  {
    var k := if key < 0 then Wrap(key, Total(routes)) else key;
    match Search(LenList(routes), k + 1)
    case None => None
    case Some(r) => RouteInfo(routes, public, r, k)
  }

  /** Every route has a range and a card, and every host of it can be shown. */
  ghost predicate AllGood(routes: seq<Route>, public: Public) {
    forall r :: 0 <= r < |routes| ==> Good(routes[r]) && RouteOk(routes[r]) && HostsShown(routes[r], public)
  }

  predicate ItemRight(routes: seq<Route>, public: Public, k: nat)
    requires RoutesOk(routes) && k < Total(routes)
  {
    GetItem(routes, public, k) == Some(Flat(routes)[k])
  }

  ghost predicate IndexesRight(routes: seq<Route>, public: Public)
    requires RoutesOk(routes)
  {
    forall k: nat :: k < Total(routes) ==> ItemRight(routes, public, k)
  }

  /** The route a host belongs to. */
  lemma RouteOfHost(routes: seq<Route>, public: Public, k: nat) returns (t: nat)
    requires RoutesOk(routes) && AllGood(routes, public) && k < Total(routes)
    ensures t < |routes| && LowerBoundAt(LenList(routes), k + 1, t)
    ensures Upto(routes, t) <= k < Upto(routes, t + 1)
  {
    t := LowerBoundExists(LenList(routes), k + 1);
  }

  lemma ItemByRoute(routes: seq<Route>, public: Public, k: nat)
    requires RoutesOk(routes) && Total(routes) > 0
    ensures var r := Search(LenList(routes), k + 1);
            GetItem(routes, public, k) == if r.None? then None else RouteInfo(routes, public, r.value, k)
  {
  }

  lemma InfoKeepsRoute(routes: seq<Route>, public: Public, r: nat, host: int)
    requires RoutesOk(routes)
    ensures var info := RouteInfo(routes, public, r, host); info.Some? ==> info.value.routeOffset == r
  {
  }

  /** Where the search finds the right route the item is right. */
  lemma FoundItem(routes: seq<Route>, public: Public, k: nat)
    requires RoutesOk(routes) && AllGood(routes, public) && k < Total(routes) && |routes| <= 6
    ensures ItemRight(routes, public, k)
  {
    LenListIncreasingIff(routes);
    var t := RouteOfHost(routes, public, k);
    SearchRightAt(LenList(routes), k + 1, t);
    InfoIsFlat(routes, public, t, k);
    ItemByRoute(routes, public, k);
  }

  /** What indexing gives for a host of route t when the search does not find route t. */
  lemma OtherRoute(routes: seq<Route>, public: Public, t: nat, k: nat)
    requires RoutesOk(routes) && Total(routes) > 0 && Search(LenList(routes), k + 1) != Some(t)
    ensures var got := GetItem(routes, public, k); got.Some? ==> got.value.routeOffset != t
  {
    ItemByRoute(routes, public, k);
    var r := Search(LenList(routes), k + 1);
    if r.Some? {
      InfoKeepsRoute(routes, public, r.value, k);
    }
  }

  /** In the flat list the last host of route t is under t. */
  lemma LastHost(routes: seq<Route>, public: Public, t: nat) returns (k: nat)
    requires RoutesOk(routes) && AllGood(routes, public) && t < |routes|
    ensures k + 1 == Upto(routes, t + 1) <= Total(routes) && Flat(routes)[k].routeOffset == t
  {
    assert RouteOk(routes[t]);
    k := Upto(routes, t + 1) - 1;
    InfoIsFlat(routes, public, t, k);
    InfoKeepsRoute(routes, public, t, k);
  }

  /** The last host of a route the search misses is not found under its index. */
  lemma MissedItem(routes: seq<Route>, public: Public, t: nat)
    requires RoutesOk(routes) && AllGood(routes, public) && t < |routes|
    requires Search(LenList(routes), Upto(routes, t + 1)) != Some(t)
    ensures !IndexesRight(routes, public)
  {
    var k := LastHost(routes, public, t);
    OtherRoute(routes, public, t, k);
    assert !ItemRight(routes, public, k);
  }

  /** Indexing agrees with iteration for every index exactly in pools of at most six routes. */
  lemma IndexingIff(routes: seq<Route>, public: Public)
    requires RoutesOk(routes) && AllGood(routes, public)
    ensures IndexesRight(routes, public) <==> |routes| <= 6
  {
    if |routes| <= 6 {
      forall k: nat | k < Total(routes) ensures ItemRight(routes, public, k) {
        FoundItem(routes, public, k);
      }
    } else {
      LenListIncreasingIff(routes);
      var t := MissedAt(LenList(routes));
      MissedItem(routes, public, t);
    }
  }

  // ------------------------------------------------------------------
  // The objects
  // ------------------------------------------------------------------

  class Pool {
    const routes: seq<Route>
    const public: Public
    const lenList: seq<int>
    const wanHosts: nat

    ghost predicate Valid()
    {
      RoutesOk(routes) && lenList == LenList(routes) && wanHosts == Total(routes)
    }

    constructor (routes: seq<Route>, lens: seq<int>, hosts: nat, public: Public)
      requires RoutesOk(routes) && lens == LenList(routes) && hosts == Total(routes)
      ensures Valid() && this.routes == routes && this.public == public
    {
      this.routes, this.public := routes, public;
      lenList, wanHosts := lens, hosts;
    }

    /** None where an assertion fails. */
    method GetRouteInfo(r: nat, host: int) returns (info: Option<Info>)
      requires Valid()
      ensures info == RouteInfo(routes, public, r, host)
    {
      if r >= |routes| {
        return None;
      }
      var prevLen := if r > 0 then lenList[r - 1] else 0;
      var rel := host - prevLen;
      if rel > lenList[r] - 1 {
        return None;
      }
      if |routes[r].ext| == 0 || |routes[r].nics| == 0 || routes[r].nics[0].hostNo > MAX_LEN {
        return None;
      }
      if rel + 1 > wanHosts || wanHosts == 0 {
        return None;
      }
      WrapIsMod(rel, wanHosts);
      rel := rel % wanHosts;
      assert RouteOk(routes[r]);
      var ip := GetValue(routes[r].ext[0], rel);
      if !Buildable(routes[r], public, ip) {
        return None;
      }
      info := Some(Info(r, host, ip));
    }

    method GetAt(key: int) returns (info: Option<Info>)
      requires Valid() && wanHosts > 0
      ensures info == GetItem(routes, public, key)
    {
      var k := key;
      if k < 0 {
        WrapIsMod(k, wanHosts);
        k := k % wanHosts;
      }
      var found, r := SortedSearch(lenList, k + 1, None);
      if !found || r.None? {
        return None;
      }
      info := GetRouteInfo(r.value, k);
    }
  }

  /** The pool's constructor; None where an outside range is too long for len(). */
  method MakePool(routes: seq<Route>, public: Public) returns (p: Option<Pool>)
    requires RoutesOk(routes)
    ensures p.None? <==> exists r <- routes :: r.ext != [] && r.ext[0].hostNo > 0x7FFF_FFFF_FFFF_FFFF
    ensures p.Some? ==> p.value.Valid() && p.value.routes == routes && p.value.public == public
  {
    var lens: seq<int> := [];
    var hosts := 0;
    for i := 0 to |routes|
      invariant |lens| == i && hosts == Upto(routes, i)
      invariant forall k :: 0 <= k < i ==> lens[k] == Upto(routes, k + 1)
      invariant forall k :: 0 <= k < i ==> routes[k].ext == [] || routes[k].ext[0].hostNo <= MAX_LEN
    {
      if |routes[i].ext| == 0 {
        lens := lens + [hosts];
        continue;
      }
      if routes[i].ext[0].hostNo > MAX_LEN {
        assert routes[i] in routes;
        return None;
      }
      var next := hosts + routes[i].ext[0].hostNo;
      lens := lens + [next];
      hosts := next;
    }
    assert lens == LenList(routes);
    var pool := new Pool(routes, lens, hosts, public);
    p := Some(pool);
  }

  class RoutePoolIter {
    const rp: Pool
    var hostP: nat
    var routeOffset: nat

    constructor (rp: Pool)
      ensures this.rp == rp && hostP == 0 && routeOffset == 0
    {
      this.rp := rp;
      hostP := 0;
      routeOffset := 0;
    }

    /** What a loop over this iterator still sees. */
    ghost function Ahead(): Walk
      requires rp.Valid()
      reads this
    {
      WalkFrom(rp.routes, rp.public, hostP, routeOffset)
    }

    /** `stop` ends the iteration; None without it is an exception. */
    method Next() returns (stop: bool, info: Option<Info>)
      requires rp.Valid()
      modifies this
      ensures stop ==> old(Ahead()) == Walk([], true) && info == None
      ensures !stop && info.None? ==> old(Ahead()) == Walk([], false)
      ensures !stop && info.Some? ==> old(Ahead()) == Walk([info.value] + Ahead().seen, Ahead().ended)
    {
      if hostP >= rp.wanHosts {
        return true, None;
      }
      info := rp.GetRouteInfo(routeOffset, hostP);
      if info.None? {
        return false, None;
      }
      hostP := hostP + 1;
      if hostP >= rp.lenList[routeOffset] {
        if routeOffset < |rp.routes| - 1 {
          routeOffset := routeOffset + 1;
        }
      }
      stop := false;
    }
  }
}
