/**
 Sending one signal message: the destination's servers are tried in turn, those
 already connected first, starting at a place that depends on the technique.
 */
module SignalRouting {
  import opened Modular

  type Offset = int

  /** The connected ones first, each group in its own order. */
  function Prioritised(offsets: seq<Offset>, loaded: set<Offset>): seq<Offset> {
    Keep(offsets, loaded, true) + Keep(offsets, loaded, false)
  }

  function Keep(offsets: seq<Offset>, loaded: set<Offset>, wanted: bool): seq<Offset> {
    if |offsets| == 0 then []
    else (if (offsets[0] in loaded) == wanted then [offsets[0]] else []) + Keep(offsets[1..], loaded, wanted)
  }

  /** Position of the i-th try among n servers. */
  function Turn(i: int, m: int, n: int): (k: int)
    requires n > 0
    ensures 0 <= k < n
  {
    (i + (m - 1)) % n
  }

  /** The order servers are tried in for technique `m`. */
  function TryOrder(offsets: seq<Offset>, loaded: set<Offset>, m: int): (r: seq<Offset>)
    ensures |r| == |Prioritised(offsets, loaded)|
  {
    var ps := Prioritised(offsets, loaded);
    seq(|ps|, i requires 0 <= i < |ps| => ps[Turn(i, m, |ps|)])
  }

  /** The servers that took the message, and whether the call ended in an exception: asking for a
      connection that is not there calls the loader without its address family, which raises. */
  datatype Outcome = Outcome(sent: seq<Offset>, raised: bool)

  function Deliver(order: seq<Offset>, loaded: set<Offset>, accepts: Offset -> bool, relayNo: int,
                   count: nat): Outcome {
    if |order| == 0 then Outcome([], false)
    else if order[0] !in loaded then Outcome([], true)
    else
      var took := accepts(order[0]);
      var count' := if took then count + 1 else count;
      var head := if took then [order[0]] else [];
      if count' >= relayNo then Outcome(head, false)
      else
        var rest := Deliver(order[1..], loaded, accepts, relayNo, count');
        Outcome(head + rest.sent, rest.raised)
  }

  method AwaitPeerCon(offsets: seq<Offset>, loaded: set<Offset>, accepts: Offset -> bool, m: int, relayNo: int)
    returns (r: Outcome)
    ensures r == Deliver(TryOrder(offsets, loaded, m), loaded, accepts, relayNo, 0)
  {
    var ps := Prioritised(offsets, loaded);
    ghost var order := TryOrder(offsets, loaded, m);
    ghost var all := Deliver(order, loaded, accepts, relayNo, 0);
    var sent: seq<Offset> := [];
    var count := 0;
    assert order[0..] == order;
    for i := 0 to |ps|
      invariant 0 <= count
      invariant all == After(sent, Deliver(order[i..], loaded, accepts, relayNo, count))
    {
      var offset := ps[Turn(i, m, |ps|)];
      assert order[i] == offset;
      DeliverStep(order, i, loaded, accepts, relayNo, count, sent);
      if offset !in loaded {
        return Outcome(sent, true);
      }
      if accepts(offset) {
        sent := sent + [offset];
        count := count + 1;
      }
      if count >= relayNo {
        return Outcome(sent, false);
      }
    }
    r := Outcome(sent, false);
  }

  function After(sent: seq<Offset>, rest: Outcome): Outcome {
    Outcome(sent + rest.sent, rest.raised)
  }

  lemma DeliverStep(order: seq<Offset>, i: nat, loaded: set<Offset>, accepts: Offset -> bool, relayNo: int, count: nat,
                    sent: seq<Offset>)
    requires i < |order|
    ensures var count' := if accepts(order[i]) then count + 1 else count;
            var sent' := if accepts(order[i]) then sent + [order[i]] else sent;
            After(sent, Deliver(order[i..], loaded, accepts, relayNo, count))
            == if order[i] !in loaded then Outcome(sent, true)
               else if count' >= relayNo then Outcome(sent', false)
               else After(sent', Deliver(order[i + 1..], loaded, accepts, relayNo, count'))
  {
    var rest := order[i..];
    assert rest[0] == order[i] && rest[1..] == order[i + 1..];
    var count' := if accepts(order[i]) then count + 1 else count;
    var tail := Deliver(order[i + 1..], loaded, accepts, relayNo, count').sent;
    assert (sent + [order[i]]) + tail == sent + ([order[i]] + tail);
    assert sent + [] == sent && [] + tail == tail;
  }

  lemma {:induction false} KeepBoth(offsets: seq<Offset>, loaded: set<Offset>)
    ensures multiset(Prioritised(offsets, loaded)) == multiset(offsets)
    ensures |Prioritised(offsets, loaded)| == |offsets|
    ensures forall o <- Keep(offsets, loaded, true) :: o in loaded
    ensures forall o <- Keep(offsets, loaded, false) :: o !in loaded
  {
    if |offsets| == 0 {
    } else {
      KeepBoth(offsets[1..], loaded);
      assert offsets == [offsets[0]] + offsets[1..];
    }
  }

  /** Starting anywhere, the order visits every position once: it is the prioritised list rotated. */
  lemma OrderIsRotation(offsets: seq<Offset>, loaded: set<Offset>, m: int)
    requires |offsets| > 0
    ensures var ps, k := Prioritised(offsets, loaded), (m - 1) % |offsets|;
            |ps| == |offsets| && TryOrder(offsets, loaded, m) == ps[k..] + ps[..k]
    ensures multiset(TryOrder(offsets, loaded, m)) == multiset(offsets)
  {
    KeepBoth(offsets, loaded);
    var ps, n := Prioritised(offsets, loaded), |offsets|;
    var k := (m - 1) % n;
    var order := TryOrder(offsets, loaded, m);
    forall i | 0 <= i < n
      ensures order[i] == (ps[k..] + ps[..k])[i]
    {
      TurnIsShift(i, m, n);
      assert order[i] == ps[Turn(i, m, n)];
    }
    assert order == ps[k..] + ps[..k];
    assert ps == ps[..k] + ps[k..];
  }

  lemma TurnIsShift(i: int, m: int, n: int)
    requires 0 <= i < n
    ensures var k := (m - 1) % n;
            Turn(i, m, n) == if i + k < n then i + k else i + k - n
  {
    var k, q := (m - 1) % n, (m - 1) / n;
    assert m - 1 == n * q + k;
    assert i + (m - 1) == (i + k) + q * n;
    ModAddMultiple(i + k, q, n);
    if i + k < n {
      ModSmall(i + k, n);
    } else {
      ModOnce(i + k, n);
    }
  }

  /** No more copies go out than the relay limit, each through a connected server that took it, and
      no server is used twice when the offsets are distinct. */
  lemma {:induction false} CopiesBounded(order: seq<Offset>, loaded: set<Offset>, accepts: Offset -> bool,
                                         relayNo: int, count: nat)
    requires count < relayNo
    ensures var r := Deliver(order, loaded, accepts, relayNo, count);
            && count + |r.sent| <= relayNo
            && multiset(r.sent) <= multiset(order)
            && (forall o <- r.sent :: o in loaded && accepts(o))
  {
    if |order| == 0 || order[0] !in loaded {
    } else {
      assert order == [order[0]] + order[1..];
      var count' := if accepts(order[0]) then count + 1 else count;
      if count' < relayNo {
        CopiesBounded(order[1..], loaded, accepts, relayNo, count');
      }
    }
  }

  /** How many servers at the head of the order are connected. */
  function Reach(order: seq<Offset>, loaded: set<Offset>): (n: nat)
    ensures n <= |order|
  {
    if |order| == 0 || order[0] !in loaded then 0 else 1 + Reach(order[1..], loaded)
  }

  /** The message gets out exactly when some server that takes it is tried before the first one
      that is not connected. */
  lemma {:induction false} GetsOutIff(order: seq<Offset>, loaded: set<Offset>, accepts: Offset -> bool, relayNo: int,
                                      count: nat)
    requires count < relayNo
    ensures Deliver(order, loaded, accepts, relayNo, count).sent != []
            <==> exists i :: 0 <= i < Reach(order, loaded) && accepts(order[i])
  {
    if |order| == 0 || order[0] !in loaded {
    } else {
      if !accepts(order[0]) {
        GetsOutIff(order[1..], loaded, accepts, relayNo, count);
        if i :| 0 <= i < Reach(order[1..], loaded) && accepts(order[1..][i]) {
          assert accepts(order[i + 1]);
        }
        if i :| 0 <= i < Reach(order, loaded) && accepts(order[i]) {
          assert order[1..][i - 1] == order[i];
        }
      } else {
        assert 0 < Reach(order, loaded) && accepts(order[0]);
      }
    }
  }

  /** With every server connected the call never raises, and it stops short of the limit only after
      using every server that takes the message. */
  lemma {:induction false} AllConnected(order: seq<Offset>, loaded: set<Offset>, accepts: Offset -> bool, relayNo: int,
                                        count: nat)
    requires count < relayNo
    requires forall i :: 0 <= i < |order| ==> order[i] in loaded
    ensures var r := Deliver(order, loaded, accepts, relayNo, count);
            && !r.raised
            && (count + |r.sent| == relayNo || forall o <- order :: accepts(o) ==> o in r.sent)
  {
    if |order| == 0 {
    } else {
      assert order == [order[0]] + order[1..];
      var count' := if accepts(order[0]) then count + 1 else count;
      if count' < relayNo {
        AllConnected(order[1..], loaded, accepts, relayNo, count');
      }
    }
  }

  /** A hole punch starts at the second server: with the first connected and willing but the second
      not connected, nothing is sent at all. */
  lemma WillingServerMissed(accepts: Offset -> bool)
    requires accepts(7)
    ensures Deliver(TryOrder([7, 8], {7}, 2), {7}, accepts, 2, 0) == Outcome([], true)
  {
    assert [7, 8][1..] == [8] && [8][1..] == [];
    assert Keep([8], {7}, true) == [] && Keep([8], {7}, false) == [8];
    assert Prioritised([7, 8], {7}) == [7, 8];
    TurnIsShift(0, 2, 2);
    assert TryOrder([7, 8], {7}, 2)[0] == 8;
  }
}
