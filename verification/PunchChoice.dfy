/**
 When several holes were punched both peers keep one connection and close the
 others.  Each decides alone, by the largest hash of a connection's sorted quad.
 The hash is an arbitrary function.
 */
module PunchChoice {
  import opened Ranges
  import opened Options

  type Conn = int

  datatype Peer = Peer(ip: int, port: int)

  /** A punched connection as one side sees it; asking a dead socket for its peer raises. */
  datatype Out = Out(conn: Conn, remote: int, peer: Option<Peer>)

  function Quad(ourIp: int, o: Out): seq<int>
    requires o.peer.Some?
  {
    [ourIp, o.peer.value.ip, o.remote, o.peer.value.port]
  }

  function Score(h: seq<int> -> int, ourIp: int, o: Out): int
    requires o.peer.Some?
  {
    h(Sort(Quad(ourIp, o)))
  }

  /** A hash that is not positive fails an assertion. */
  predicate Usable(h: seq<int> -> int, ourIp: int, o: Out) {
    o.peer.Some? && Score(h, ourIp, o) > 0
  }

  /** The scan stops at the first connection that raises. */
  function Scanned(h: seq<int> -> int, ourIp: int, outs: seq<Out>): (n: nat)
    ensures n <= |outs|
    ensures forall i :: 0 <= i < n ==> Usable(h, ourIp, outs[i])
    ensures n < |outs| ==> !Usable(h, ourIp, outs[n])
  {
    if |outs| == 0 || !Usable(h, ourIp, outs[0]) then 0 else 1 + Scanned(h, ourIp, outs[1..])
  }

  /** The hash of a connection's two addresses, sorted, is positive; a dead socket has none. */
  predicate Hashes(h: seq<int> -> int, ourIp: int, o: Out) {
    o.peer.Some? && h(Sort([ourIp, o.peer.value.ip, o.remote, o.peer.value.port])) > 0
  }

  /** Scanned are exactly the connections before the first one that is dead or hashes to no positive number. */
  lemma ScannedIff(h: seq<int> -> int, ourIp: int, outs: seq<Out>, n: nat)
    requires n <= |outs|
    ensures n == Scanned(h, ourIp, outs)
            <==> (forall i :: 0 <= i < n ==> Hashes(h, ourIp, outs[i])) && (n < |outs| ==> !Hashes(h, ourIp, outs[n]))
  {
    var m := Scanned(h, ourIp, outs);
    assert forall i :: 0 <= i < |outs| ==> Usable(h, ourIp, outs[i]) == Hashes(h, ourIp, outs[i]);
    assert m < |outs| ==> !Usable(h, ourIp, outs[m]);
  }

  /** The first connection of the largest score among those scanned. */
  ghost predicate IsChoice(h: seq<int> -> int, ourIp: int, outs: seq<Out>, c: Option<Conn>) {
    var n := Scanned(h, ourIp, outs);
    match c
    case None => n == 0
    case Some(conn) =>
      exists i :: 0 <= i < n && outs[i].conn == conn
                  && (forall j :: 0 <= j < n ==> Score(h, ourIp, outs[j]) <= Score(h, ourIp, outs[i]))
                  && (forall j :: 0 <= j < i ==> Score(h, ourIp, outs[j]) < Score(h, ourIp, outs[i]))
  }

  method ChooseSamePunchSock(h: seq<int> -> int, ourIp: int, outs: seq<Out>) returns (chosen: Option<Conn>)
    ensures IsChoice(h, ourIp, outs, chosen)
  {
    chosen := None;
    var hVal := 0;
    ghost var best := 0;
    ghost var n := Scanned(h, ourIp, outs);
    for k := 0 to |outs|
      invariant k <= n
      invariant k == 0 <==> chosen.None?
      invariant best <= k
      invariant k == 0 ==> hVal == 0 && best == 0
      invariant k > 0 ==> 0 <= best < k && chosen == Some(outs[best].conn) && hVal == Score(h, ourIp, outs[best])
      invariant forall j :: 0 <= j < k ==> Score(h, ourIp, outs[j]) <= hVal
      invariant forall j :: 0 <= j < best ==> Score(h, ourIp, outs[j]) < hVal
    {
      if outs[k].peer.None? {
        return;
      }
      var score := Score(h, ourIp, outs[k]);
      if score <= 0 {
        return;
      }
      if score > hVal {
        hVal := score;
        chosen := Some(outs[k].conn);
        best := k;
      }
    }
  }

  lemma {:induction false} InsertCommutes(x: int, y: int, s: seq<int>)
    ensures Insert(x, Insert(y, s)) == Insert(y, Insert(x, s))
  {
    if |s| == 0 {
      InsertIntoOne(x, y);
      InsertIntoOne(y, x);
    } else {
      var t := s[1..];
      InsertCommutes(x, y, t);
      if x <= s[0] {
        assert ([x] + s)[1..] == s;
      } else {
        assert ([s[0]] + Insert(x, t))[1..] == Insert(x, t);
      }
      if y <= s[0] {
        assert ([y] + s)[1..] == s;
      } else {
        assert ([s[0]] + Insert(y, t))[1..] == Insert(y, t);
      }
    }
  }

  /** Seen from either end, a connection has the same sorted quad. */
  lemma QuadIsSymmetric(a: int, b: int, p: int, q: int)
    ensures Sort([a, b, p, q]) == Sort([b, a, q, p])
  {
    forall w: int, x: int, y: int, z: int
      ensures Sort([w, x, y, z]) == Insert(w, Insert(x, Insert(y, Insert(z, []))))
    {
      assert [w, x, y, z][1..] == [x, y, z] && [x, y, z][1..] == [y, z] && [y, z][1..] == [z] && [z][1..] == [];
      assert Sort([z]) == Insert(z, []);
      assert Sort([y, z]) == Insert(y, Sort([z]));
      assert Sort([x, y, z]) == Insert(x, Sort([y, z]));
    }
    InsertCommutes(p, q, []);
    InsertCommutes(a, b, Insert(p, Insert(q, [])));
  }

  /** The two ends of one connection: each end's remote port is the other end's peer port. */
  predicate Mirror(ourIp: int, x: Out, theirIp: int, y: Out) {
    x.conn == y.conn && x.peer == Some(Peer(theirIp, y.remote)) && y.peer == Some(Peer(ourIp, x.remote))
  }

  ghost predicate HasMirror(ourIp: int, x: Out, theirIp: int, theirs: seq<Out>) {
    exists j :: 0 <= j < |theirs| && Mirror(ourIp, x, theirIp, theirs[j])
  }

  /** Every connection in the first list is in the second, seen from the other end. */
  ghost predicate Mirrored(ourIp: int, ours: seq<Out>, theirIp: int, theirs: seq<Out>) {
    forall i {:trigger HasMirror(ourIp, ours[i], theirIp, theirs)} ::
      0 <= i < |ours| ==> HasMirror(ourIp, ours[i], theirIp, theirs)
  }

  predicate AllUsable(h: seq<int> -> int, ourIp: int, outs: seq<Out>) {
    forall i :: 0 <= i < |outs| ==> Usable(h, ourIp, outs[i])
  }

  ghost predicate Distinguished(h: seq<int> -> int, ourIp: int, outs: seq<Out>) {
    && AllUsable(h, ourIp, outs)
    && forall i, j :: 0 <= i < |outs| && 0 <= j < |outs| && outs[i].conn != outs[j].conn ==>
                        Score(h, ourIp, outs[i]) != Score(h, ourIp, outs[j])
  }

  lemma MirrorScores(h: seq<int> -> int, ourIp: int, x: Out, theirIp: int, y: Out)
    requires Mirror(ourIp, x, theirIp, y)
    ensures Score(h, ourIp, x) == Score(h, theirIp, y)
  {
    QuadIsSymmetric(ourIp, theirIp, x.remote, y.remote);
  }

  lemma AllScanned(h: seq<int> -> int, ourIp: int, outs: seq<Out>)
    requires AllUsable(h, ourIp, outs)
    ensures Scanned(h, ourIp, outs) == |outs|
  {
  }

  lemma MirrorUsable(h: seq<int> -> int, ourIp: int, ours: seq<Out>, theirIp: int, theirs: seq<Out>)
    requires Mirrored(theirIp, theirs, ourIp, ours) && AllUsable(h, ourIp, ours)
    ensures AllUsable(h, theirIp, theirs)
  {
    forall i | 0 <= i < |theirs| ensures Usable(h, theirIp, theirs[i]) {
      assert HasMirror(theirIp, theirs[i], ourIp, ours);
      var j :| 0 <= j < |ours| && Mirror(theirIp, theirs[i], ourIp, ours[j]);
      assert Usable(h, ourIp, ours[j]);
      MirrorScores(h, theirIp, theirs[i], ourIp, ours[j]);
    }
  }

  /** Connection i scores at least as much as every other. */
  ghost predicate Largest(h: seq<int> -> int, ourIp: int, outs: seq<Out>, i: int) {
    && 0 <= i < |outs|
    && (forall j :: 0 <= j < |outs| ==> outs[j].peer.Some?)
    && (forall j :: 0 <= j < |outs| ==> Score(h, ourIp, outs[j]) <= Score(h, ourIp, outs[i]))
  }

  /** No connection of the other view scores more than our largest. */
  lemma LargestCarriesOver(h: seq<int> -> int, ourIp: int, ours: seq<Out>, theirIp: int, theirs: seq<Out>, i: int,
                           k: int)
    requires Mirrored(theirIp, theirs, ourIp, ours) && Largest(h, ourIp, ours, i)
    requires 0 <= k < |theirs| && theirs[k].peer.Some?
    ensures Score(h, theirIp, theirs[k]) <= Score(h, ourIp, ours[i])
    ensures exists j :: 0 <= j < |ours| && ours[j].conn == theirs[k].conn
                        && Score(h, ourIp, ours[j]) == Score(h, theirIp, theirs[k])
  {
    assert HasMirror(theirIp, theirs[k], ourIp, ours);
    var j :| 0 <= j < |ours| && Mirror(theirIp, theirs[k], ourIp, ours[j]);
    MirrorScores(h, theirIp, theirs[k], ourIp, ours[j]);
  }

  /** The largest score belongs to one connection, though it may be listed more than once. */
  ghost predicate OneLargest(h: seq<int> -> int, ourIp: int, outs: seq<Out>) {
    forall i, j :: Largest(h, ourIp, outs, i) && Largest(h, ourIp, outs, j) ==> outs[i].conn == outs[j].conn
  }

  lemma LargestAgree(h: seq<int> -> int, ourIp: int, ours: seq<Out>, theirIp: int, theirs: seq<Out>, i: int, k: int)
    requires Mirrored(ourIp, ours, theirIp, theirs) && Mirrored(theirIp, theirs, ourIp, ours)
    requires AllUsable(h, ourIp, ours) && OneLargest(h, ourIp, ours)
    requires Largest(h, ourIp, ours, i) && Largest(h, theirIp, theirs, k)
    ensures ours[i].conn == theirs[k].conn
  {
    LargestCarriesOver(h, ourIp, ours, theirIp, theirs, i, k);
    LargestCarriesOver(h, theirIp, theirs, ourIp, ours, k, i);
    var j :| 0 <= j < |ours| && ours[j].conn == theirs[k].conn
             && Score(h, ourIp, ours[j]) == Score(h, theirIp, theirs[k]);
    assert Largest(h, ourIp, ours, j);
  }

  lemma ChoiceIsLargest(h: seq<int> -> int, ourIp: int, outs: seq<Out>, c: Conn) returns (i: int)
    requires AllUsable(h, ourIp, outs)
    requires IsChoice(h, ourIp, outs, Some(c))
    ensures Largest(h, ourIp, outs, i) && outs[i].conn == c
  {
    AllScanned(h, ourIp, outs);
    i :| 0 <= i < |outs| && outs[i].conn == c
         && forall j :: 0 <= j < |outs| ==> Score(h, ourIp, outs[j]) <= Score(h, ourIp, outs[i]);
  }

  /** Mirrored views with one largest score lead to one choice. */
  lemma OneLargestAgrees(h: seq<int> -> int, ourIp: int, ours: seq<Out>, theirIp: int, theirs: seq<Out>,
                         c: Option<Conn>, d: Option<Conn>)
    requires Mirrored(ourIp, ours, theirIp, theirs) && Mirrored(theirIp, theirs, ourIp, ours)
    requires AllUsable(h, ourIp, ours) && OneLargest(h, ourIp, ours)
    requires IsChoice(h, ourIp, ours, c) && IsChoice(h, theirIp, theirs, d)
    ensures c == d
  {
    MirrorUsable(h, ourIp, ours, theirIp, theirs);
    AllScanned(h, ourIp, ours);
    AllScanned(h, theirIp, theirs);
    if |ours| == 0 {
      assert |theirs| > 0 ==> HasMirror(theirIp, theirs[0], ourIp, ours);
    } else {
      assert HasMirror(ourIp, ours[0], theirIp, theirs);
      var i := ChoiceIsLargest(h, ourIp, ours, c.value);
      var k := ChoiceIsLargest(h, theirIp, theirs, d.value);
      LargestAgree(h, ourIp, ours, theirIp, theirs, i, k);
    }
  }

  /** Two peers with mirrored views of the same connections, listed in any order, keep the same one
      as long as distinct connections have distinct positive hashes. */
  lemma SameChoice(h: seq<int> -> int, ourIp: int, ours: seq<Out>, theirIp: int, theirs: seq<Out>,
                   c: Option<Conn>, d: Option<Conn>)
    requires Mirrored(ourIp, ours, theirIp, theirs) && Mirrored(theirIp, theirs, ourIp, ours)
    requires Distinguished(h, ourIp, ours)
    requires IsChoice(h, ourIp, ours, c) && IsChoice(h, theirIp, theirs, d)
    ensures c == d
  {
    OneLargestAgrees(h, ourIp, ours, theirIp, theirs, c, d);
  }

  // ------------------------------------------------------------------
  // Exactly when they agree
  // ------------------------------------------------------------------

  /** However each side lists its connections, both keep the same one. */
  ghost predicate AgreeInEveryOrder(h: seq<int> -> int, ourIp: int, ours: seq<Out>, theirIp: int, theirs: seq<Out>) {
    forall x, y, c, d ::
      (&& multiset(x) == multiset(ours) && multiset(y) == multiset(theirs)
       && IsChoice(h, ourIp, x, c) && IsChoice(h, theirIp, y, d)) ==> c == d
  }

  lemma SameMembers(x: seq<Out>, y: seq<Out>)
    requires multiset(x) == multiset(y)
    ensures forall i :: 0 <= i < |x| ==> x[i] in y
    ensures forall i :: 0 <= i < |y| ==> y[i] in x
  {
    forall i | 0 <= i < |x| ensures x[i] in y {
      assert x[i] in multiset(x);
    }
    forall i | 0 <= i < |y| ensures y[i] in x {
      assert y[i] in multiset(y);
    }
  }

  /** A view stays a mirror whatever the order of either list. */
  lemma MirroredInAnyOrder(ourIp: int, ours: seq<Out>, x: seq<Out>, theirIp: int, theirs: seq<Out>, y: seq<Out>)
    requires Mirrored(ourIp, ours, theirIp, theirs) && multiset(x) == multiset(ours) && multiset(y) == multiset(theirs)
    ensures Mirrored(ourIp, x, theirIp, y)
  {
    SameMembers(x, ours);
    SameMembers(y, theirs);
    forall i | 0 <= i < |x| ensures HasMirror(ourIp, x[i], theirIp, y) {
      var k :| 0 <= k < |ours| && ours[k] == x[i];
      assert HasMirror(ourIp, ours[k], theirIp, theirs);
      var j :| 0 <= j < |theirs| && Mirror(ourIp, ours[k], theirIp, theirs[j]);
      var m :| 0 <= m < |y| && y[m] == theirs[j];
    }
  }

  lemma ScoresInAnyOrder(h: seq<int> -> int, ourIp: int, ours: seq<Out>, x: seq<Out>)
    requires AllUsable(h, ourIp, ours) && OneLargest(h, ourIp, ours) && multiset(x) == multiset(ours)
    ensures AllUsable(h, ourIp, x) && OneLargest(h, ourIp, x)
  {
    SameMembers(x, ours);
    forall i, j | Largest(h, ourIp, x, i) && Largest(h, ourIp, x, j) ensures x[i].conn == x[j].conn {
      var k :| 0 <= k < |ours| && ours[k] == x[i];
      var m :| 0 <= m < |ours| && ours[m] == x[j];
      assert Largest(h, ourIp, ours, k) && Largest(h, ourIp, ours, m);
    }
  }

  function InFront(outs: seq<Out>, i: nat): seq<Out>
    requires i < |outs|
  {
    [outs[i]] + outs[..i] + outs[i + 1..]
  }

  /** A largest connection listed first is the choice. */
  lemma FirstLargestChosen(h: seq<int> -> int, ourIp: int, outs: seq<Out>, i: nat)
    requires AllUsable(h, ourIp, outs) && Largest(h, ourIp, outs, i)
    ensures multiset(InFront(outs, i)) == multiset(outs)
    ensures IsChoice(h, ourIp, InFront(outs, i), Some(outs[i].conn))
  {
    var x := InFront(outs, i);
    assert outs == outs[..i] + [outs[i]] + outs[i + 1..];
    SameMembers(x, outs);
    forall j | 0 <= j < |x| ensures Usable(h, ourIp, x[j]) && Score(h, ourIp, x[j]) <= Score(h, ourIp, outs[i]) {
      var k :| 0 <= k < |outs| && outs[k] == x[j];
    }
    AllScanned(h, ourIp, x);
    assert x[0] == outs[i];
  }

  /** Mirrored views lead to one choice in every order exactly when the largest score belongs to one
      connection. */
  lemma AgreeInEveryOrderIff(h: seq<int> -> int, ourIp: int, ours: seq<Out>, theirIp: int, theirs: seq<Out>)
    requires Mirrored(ourIp, ours, theirIp, theirs) && Mirrored(theirIp, theirs, ourIp, ours)
    requires AllUsable(h, ourIp, ours)
    ensures AgreeInEveryOrder(h, ourIp, ours, theirIp, theirs) <==> OneLargest(h, ourIp, ours)
  {
    if OneLargest(h, ourIp, ours) {
      forall x, y, c, d | multiset(x) == multiset(ours) && multiset(y) == multiset(theirs)
                          && IsChoice(h, ourIp, x, c) && IsChoice(h, theirIp, y, d)
        ensures c == d
      {
        MirroredInAnyOrder(ourIp, ours, x, theirIp, theirs, y);
        MirroredInAnyOrder(theirIp, theirs, y, ourIp, ours, x);
        ScoresInAnyOrder(h, ourIp, ours, x);
        OneLargestAgrees(h, ourIp, x, theirIp, y, c, d);
      }
    } else {
      var i, j :| Largest(h, ourIp, ours, i) && Largest(h, ourIp, ours, j) && ours[i].conn != ours[j].conn;
      FirstLargestChosen(h, ourIp, ours, i);
      MirrorUsable(h, ourIp, ours, theirIp, theirs);
      var k := MirrorIsLargest(h, ourIp, ours, theirIp, theirs, j);
      FirstLargestChosen(h, theirIp, theirs, k);
    }
  }

  /** The other end of a largest connection is largest there. */
  lemma MirrorIsLargest(h: seq<int> -> int, ourIp: int, ours: seq<Out>, theirIp: int, theirs: seq<Out>, j: int)
    returns (k: nat)
    requires Mirrored(ourIp, ours, theirIp, theirs) && Mirrored(theirIp, theirs, ourIp, ours)
    requires AllUsable(h, ourIp, ours) && Largest(h, ourIp, ours, j)
    ensures Largest(h, theirIp, theirs, k) && theirs[k].conn == ours[j].conn
  {
    MirrorUsable(h, ourIp, ours, theirIp, theirs);
    assert HasMirror(ourIp, ours[j], theirIp, theirs);
    k :| 0 <= k < |theirs| && Mirror(ourIp, ours[j], theirIp, theirs[k]);
    MirrorScores(h, ourIp, ours[j], theirIp, theirs[k]);
    forall m | 0 <= m < |theirs| ensures Score(h, theirIp, theirs[m]) <= Score(h, theirIp, theirs[k]) {
      LargestCarriesOver(h, ourIp, ours, theirIp, theirs, j, m);
    }
  }

  lemma Disagreement(h: seq<int> -> int, ourIp: int, x: seq<Out>, theirIp: int, y: seq<Out>, c: Option<Conn>,
                     d: Option<Conn>)
    requires IsChoice(h, ourIp, x, c) && IsChoice(h, theirIp, y, d) && c != d
    ensures !AgreeInEveryOrder(h, ourIp, x, theirIp, y)
  {
    assert multiset(x) == multiset(x) && multiset(y) == multiset(y);
  }

  const FLAT_HASH: seq<int> -> int := (_: seq<int>) => 1

  /** Two connections under equal hashes: each side keeps the first it listed, and they differ. */
  lemma TieDisagrees(x: Out, y: Out, x': Out, y': Out, ourIp: int, theirIp: int)
    requires Mirror(ourIp, x, theirIp, x') && Mirror(ourIp, y, theirIp, y') && x.conn != y.conn
    ensures IsChoice(FLAT_HASH, ourIp, [x, y], Some(x.conn))
    ensures IsChoice(FLAT_HASH, theirIp, [y', x'], Some(y.conn))
    ensures !AgreeInEveryOrder(FLAT_HASH, ourIp, [x, y], theirIp, [y', x'])
  {
    AllScanned(FLAT_HASH, ourIp, [x, y]);
    AllScanned(FLAT_HASH, theirIp, [y', x']);
    assert [x, y][0].conn == x.conn && [y', x'][0].conn == y.conn;
    Disagreement(FLAT_HASH, ourIp, [x, y], theirIp, [y', x'], Some(x.conn), Some(y.conn));
  }
}
