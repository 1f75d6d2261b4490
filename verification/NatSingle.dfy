/**
 One predicted mapping, by kind of NAT: the port announced to the peer, the local port bound
 for it, and the reply port asked for; and when the NAT really maps the one onto the other.
 */
module NatSingle {
  import opened NatPredict
  import opened Options
  import opened Ranges

  const PORTS := Range(1, MAX_PORT)

  /** The port the peer wants us to come from: the reply port it asks for, or else the one it sends from. */
  predicate Wants(rmap: NATMapping, port: int) {
    (rmap.reply != 0 && port == rmap.reply) || (rmap.reply == 0 && port == rmap.remote)
  }

  /** No NAT at all, or a firewall that leaves ports as they are. */
  predicate Open(our: Nat) {
    our.kind == OpenInternet || our.kind == SymmetricUdpFirewall
  }

  /** The NAT's ports follow the local ones, or equal them. */
  predicate ChoosesPorts(mode: PunchMode, our: Nat) {
    !mode.Self? && !Open(our) && (our.delta.EqualDelta? || our.delta.PreservDelta?)
  }

  /** The NAT's ports come from a counter. */
  predicate Counts(mode: PunchMode, our: Nat) {
    !mode.Self? && !Open(our) && (our.delta.IndependentDelta? || our.delta.DependentDelta?)
  }

  predicate Unknowable(mode: PunchMode, our: Nat) {
    !mode.Self? && !Open(our) && (our.delta.NaDelta? || our.delta.RandomDelta?)
  }

  // ------------------------------------------------------------------
  // When there is no mapping
  // ------------------------------------------------------------------

  lemma NoMappingIff(mode: PunchMode, rmap: NATMapping, last: NATMapping, useRange: Range, our: Nat,
                     preloaded: NATMapping, pick: nat)
    ensures GetSingleMapping(mode, rmap, last, useRange, our, preloaded, pick).None?
            <==> || rmap.remote == 0
                 || (ChoosesPorts(mode, our) && useRange.lo > useRange.hi
                     && forall port :: Wants(rmap, port) ==> !InRange(port, our.range))
                 || (Counts(mode, our) && useRange.hi < 0)
                 || (Unknowable(mode, our) && our.kind in {SymmetricUdpFirewall, SymmetricNat, BlockedNat})
  {
    assert Wants(rmap, BindPort(rmap));
  }

  // ------------------------------------------------------------------
  // The port announced
  // ------------------------------------------------------------------

  /** Where the NAT lets us choose, the peer gets the port it wants; a closed one as far as its range goes. */
  lemma WantedPortAnnounced(mode: PunchMode, rmap: NATMapping, last: NATMapping, useRange: Range, our: Nat,
                            preloaded: NATMapping, pick: nat, port: int)
    requires Wants(rmap, port) && !mode.Self? && (Open(our) || ChoosesPorts(mode, our))
    requires GetSingleMapping(mode, rmap, last, useRange, our, preloaded, pick).Some?
    ensures var m := GetSingleMapping(mode, rmap, last, useRange, our, preloaded, pick).value;
            if Open(our) || InRange(port, our.range) then m.remote == port else InRange(m.remote, useRange)
    ensures var m := GetSingleMapping(mode, rmap, last, useRange, our, preloaded, pick).value;
            Open(our) || our.delta.EqualDelta? ==> m.local == m.remote
  {
  }

  /** Punching ourselves: another port than the peer's, both bound and announced, and never a low one. */
  lemma SelfAvoidsPort(rmap: NATMapping, last: NATMapping, useRange: Range, our: Nat, preloaded: NATMapping, pick: nat)
    requires InRange(rmap.remote, PORTS)
    ensures var m := GetSingleMapping(Self, rmap, last, useRange, our, preloaded, pick);
            && m.Some? && m.value.local == m.value.remote != rmap.remote && m.value.reply == 0
            && InRange(m.value.remote, Range(2001, MAX_PORT))
            && (1001 <= rmap.remote <= MAX_PORT - 1000 ==> m.value.remote == rmap.remote + 1000)
            && (rmap.remote <= 1000 ==> m.value.remote == rmap.remote + 3001)
            && (rmap.remote > MAX_PORT - 1000 ==> m.value.remote == rmap.remote + 3001 - (MAX_PORT + 1))
  {
    WrappedAt(rmap.remote + 1000, Range(2001, MAX_PORT));
  }

  /** A NAT whose ports cannot be known: the mapping a STUN server saw, if the kind of NAT keeps it open. */
  lemma SeenMappingUsed(mode: PunchMode, rmap: NATMapping, last: NATMapping, useRange: Range, our: Nat,
                        preloaded: NATMapping, pick: nat)
    requires Unknowable(mode, our) && GetSingleMapping(mode, rmap, last, useRange, our, preloaded, pick).Some?
    ensures var m := GetSingleMapping(mode, rmap, last, useRange, our, preloaded, pick).value;
            && m.local == preloaded.local && m.remote == preloaded.remote
            && m.reply == if our.kind == RestrictPortNat then 3478 else 0
  {
  }

  // ------------------------------------------------------------------
  // The reply port asked for
  // ------------------------------------------------------------------

  /** Only a NAT that admits one remote port asks for one: the port the peer wanted us to come from. */
  lemma ReplyPortAsked(mode: PunchMode, rmap: NATMapping, last: NATMapping, useRange: Range, our: Nat,
                       preloaded: NATMapping, pick: nat, port: int)
    requires Wants(rmap, port) && !Unknowable(mode, our)
    requires GetSingleMapping(mode, rmap, last, useRange, our, preloaded, pick).Some?
    ensures var m := GetSingleMapping(mode, rmap, last, useRange, our, preloaded, pick).value;
            m.reply == if our.kind == RestrictPortNat && !mode.Self? && our.delta != EqualDelta then port else 0
  {
  }

  // ------------------------------------------------------------------
  // The local port bound
  // ------------------------------------------------------------------

  /** Against a NAT with a counter: any unprivileged port, or the one after the last for a NAT that counts along. */
  lemma CounterLocalPort(mode: PunchMode, rmap: NATMapping, last: NATMapping, useRange: Range, our: Nat,
                         preloaded: NATMapping, pick: nat)
    requires Counts(mode, our) && GetSingleMapping(mode, rmap, last, useRange, our, preloaded, pick).Some?
    requires InRange(last.local, PORTS)
    ensures var m := GetSingleMapping(mode, rmap, last, useRange, our, preloaded, pick).value;
            if our.delta.IndependentDelta? then InRange(m.local, Range(2000, MAX_PORT))
            else m.local == if last.local < MAX_PORT - 1 then last.local + 1 else 1
  {
  }

  /** Where a NAT that keeps distances maps a local port, by the last mapping known. */
  function MappedTo(last: NATMapping, local: int): int {
    last.remote + (local - last.local)
  }

  /** For such a NAT the bound port is mapped onto the announced one exactly when that is not below the last
      one seen and the local port does not run to the end of the ports; one pair of distances wraps into
      place by chance. */
  lemma KeptDistanceIff(mode: PunchMode, rmap: NATMapping, last: NATMapping, useRange: Range, our: Nat,
                        preloaded: NATMapping, pick: nat)
    requires ChoosesPorts(mode, our) && our.delta.PreservDelta?
    requires GetSingleMapping(mode, rmap, last, useRange, our, preloaded, pick).Some?
    requires InRange(last.local, PORTS) && InRange(last.remote, PORTS)
    requires InRange(GetSingleMapping(mode, rmap, last, useRange, our, preloaded, pick).value.remote, PORTS)
    ensures var m := GetSingleMapping(mode, rmap, last, useRange, our, preloaded, pick).value;
            MappedTo(last, m.local) == m.remote
            <==> || (m.remote >= last.remote && last.local + (m.remote - last.remote) < MAX_PORT)
                 || (last.remote - m.remote == 32767 && last.local == 32768)
  {
    var m := GetSingleMapping(mode, rmap, last, useRange, our, preloaded, pick).value;
    var x := last.local + Abs(last.remote - m.remote);
    assert x < MAX_PORT ==> PortWrap(x) == x;
    assert x == MAX_PORT ==> PortWrap(x) == 1;
    assert MAX_PORT < x < 2 * MAX_PORT ==> PortWrap(x) == x - MAX_PORT;
  }

  /** The distance goes the wrong way for a port below the last one seen: asked for 2500, a NAT that maps
      3000 to 3100 gets 3600 bound, which it maps to 3700. */
  lemma WrongWay(pick: nat)
    ensures var our, last := Nat(RestrictNat, PreservDelta, 0, Range(2000, MAX_PORT)), NATMapping(3000, 0, 3100);
            var m := GetSingleMapping(Remote, NATMapping(0, 0, 2500), last, our.range, our, last, pick);
            m == Some(NATMapping(3600, 0, 2500)) && MappedTo(last, 3600) == 3700
  {
  }

  // ------------------------------------------------------------------
  // All of them
  // ------------------------------------------------------------------

  /** Each mapping of a prediction answers the peer's in its place, from the last mapping seen; where a seen
      mapping is used as it is, the one in the same place, or the first when there are fewer. */
  lemma {:induction false} EachPrediction(mode: PunchMode, recv: seq<NATMapping>, preloaded: seq<NATMapping>,
                                          useRange: Range, our: Nat, picks: nat -> nat, n: nat, i: nat)
    requires i < n <= |recv| && |preloaded| > 0
    requires Predictions(mode, recv, preloaded, useRange, our, picks, n).Some?
    ensures var ms := Predictions(mode, recv, preloaded, useRange, our, picks, n).value;
            && |ms| == n
            && GetSingleMapping(mode, recv[i], preloaded[|preloaded| - 1], useRange, our,
                                if i < |preloaded| then preloaded[i] else preloaded[0], picks(i)) == Some(ms[i])
  {
    AsMany(mode, recv, preloaded, useRange, our, picks, n - 1);
    if i < n - 1 {
      EachPrediction(mode, recv, preloaded, useRange, our, picks, n - 1, i);
    }
  }

  lemma {:induction false} AsMany(mode: PunchMode, recv: seq<NATMapping>, preloaded: seq<NATMapping>, useRange: Range,
                                  our: Nat, picks: nat -> nat, n: nat)
    requires n <= |recv| && |preloaded| > 0 && Predictions(mode, recv, preloaded, useRange, our, picks, n).Some?
    ensures |Predictions(mode, recv, preloaded, useRange, our, picks, n).value| == n
  {
    if n == 0 {
    } else {
      AsMany(mode, recv, preloaded, useRange, our, picks, n - 1);
    }
  }
}
