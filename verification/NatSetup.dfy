/**
 What a prediction starts from and what is done to it afterwards, in terms of the two NATs alone: when two
 NATs can be brought together, the range to use, the templates, and the ports patched in at the end.
 */
module NatSetup {
  import opened Bytes
  import opened NatPredict
  import opened NatSingle
  import opened Options
  import opened Ranges

  // ------------------------------------------------------------------
  // Bringing two NATs together
  // ------------------------------------------------------------------

  /** Lets in only the very port we sent to, from ports that cannot be foretold. */
  predicate StrictAndRandom(n: Nat) {
    n.kind == RestrictPortNat && n.delta == RandomDelta
  }

  /** Can send from the STUN port: an easy NAT or one whose ports follow the local ones, with that port in range. */
  predicate ReachesStunPort(n: Nat) {
    && (n.kind == OpenInternet || n.kind == FullCone || n.delta == PreservDelta || n.delta == EqualDelta)
    && n.range.lo <= 3478 <= n.range.hi
  }

  predicate Serves(strict: Nat, other: Nat) {
    StrictAndRandom(strict) && other.kind != RestrictPortNat && ReachesStunPort(other)
  }

  predicate Defeats(strict: Nat, other: Nat) {
    StrictAndRandom(strict) && (other.kind == RestrictPortNat || !ReachesStunPort(other))
  }

  /** Two NATs cannot be brought together exactly when one is strict with random ports and the other cannot
      come from the STUN port, or is strict itself; that port is used exactly when the other can. */
  lemma MeetIff(a: Nat, b: Nat)
    ensures CanPredictBoth(a, b) == None <==> Defeats(a, b) || Defeats(b, a)
    ensures CanPredictBoth(a, b) == Some(true) <==> Serves(a, b) || Serves(b, a)
  {
  }

  // ------------------------------------------------------------------
  // The range
  // ------------------------------------------------------------------

  predicate Shared(ours: Range, theirs: Range, testNo: int) {
    Min(ours.hi, theirs.hi) - Max(ours.lo, theirs.lo) >= testNo
  }

  /** The shared part where it is long enough, otherwise our own range; a low start is raised to 2000, in
      our own range in place, unless nothing is left. */
  lemma RangeToUse(ours: Range, theirs: Range, testNo: nat)
    requires ours.lo <= ours.hi && theirs.lo <= theirs.hi
    ensures var (use, own) := NatsIntersect(ours, theirs, testNo);
            var lo := if Shared(ours, theirs, testNo) then Max(ours.lo, theirs.lo) else ours.lo;
            var hi := if Shared(ours, theirs, testNo) then Min(ours.hi, theirs.hi) else ours.hi;
            && (use.None? <==> lo <= 1024 && hi <= 2000)
            && (use.Some? ==> use == Some(Range(if lo <= 1024 then 2000 else lo, hi)))
            && own == if !Shared(ours, theirs, testNo) && lo <= 1024 then Range(2000, hi) else ours
  {
    IntersectionIsExact(ours, theirs);
    var lo, hi := Max(ours.lo, theirs.lo), Min(ours.hi, theirs.hi);
    if lo <= hi {
      assert InRange(lo, ours) && InRange(lo, theirs) && InRange(hi, ours) && InRange(hi, theirs);
      var s := IntersectRange(ours, theirs);
      assert InRange(lo, s) && InRange(hi, s);
      assert InRange(s.lo, s) && InRange(s.hi, s);
    }
  }

  // ------------------------------------------------------------------
  // The templates
  // ------------------------------------------------------------------

  /** Off the internet both NATs count as open: the peer's mappings as they are, or two random ports. */
  lemma LocalSetup(mode: PunchMode, src: Nat, dest: Nat, recv: Option<seq<NATMapping>>, picks: nat -> nat)
    requires !mode.Remote?
    ensures var s := InitPredictions(mode, src, dest, recv, picks);
            && s.Some? && s.value.useRange == Range(2000, 65535)
            && s.value.src.kind == OpenInternet && s.value.src.delta == NaDelta
            && (recv.Some? ==> s.value.recv == recv.value)
            && (recv.None? ==> |s.value.recv| == 2 && forall m <- s.value.recv :: TemplateIn(m, s.value.useRange))
  {
    RangeToUse(OPEN_NAT.range, OPEN_NAT.range, if recv.Some? then |recv.value| else TEST_NO);
    TemplateFits(Range(2000, 65535), picks(0));
    TemplateFits(Range(2000, 65535), picks(1));
  }

  /** A port to aim at, with nothing known of the other two. */
  predicate TemplateIn(m: NATMapping, r: Range) {
    m.local == m.reply == 0 && r.lo <= m.remote <= r.hi
  }

  lemma TemplateFits(r: Range, pick: nat)
    requires r.lo <= r.hi
    ensures TemplateIn(Template(r, pick), r)
  {
  }

  predicate NoRange(src: Nat, dest: Nat, testNo: nat) {
    var shared := Shared(src.range, dest.range, testNo);
    && (src.range.lo <= 1024 && (shared ==> dest.range.lo <= 1024))
    && (src.range.hi <= 2000 || (shared && dest.range.hi <= 2000))
  }

  /** Across the internet: nothing to start from exactly when the NATs defeat each other or leave no range;
      otherwise the peer's mappings, or the STUN port if one NAT serves the other by it, or two random ports. */
  lemma RemoteSetup(src: Nat, dest: Nat, recv: Option<seq<NATMapping>>, picks: nat -> nat)
    requires src.range.lo <= src.range.hi && dest.range.lo <= dest.range.hi
    ensures var s := InitPredictions(Remote, src, dest, recv, picks);
            var testNo := if recv.Some? then |recv.value| else 2;
            && (s.None? <==> Defeats(src, dest) || Defeats(dest, src) || NoRange(src, dest, testNo))
            && (s.Some? ==>
                  && s.value.src.kind == src.kind && s.value.src.delta == src.delta && s.value.src.step == src.step
                  && (Some(s.value.useRange), s.value.src.range) == NatsIntersect(src.range, dest.range, testNo)
                  && (recv.Some? ==> s.value.recv == recv.value)
                  && (recv.None? && (Serves(src, dest) || Serves(dest, src)) ==>
                        s.value.recv == [NATMapping(0, 0, 3478)])
                  && (recv.None? && !Serves(src, dest) && !Serves(dest, src) ==>
                        |s.value.recv| == 2 && forall m <- s.value.recv :: TemplateIn(m, s.value.useRange)))
  {
    var testNo := if recv.Some? then |recv.value| else 2;
    MeetIff(src, dest);
    RangeToUse(src.range, dest.range, testNo);
    var (use, own) := NatsIntersect(src.range, dest.range, testNo);
    assert use.None? <==> NoRange(src, dest, testNo);
    if use.Some? && use.value.lo <= use.value.hi {
      TemplateFits(use.value, picks(0));
      TemplateFits(use.value, picks(1));
    }
  }

  /** Any two ports of the range can be the ones drawn. */
  lemma AnyTwoPorts(mode: PunchMode, src: Nat, dest: Nat, any: nat -> nat, p: int, q: int) returns (picks: nat -> nat)
    requires var s := InitPredictions(mode, src, dest, None, any);
             s.Some? && |s.value.recv| == 2 && InRange(p, s.value.useRange) && InRange(q, s.value.useRange)
    ensures var s := InitPredictions(mode, src, dest, None, picks);
            s.Some? && s.value.recv == [NATMapping(0, 0, p), NATMapping(0, 0, q)]
  {
    var r := InitPredictions(mode, src, dest, None, any).value.useRange;
    var first, second: nat := p - r.lo, q - r.lo;
    picks := (i: nat) => if i == 0 then first else second;
    assert Template(r, first) == NATMapping(0, 0, p) && Template(r, second) == NATMapping(0, 0, q);
  }

  // ------------------------------------------------------------------
  // All mappings
  // ------------------------------------------------------------------

  ghost predicate Answers(mode: PunchMode, s: Setup, preloaded: seq<NATMapping>, picks: nat -> nat, i: nat,
                          m: Option<NATMapping>)
    requires i < |s.recv| && |preloaded| > 0
  {
    m == GetSingleMapping(mode, s.recv[i], preloaded[|preloaded| - 1], s.useRange, s.src,
                          if i < |preloaded| then preloaded[i] else preloaded[0], picks(i))
  }

  /** The loop raises exactly when one of its mappings does. */
  lemma {:induction false} NoneExactlyWhenOneIs(mode: PunchMode, s: Setup, preloaded: seq<NATMapping>,
                                                picks: nat -> nat, n: nat)
    requires n <= |s.recv| && |preloaded| > 0
    ensures Predictions(mode, s.recv, preloaded, s.useRange, s.src, picks, n).None?
            <==> exists i :: 0 <= i < n && Answers(mode, s, preloaded, picks, i, None)
  {
    if n == 0 {
    } else {
      NoneExactlyWhenOneIs(mode, s, preloaded, picks, n - 1);
      var before := Predictions(mode, s.recv, preloaded, s.useRange, s.src, picks, n - 1);
      if before.Some? && Predictions(mode, s.recv, preloaded, s.useRange, s.src, picks, n).None? {
        assert Answers(mode, s, preloaded, picks, n - 1, None);
      }
    }
  }

  /** The whole prediction is one mapping for each wanted one, in order; it raises exactly without a
      starting point, without a mapping seen, or when one of them raises. */
  lemma PredictedIff(mode: PunchMode, src: Nat, dest: Nat, recv: Option<seq<NATMapping>>, preloaded: seq<NATMapping>,
                     templatePicks: nat -> nat, picks: nat -> nat)
    ensures var s := InitPredictions(mode, src, dest, recv, templatePicks);
            var r := Predicted(mode, src, dest, recv, preloaded, templatePicks, picks);
            && (r.None? <==> || s.None? || preloaded == []
                             || exists i :: 0 <= i < |s.value.recv|
                                            && Answers(mode, s.value, preloaded, picks, i, None))
            && (r.Some? ==>
                  && |r.value| == |s.value.recv|
                  && forall i :: 0 <= i < |r.value| ==> Answers(mode, s.value, preloaded, picks, i, Some(r.value[i])))
  {
    var start := InitPredictions(mode, src, dest, recv, templatePicks);
    var r := Predicted(mode, src, dest, recv, preloaded, templatePicks, picks);
    if start.Some? && preloaded != [] {
      var s := start.value;
      var n := |s.recv|;
      NoneExactlyWhenOneIs(mode, s, preloaded, picks, n);
      if r.Some? {
        AsMany(mode, s.recv, preloaded, s.useRange, s.src, picks, n);
        forall i | 0 <= i < n ensures Answers(mode, s, preloaded, picks, i, Some(r.value[i])) {
          EachPrediction(mode, s.recv, preloaded, s.useRange, s.src, picks, n, i);
        }
      }
    }
  }

  // ------------------------------------------------------------------
  // Patching
  // ------------------------------------------------------------------

  /** Punching ourselves, every local port moves up by a thousand, past the last port but one to the first,
      and is announced as it is; otherwise nothing changes. */
  lemma SelfPunchShifts(mode: PunchMode, ms: seq<NATMapping>, i: nat)
    requires i < |ms| && InRange(ms[i].local, PORTS)
    ensures var r := SelfPunched(mode, ms);
            if mode != Self then r == ms
            else
              && r[i].reply == ms[i].reply && r[i].remote == r[i].local != ms[i].local
              && (ms[i].local < 64535 ==> r[i].local == ms[i].local + 1000)
              && (ms[i].local == 64535 ==> r[i].local == 1)
              && (ms[i].local > 64535 ==> r[i].local == ms[i].local - 64535)
  {
  }

  /** Our NAT has to come from the reply port asked for, and can. */
  predicate MustComeFrom(mode: PunchMode, src: Nat, wanted: NATMapping) {
    && (mode == Lan || mode == Remote) && wanted.reply != 0
    && (src.delta == NaDelta || src.delta == EqualDelta || src.delta == PreservDelta)
  }

  lemma {:induction false} UpdatedEntry(c: ReplyContext, use: Range, i: nat, ms: seq<NATMapping>,
                                        wanted: seq<NATMapping>, j: nat)
    requires i <= j < |ms| && j < |wanted| && UpdatedFrom(c, use, i, ms, wanted).1
    ensures var m := UpdatedFrom(c, use, i, ms, wanted).0[j];
            if !MustComeFrom(c.mode, c.src, wanted[j]) then m == ms[j]
            else
              && m.remote == wanted[j].reply && m.reply == ms[j].reply && j < |c.preloaded|
              && var got := GetSingleMapping(c.mode, wanted[j], c.preloaded[|c.preloaded| - 1], use, c.src,
                                             c.preloaded[j], c.picks(j));
              got.Some? && m.local == got.value.local
    decreases |ms| - i
  {
    var m := ReplyUpdated(c, use, i, ms[i], wanted[i]);
    if i == j {
      UpdateKeepsEarlier(c, use, i + 1, ms[i := m.value], wanted, j);
    } else {
      UpdatedEntry(c, use, i + 1, ms[i := m.value], wanted, j);
    }
  }

  /** After a completed update an entry that has to come from a reply port is announced there and bound as a
      mapping for it would be, in the range to use and with our NAT's own range as raised by then; its own
      reply port and all other entries stand. */
  lemma ReplyPortsUpdated(c: ReplyContext, ms: seq<NATMapping>, wanted: seq<NATMapping>, j: nat)
    requires j < |ms| && j < |wanted| && ForReplyPorts(c, ms, wanted).1
    ensures var (use, own) := NatsIntersect(c.src.range, c.dest.range, Min(|ms|, |wanted|));
            var m := ForReplyPorts(c, ms, wanted).0[j];
            && use.Some?
            && if !MustComeFrom(c.mode, c.src, wanted[j]) then m == ms[j]
               else
                 && m.remote == wanted[j].reply && m.reply == ms[j].reply && j < |c.preloaded|
                 && var src := Nat(c.src.kind, c.src.delta, c.src.step, own);
                 var got := GetSingleMapping(c.mode, wanted[j], c.preloaded[|c.preloaded| - 1], use.value, src,
                                             c.preloaded[j], c.picks(j));
                 got.Some? && m.local == got.value.local
  {
    var (use, own) := NatsIntersect(c.src.range, c.dest.range, Min(|ms|, |wanted|));
    if use.Some? {
      UpdatedEntry(WithRange(c, own), use.value, 0, ms, wanted, j);
    }
  }
}
