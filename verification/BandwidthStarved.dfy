/**
 A coroutine that is cancelled keeps its share of the bandwidth: what that leaves for
 the others, over every continuation of a run.
 */
module BandwidthStarved {
  import opened BandwidthLimit
  import opened Bytes

  /** Cancelled coroutines hold the whole allowance. */
  predicate Starved(s: State) {
    Inv(s) && s.rateMs > 0 && Total(Leaked, s.tasks) == s.rateMs
  }

  lemma StarvedHoldsNothingElse(s: State, i: nat)
    requires Starved(s) && i < |s.tasks|
    ensures !s.tasks[i].phase.Sending?
    ensures s.tasks[i].phase.Sleeping? ==> s.tasks[i].phase.bw == 0
    ensures !(s.tasks[i].phase.Sent? && s.tasks[i].phase.bw > 0)
  {
    var t := s.tasks[i];
    assert TaskOk(s.rateMs, s.now, t);
    if Weight(Held, t) > Weight(Leaked, t) {
      var freed := t.(phase := Ready);
      TotalUpdate(Held, s.tasks, i, freed);
      TotalUpdate(Leaked, s.tasks, i, freed);
      TotalBounded(Leaked, Held, s.tasks[i := freed]);
      assert false;
    }
  }

  lemma StarvedStep(s: State, step: Step)
    requires Starved(s) && Enabled(s, step)
    ensures Starved(Apply(s, step)) && Apply(s, step).log == s.log
  {
    StepKeepsInv(s, step);
    match step {
      case Spawn(msg) =>
        TotalAppend(Leaked, s.tasks, Task(msg, |msg|, Ready, msg, [], 0));
      case Resume(i) =>
        StarvedHoldsNothingElse(s, i);
        TotalUpdate(Leaked, s.tasks, i, Resumed(s.rateMs, s.used, s.tasks[i], s.now).0);
      case Emit(i) =>
        StarvedHoldsNothingElse(s, i);
      case Lose(i) =>
        StarvedHoldsNothingElse(s, i);
      case Cancel(i) =>
        StarvedHoldsNothingElse(s, i);
        assert TaskOk(s.rateMs, s.now, s.tasks[i]);
        TotalUpdate(Leaked, s.tasks, i, Gone(s.tasks[i]));
      case Tick(_) =>
    }
  }

  /** Once cancelled coroutines hold the whole allowance no continuation sends anything again. */
  lemma {:induction false} StarvedForGood(rateMs: nat, steps: seq<Step>, more: seq<Step>)
    requires Replay(rateMs, steps).Reached? && Starved(Replay(rateMs, steps).s)
    requires steps <= more && Replay(rateMs, more).Reached?
    ensures Starved(Replay(rateMs, more).s) && Replay(rateMs, more).s.log == Replay(rateMs, steps).s.log
    decreases |more|
  {
    if |more| == |steps| {
      assert more == steps;
    } else {
      var before := more[..|more| - 1];
      StarvedForGood(rateMs, steps, before);
      StarvedStep(Replay(rateMs, before).s, more[|more| - 1]);
    }
  }

  /** It does happen: one coroutine cancelled in its first sleep holds everything there is. */
  lemma StarvedReachable(rateMs: nat)
    requires rateMs > 0
    ensures var steps := [Spawn(Zeros(rateMs)), Resume(0), Cancel(0)];
            Replay(rateMs, steps).Reached? && Starved(Replay(rateMs, steps).s)
  {
    var msg := Zeros(rateMs);
    Extend(rateMs, [], Spawn(msg));
    var steps1 := [] + [Spawn(msg)];
    Extend(rateMs, steps1, Resume(0));
    var steps2 := steps1 + [Resume(0)];
    Extend(rateMs, steps2, Cancel(0));
    var steps3 := steps2 + [Cancel(0)];
    UsedIsOutstanding(rateMs, steps3);
    var s := Replay(rateMs, steps3).s;
    assert s.tasks == [s.tasks[0]];
    assert Total(Leaked, s.tasks) == Weight(Leaked, s.tasks[0]) + Total(Leaked, []);
    assert steps3 == [Spawn(msg), Resume(0), Cancel(0)];
  }

  /** Some continuation puts further bytes on the wire. */
  ghost predicate CanSendMore(rateMs: nat, steps: seq<Step>)
    requires Replay(rateMs, steps).Reached?
  {
    exists more :: SendsMore(rateMs, steps, more)
  }

  predicate SendsMore(rateMs: nat, steps: seq<Step>, more: seq<Step>)
    requires Replay(rateMs, steps).Reached?
  {
    && steps <= more && Replay(rateMs, more).Reached?
    && LogBytes(Replay(rateMs, more).s.log) > LogBytes(Replay(rateMs, steps).s.log)
  }

  /** A coroutine about to send, or asleep with a grant, gets its bytes out. */
  lemma HolderSends(rateMs: nat, steps: seq<Step>, i: nat) returns (more: seq<Step>)
    requires rateMs > 0 && Replay(rateMs, steps).Reached? && i < |Replay(rateMs, steps).s.tasks|
    requires var t := Replay(rateMs, steps).s.tasks[i];
             t.phase.Sending? || (t.phase.Sleeping? && t.phase.bw > 0)
    ensures SendsMore(rateMs, steps, more)
  {
    UsedIsOutstanding(rateMs, steps);
    more := steps;
    var s := Replay(rateMs, steps).s;
    assert TaskOk(rateMs, s.now, s.tasks[i]);
    if s.tasks[i].phase.Sleeping? {
      Extend(rateMs, more, Tick(SLEEP_MS));
      more := more + [Tick(SLEEP_MS)];
      Extend(rateMs, more, Resume(i));
      more := more + [Resume(i)];
    }
    var u := Replay(rateMs, more).s;
    assert u.tasks[i].phase.Sending? && u.tasks[i].phase.bw > 0 && u.log == s.log;
    assert u.tasks[i].phase.bw <= |u.tasks[i].msg|;
    Extend(rateMs, more, Emit(i));
    more := more + [Emit(i)];
    var v := Replay(rateMs, more).s;
    assert v.log[..|v.log| - 1] == s.log;
  }

  /** A new coroutine with one byte to send gets a grant as soon as the counter is below the rate. */
  lemma NewcomerGranted(s: State)
    requires 0 <= s.used < s.rateMs
    ensures Enabled(s, Spawn([0]))
    ensures var t := Apply(s, Spawn([0])); var n := |s.tasks|;
            && Enabled(t, Resume(n))
            && var u := Apply(t, Resume(n));
            && u.log == s.log && n < |u.tasks| && u.tasks[n].phase.Sleeping? && u.tasks[n].phase.bw > 0
  {
  }

  /** When every byte of the counter is leaked, but not the whole rate, a new coroutine gets a grant. */
  lemma NewcomerSends(rateMs: nat, steps: seq<Step>) returns (more: seq<Step>)
    requires Replay(rateMs, steps).Reached? && Replay(rateMs, steps).s.used < rateMs
    ensures SendsMore(rateMs, steps, more)
  {
    UsedIsOutstanding(rateMs, steps);
    NewcomerGranted(Replay(rateMs, steps).s);
    var n := |Replay(rateMs, steps).s.tasks|;
    Extend(rateMs, steps, Spawn([0]));
    var steps1 := steps + [Spawn([0])];
    Extend(rateMs, steps1, Resume(n));
    var steps2 := steps1 + [Resume(n)];
    more := HolderSends(rateMs, steps2, n);
  }

  /** A coroutine back from its send gives its grant back, and takes a new one or is done. */
  lemma ReturnFrees(rateMs: nat, steps: seq<Step>, i: nat)
    requires rateMs > 0 && Replay(rateMs, steps).Reached? && i < |Replay(rateMs, steps).s.tasks|
    requires Replay(rateMs, steps).s.tasks[i].phase.Sent? && Replay(rateMs, steps).s.tasks[i].phase.bw > 0
    ensures var s := Replay(rateMs, steps).s;
            && Enabled(s, Resume(i))
            && var u := Apply(s, Resume(i));
            && u.log == s.log && Total(Leaked, u.tasks) == Total(Leaked, s.tasks)
            && ((u.tasks[i].phase.Sleeping? && u.tasks[i].phase.bw > 0) || u.used < s.used)
  {
    UsedIsOutstanding(rateMs, steps);
    var s := Replay(rateMs, steps).s;
    assert TaskOk(rateMs, s.now, s.tasks[i]);
    TotalUpdate(Leaked, s.tasks, i, Resumed(rateMs, s.used, s.tasks[i], s.now).0);
  }

  /** While cancelled coroutines hold less than the rate, something can still be sent. */
  lemma {:induction false} SomebodySends(rateMs: nat, steps: seq<Step>) returns (more: seq<Step>)
    requires Replay(rateMs, steps).Reached? && Total(Leaked, Replay(rateMs, steps).s.tasks) < rateMs
    ensures SendsMore(rateMs, steps, more)
    decreases Replay(rateMs, steps).s.used + 1
  {
    UsedIsOutstanding(rateMs, steps);
    var s := Replay(rateMs, steps).s;
    if i :| 0 <= i < |s.tasks|
            && (s.tasks[i].phase.Sending? || (s.tasks[i].phase.Sleeping? && s.tasks[i].phase.bw > 0)) {
      more := HolderSends(rateMs, steps, i);
    } else if i :| 0 <= i < |s.tasks| && s.tasks[i].phase.Sent? && s.tasks[i].phase.bw > 0 {
      ReturnFrees(rateMs, steps, i);
      Extend(rateMs, steps, Resume(i));
      var steps1 := steps + [Resume(i)];
      UsedIsOutstanding(rateMs, steps1);
      var u := Replay(rateMs, steps1).s;
      if u.tasks[i].phase.Sleeping? && u.tasks[i].phase.bw > 0 {
        more := HolderSends(rateMs, steps1, i);
      } else {
        more := SomebodySends(rateMs, steps1);
      }
    } else {
      TotalBounded(Held, Leaked, s.tasks);
      more := NewcomerSends(rateMs, steps);
    }
  }

  /** Exactly when a reachable limiter can still send: cancelled coroutines hold less than the whole rate. */
  lemma CanSendMoreIff(rateMs: nat, steps: seq<Step>)
    requires rateMs > 0 && Replay(rateMs, steps).Reached?
    ensures CanSendMore(rateMs, steps) <==> Total(Leaked, Replay(rateMs, steps).s.tasks) < rateMs
  {
    UsedIsOutstanding(rateMs, steps);
    var s := Replay(rateMs, steps).s;
    TotalBounded(Leaked, Held, s.tasks);
    if Total(Leaked, s.tasks) < rateMs {
      var more := SomebodySends(rateMs, steps);
    } else {
      forall more | SendsMore(rateMs, steps, more) ensures false {
        StarvedForGood(rateMs, steps, more);
      }
    }
  }
}
