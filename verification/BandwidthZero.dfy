/**
 Rate zero is documented as no limit, but nothing gets through: which messages the
 limiter can deliver at all.
 */
module BandwidthZero {
  import opened BandwidthLimit
  import opened Bytes

  predicate Silent(s: State) {
    forall i :: 0 <= i < |s.tasks| ==> s.tasks[i].out == []
  }

  lemma ZeroRateStep(s: State, step: Step)
    requires Inv(s) && s.rateMs == 0 && Silent(s) && Enabled(s, step)
    ensures Silent(Apply(s, step))
  {
    match step {
      case Resume(i) =>
        assert TaskOk(0, s.now, s.tasks[i]);
        ResumedOk(0, s.used, s.tasks[i], s.now) by {
          TotalAtLeast(Held, s.tasks, i);
        }
      case Emit(i) =>
        assert TaskOk(0, s.now, s.tasks[i]);
        EmittedOk(0, s.tasks[i], s.now);
      case _ =>
    }
  }

  /** With rate_ms 0 no byte of any message is ever sent and only empty messages finish. */
  lemma {:induction false} ZeroRateSendsNothing(steps: seq<Step>)
    requires Replay(0, steps).Reached?
    ensures var s := Replay(0, steps).s;
            Silent(s) && forall t <- s.tasks :: t.phase.Done? ==> t.whole == []
    decreases |steps|
  {
    UsedIsOutstanding(0, steps);
    var s := Replay(0, steps).s;
    if |steps| == 0 {
    } else {
      var before := steps[..|steps| - 1];
      ZeroRateSendsNothing(before);
      UsedIsOutstanding(0, before);
      ZeroRateStep(Replay(0, before).s, steps[|steps| - 1]);
    }
    forall t <- s.tasks | t.phase.Done? ensures t.whole == [] {
      assert TaskOk(0, s.now, t);
      assert t.out + t.msg == [];
    }
  }

  lemma TaskSpins(t: Task, now: real, used: int)
    requires TaskOk(0, now, t) && CanResume(t, now) && t.whole != []
    ensures Resumed(0, used, t, now) == (t.(phase := Sending(0, now)), used)
  {
    if t.phase.Sent? {
      assert t.msg[0..] == t.msg;
    }
  }

  /** In any run at rate zero, resuming a coroutine with a message leads straight to a send of nothing: no
      sleep, no byte less to send. */
  lemma ZeroRateSpins(steps: seq<Step>, i: nat)
    requires Replay(0, steps).Reached? && Enabled(Replay(0, steps).s, Resume(i))
    requires Replay(0, steps).s.tasks[i].whole != []
    ensures var s := Replay(0, steps).s;
            Apply(s, Resume(i)) == s.(tasks := s.tasks[i := s.tasks[i].(phase := Sending(0, s.now))])
  {
    UsedIsOutstanding(0, steps);
    var s := Replay(0, steps).s;
    assert TaskOk(0, s.now, s.tasks[i]);
    TaskSpins(s.tasks[i], s.now, s.used);
  }

  /** Some schedule in which a lone coroutine carries `msg` to the end. */
  ghost predicate Deliverable(rateMs: nat, msg: Buf) {
    exists steps: seq<Step> ::
      && Replay(rateMs, steps).Reached?
      && Finished(Replay(rateMs, steps).s, msg)
  }

  predicate Finished(s: State, msg: Buf) {
    exists t <- s.tasks :: t.whole == t.out == msg && t.phase.Done?
  }

  /** A lone coroutine asleep with a grant. */
  predicate Alone(s: State, msg: Buf) {
    && Inv(s) && s.rateMs > 0
    && |s.tasks| == 1 && s.tasks[0].whole == msg
    && s.tasks[0].phase.Sleeping? && s.tasks[0].phase.bw > 0 && s.tasks[0].lost == 0
  }

  /** Wake, send, return: the message gets shorter, or it is finished. */
  lemma OneRound(rateMs: nat, steps: seq<Step>, msg: Buf) returns (steps': seq<Step>)
    requires Replay(rateMs, steps).Reached? && Alone(Replay(rateMs, steps).s, msg)
    ensures Replay(rateMs, steps').Reached?
    ensures var s, s' := Replay(rateMs, steps).s, Replay(rateMs, steps').s;
            Finished(s', msg) || (Alone(s', msg) && |s'.tasks[0].msg| < |s.tasks[0].msg|)
  {
    var s := Replay(rateMs, steps).s;
    var t := s.tasks[0];
    assert TaskOk(s.rateMs, s.now, t);
    Extend(rateMs, steps, Tick(SLEEP_MS));
    var s1 := Apply(s, Tick(SLEEP_MS));
    var steps1 := steps + [Tick(SLEEP_MS)];
    Extend(rateMs, steps1, Resume(0));
    var s2 := Apply(s1, Resume(0));
    var steps2 := steps1 + [Resume(0)];
    Extend(rateMs, steps2, Emit(0));
    var s3 := Apply(s2, Emit(0));
    var steps3 := steps2 + [Emit(0)];
    Extend(rateMs, steps3, Resume(0));
    steps' := steps3 + [Resume(0)];
    UsedIsOutstanding(rateMs, steps');
    UsedIsOutstanding(rateMs, steps3);
    var s4 := Apply(s3, Resume(0));
    assert s4.tasks[0].msg == t.msg[t.phase.bw..];
    assert s3.used == Weight(Held, s3.tasks[0]) by {
      assert s3.tasks == [s3.tasks[0]];
      assert Total(Held, s3.tasks) == Weight(Held, s3.tasks[0]) + Total(Held, []);
    }
    if s4.tasks[0].phase.Done? {
      assert s4.tasks[0] in s4.tasks;
    }
  }

  lemma {:induction false} Delivers(rateMs: nat, steps: seq<Step>, msg: Buf)
    requires Replay(rateMs, steps).Reached? && Alone(Replay(rateMs, steps).s, msg)
    ensures Deliverable(rateMs, msg)
    decreases |Replay(rateMs, steps).s.tasks[0].msg|
  {
    var steps' := OneRound(rateMs, steps, msg);
    if Finished(Replay(rateMs, steps').s, msg) {
    } else {
      Delivers(rateMs, steps', msg);
    }
  }

  /** Exactly when a message can get through at all: a non-zero allowance, or nothing to send. */
  lemma DeliverableIffPositiveRate(rateMs: nat, msg: Buf)
    ensures Deliverable(rateMs, msg) <==> rateMs > 0 || msg == []
  {
    if rateMs == 0 {
      forall steps: seq<Step> | Replay(0, steps).Reached? && Finished(Replay(0, steps).s, msg)
        ensures msg == []
      {
        ZeroRateSendsNothing(steps);
      }
    }
    if rateMs > 0 || msg == [] {
      Extend(rateMs, [], Spawn(msg));
      var s1 := Apply(Start(rateMs), Spawn(msg));
      Extend(rateMs, [Spawn(msg)], Resume(0));
      var steps2 := [Spawn(msg)] + [Resume(0)];
      UsedIsOutstanding(rateMs, steps2);
      var s2 := Replay(rateMs, steps2).s;
      if msg == [] {
        assert s2.tasks[0] in s2.tasks;
      } else {
        Delivers(rateMs, steps2, msg);
      }
    }
  }
}
