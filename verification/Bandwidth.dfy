/**
 The bandwidth limiter of the toxic proxy.  Any number of `run` coroutines share
 one counter `used`; asyncio switches between them only where they await, so a
 run of the system is a sequence of the atomic sections below, of sends going out
 or being lost, of cancellations, and of time passing.  A sleep of 0.1 s lasts at
 least 100 ms.  The pipe's send catches its own errors and returns 0; what an await
 can still raise is the cancellation of its task.
 */
module BandwidthLimit {
  import opened Bytes

  /** Where a `run` coroutine is suspended. */
  datatype Phase =
    | Ready                            // created, not yet entered
    | Sleeping(bw: int, since: real)   // in the sleep of get_bandwidth, holding what it was granted
    | Sending(bw: int, since: real)    // awaiting dest_pipe.send, nothing out yet
    | Sent(bw: int)                    // the bytes are out or lost, send has not returned
    | Cancelled(bw: int)               // an await raised: the coroutine is gone, its grant is not returned
    | Done

  /** A coroutine's locals, the message it was given, the bytes it has sent and the number of its sends
      that were lost. */
  datatype Task = Task(msg: Buf, unsent: int, phase: Phase, whole: Buf, out: Buf, lost: nat)

  datatype Emission = Emission(at: real, size: nat)

  datatype State = State(rateMs: nat, used: int, now: real, tasks: seq<Task>, log: seq<Emission>)

  datatype Step = Spawn(msg: Buf) | Resume(i: nat) | Emit(i: nat) | Lose(i: nat) | Cancel(i: nat) | Tick(dt: real)

  const SLEEP_MS := 100.0

  /** Bytes per 100 ms for a rate in KB/s. */
  function RateMs(rate: nat): nat {
    rate * 1024 / 10
  }

  function Start(rateMs: nat): State {
    State(rateMs, 0, 0.0, [], [])
  }

  // ------------------------------------------------------------------
  // One atomic section of a coroutine, as a function of its locals and `used`
  // ------------------------------------------------------------------

  /** The body of get_bandwidth's loop up to its sleep: the allocation and the new counter. */
  function Grant(rateMs: nat, used: int, n: int): (int, int) {
    var bw := rateMs - used;
    if bw > 0 then (Min(n, bw), used + Min(n, bw)) else (bw, used)
  }

  /** The head of run's loop: ask for bandwidth, or finish. */
  function AtLoopHead(rateMs: nat, used: int, t: Task, now: real): (Task, int) {
    if t.unsent <= 0 then (t.(phase := Done), used)
    else if rateMs == 0 then (t.(phase := Sending(0, now)), used)
    else
      var (bw, used') := Grant(rateMs, used, t.unsent);
      (t.(phase := Sleeping(bw, now)), used')
  }

  predicate CanResume(t: Task, now: real) {
    match t.phase
    case Ready => true
    case Sleeping(_, since) => now >= since + SLEEP_MS
    case Sent(_) => true
    case _ => false
  }

  /** What a coroutine does from one await to the next. */
  function Resumed(rateMs: nat, used: int, t: Task, now: real): (Task, int)
    requires CanResume(t, now)
  {
    match t.phase
    case Ready => AtLoopHead(rateMs, used, t, now)
    case Sleeping(bw, since) =>
      if bw <= 0 && rateMs != 0 then
        var (bw', used') := Grant(rateMs, used, t.unsent);
        (t.(phase := Sleeping(bw', now)), used')
      else
        (t.(phase := Sending(bw, since)), used)
    case Sent(bw) =>
      AtLoopHead(rateMs, used - bw, t.(msg := SliceFrom(t.msg, bw), unsent := t.unsent - bw), now)
  }

  /** The send puts msg[:bw] on the wire. */
  function Emitted(t: Task): Task
    requires t.phase.Sending?
  {
    t.(phase := Sent(t.phase.bw), out := t.out + SliceTo(t.msg, t.phase.bw))
  }

  /** The send returns 0 with nothing sent; run does not look at that. */
  function Dropped(t: Task): Task
    requires t.phase.Sending?
  {
    t.(phase := Sent(t.phase.bw), lost := t.lost + 1)
  }

  predicate CanCancel(t: Task) {
    !t.phase.Done? && !t.phase.Cancelled?
  }

  function Gone(t: Task): Task
    requires CanCancel(t)
  {
    t.(phase := Cancelled(if t.phase.Ready? then 0 else t.phase.bw))
  }

  // ------------------------------------------------------------------
  // The code itself: the shared toxic and a coroutine's frame
  // ------------------------------------------------------------------

  class ToxicBandwidthLimit {
    const rateMs: nat
    var used: int

    constructor (rate: nat)
      ensures used == 0 && rateMs == RateMs(rate)
      ensures 10 * rateMs <= 1024 * rate < 10 * (rateMs + 1)
    {
      used := 0;
      rateMs := rate * 1024 / 10;
    }

    /** While bytes are free, as many as are wanted and free, recorded at once; otherwise nothing changes. */
    method Allocate(n: int) returns (bw: int)
      modifies this
      ensures (bw, used) == Grant(rateMs, old(used), n)
      ensures old(used) < rateMs ==> bw <= n && bw <= rateMs - old(used) && (bw == n || bw == rateMs - old(used))
      ensures old(used) < rateMs ==> used == old(used) + bw
      ensures old(used) >= rateMs ==> bw <= 0 && used == old(used)
    {
      bw := rateMs - used;
      if bw > 0 {
        bw := Min(n, bw);
        used := used + bw;
      }
    }
  }

  class Coroutine {
    const toxic: ToxicBandwidthLimit
    var msg: Buf
    var unsent: int
    var phase: Phase
    ghost const whole: Buf
    ghost var out: Buf
    ghost var lost: nat

    ghost function Frame(): Task
      reads this
    {
      Task(msg, unsent, phase, whole, out, lost)
    }

    constructor (toxic: ToxicBandwidthLimit, msg: Buf)
      ensures this.toxic == toxic && Frame() == Task(msg, |msg|, Ready, msg, [], 0)
    {
      this.toxic := toxic;
      this.msg := msg;
      this.unsent := |msg|;
      this.phase := Ready;
      this.whole := msg;
      this.out := [];
      this.lost := 0;
    }

    /** Runs the coroutine until its next await. */
    method Continue(now: real)
      requires CanResume(Frame(), now)
      modifies this, toxic
      ensures (Frame(), toxic.used) == Resumed(toxic.rateMs, old(toxic.used), old(Frame()), now)
    {
      match phase {
        case Sleeping(bw, since) =>
          if bw > 0 || toxic.rateMs == 0 {
            phase := Sending(bw, since);
            return;
          }
        case Sent(bw) =>
          msg := SliceFrom(msg, bw);
          unsent := unsent - bw;
          toxic.used := toxic.used - bw;
        case Ready =>
      }
      if !phase.Sleeping? {
        if unsent <= 0 {
          phase := Done;
          return;
        }
        if toxic.rateMs == 0 {
          phase := Sending(0, now);
          return;
        }
      }
      var bw := toxic.Allocate(unsent);
      phase := Sleeping(bw, now);
    }

    /** The bytes of the current send reach the destination pipe. */
    method Deliver() returns (chunk: Buf)
      requires phase.Sending?
      modifies this
      ensures Frame() == Emitted(old(Frame()))
      ensures chunk == SliceTo(msg, old(phase).bw)
    {
      chunk := SliceTo(msg, phase.bw);
      out := out + chunk;
      phase := Sent(phase.bw);
    }

    /** The current send fails inside the pipe and returns 0. */
    method Drop()
      requires phase.Sending?
      modifies this
      ensures Frame() == Dropped(old(Frame()))
    {
      lost := lost + 1;
      phase := Sent(phase.bw);
    }
  }

  // ------------------------------------------------------------------
  // The system of all coroutines
  // ------------------------------------------------------------------

  predicate Enabled(s: State, step: Step) {
    match step
    case Spawn(_) => true
    case Resume(i) => i < |s.tasks| && CanResume(s.tasks[i], s.now)
    case Emit(i) => i < |s.tasks| && s.tasks[i].phase.Sending?
    case Lose(i) => i < |s.tasks| && s.tasks[i].phase.Sending?
    case Cancel(i) => i < |s.tasks| && CanCancel(s.tasks[i])
    case Tick(dt) => dt >= 0.0
  }

  function Apply(s: State, step: Step): State
    requires Enabled(s, step)
  {
    match step
    case Spawn(msg) => s.(tasks := s.tasks + [Task(msg, |msg|, Ready, msg, [], 0)])
    case Resume(i) =>
      var (t, used) := Resumed(s.rateMs, s.used, s.tasks[i], s.now);
      s.(tasks := s.tasks[i := t], used := used)
    case Emit(i) =>
      var t := s.tasks[i];
      s.(tasks := s.tasks[i := Emitted(t)],
         log := s.log + [Emission(s.now, |SliceTo(t.msg, t.phase.bw)|)])
    case Lose(i) => s.(tasks := s.tasks[i := Dropped(s.tasks[i])])
    case Cancel(i) => s.(tasks := s.tasks[i := Gone(s.tasks[i])])
    case Tick(dt) => s.(now := s.now + dt)
  }

  datatype Outcome = Reached(s: State) | Impossible

  /** Where a schedule leads, when every step of it is enabled in turn. */
  function Replay(rateMs: nat, steps: seq<Step>): Outcome {
    if |steps| == 0 then Reached(Start(rateMs))
    else
      match Replay(rateMs, steps[..|steps| - 1])
      case Impossible => Impossible
      case Reached(s) =>
        var step := steps[|steps| - 1];
        if Enabled(s, step) then Reached(Apply(s, step)) else Impossible
  }

  lemma Extend(rateMs: nat, steps: seq<Step>, step: Step)
    requires Replay(rateMs, steps).Reached? && Enabled(Replay(rateMs, steps).s, step)
    ensures Replay(rateMs, steps + [step]) == Reached(Apply(Replay(rateMs, steps).s, step))
  {
    assert (steps + [step])[..|steps|] == steps;
  }

  // ------------------------------------------------------------------
  // Measures over all coroutines
  // ------------------------------------------------------------------

  datatype Measure =
    | Held                  // bytes of `used` a coroutine answers for
    | Leaked                // the part of them that will never be returned
    | Pending(before: real) // granted before that moment and not yet sent
    | Output                // bytes sent so far

  function Weight(m: Measure, t: Task): nat {
    match m
    case Held => (
      match t.phase
      case Sleeping(bw, _) => if bw > 0 then bw else 0
      case Sending(bw, _) => if bw > 0 then bw else 0
      case Sent(bw) => if bw > 0 then bw else 0
      case Cancelled(bw) => if bw > 0 then bw else 0
      case _ => 0)
    case Leaked => if t.phase.Cancelled? && t.phase.bw > 0 then t.phase.bw else 0
    case Pending(before) =>
      if (t.phase.Sleeping? || t.phase.Sending?) && t.phase.bw > 0 && t.phase.since < before
      then t.phase.bw else 0
    case Output => |t.out|
  }

  function Total(m: Measure, ts: seq<Task>): nat {
    if |ts| == 0 then 0 else Weight(m, ts[0]) + Total(m, ts[1..])
  }

  lemma {:induction false} TotalAppend(m: Measure, ts: seq<Task>, t: Task)
    ensures Total(m, ts + [t]) == Total(m, ts) + Weight(m, t)
  {
    if |ts| == 0 {
      assert ts + [t] == [t];
    } else {
      TotalAppend(m, ts[1..], t);
      assert (ts + [t])[1..] == ts[1..] + [t];
    }
  }

  lemma {:induction false} TotalUpdate(m: Measure, ts: seq<Task>, i: nat, t: Task)
    requires i < |ts|
    ensures Total(m, ts[i := t]) + Weight(m, ts[i]) == Total(m, ts) + Weight(m, t)
  {
    if i > 0 {
      TotalUpdate(m, ts[1..], i - 1, t);
      assert ts[i := t][1..] == ts[1..][i - 1 := t];
    } else {
      assert ts[i := t][1..] == ts[1..];
    }
  }

  lemma {:induction false} TotalAtLeast(m: Measure, ts: seq<Task>, i: nat)
    requires i < |ts|
    ensures Weight(m, ts[i]) <= Total(m, ts)
  {
    if i == 0 {
    } else {
      TotalAtLeast(m, ts[1..], i - 1);
    }
  }

  lemma {:induction false} TotalBounded(m: Measure, n: Measure, ts: seq<Task>)
    requires forall t <- ts :: Weight(m, t) <= Weight(n, t)
    ensures Total(m, ts) <= Total(n, ts)
  {
    if |ts| == 0 {
    } else {
      TotalBounded(m, n, ts[1..]);
    }
  }

  // ------------------------------------------------------------------
  // `used` is exactly what is outstanding
  // ------------------------------------------------------------------

  /** What is left of the message beyond the current send. */
  function Rest(t: Task): Buf
    requires t.phase.Sent? ==> 0 <= t.phase.bw <= |t.msg|
  {
    if t.phase.Sent? then t.msg[t.phase.bw..] else t.msg
  }

  /** A coroutine's own bookkeeping: nothing reordered or granted beyond need, and nothing missing but
      what lost sends held. */
  predicate TaskOk(rateMs: nat, now: real, t: Task) {
    && t.unsent == |t.msg|
    && (match t.phase
        case Ready => t.msg == t.whole && t.out == [] && t.lost == 0
        case Sleeping(bw, since) => 0 <= bw <= t.unsent && 0 < t.unsent && rateMs > 0 && since <= now
        case Sending(bw, since) =>
          && 0 <= bw <= t.unsent && 0 < t.unsent
          && (rateMs > 0 ==> bw > 0 && since + SLEEP_MS <= now)
          && (rateMs == 0 ==> bw == 0)
        case Sent(bw) => 0 <= bw <= t.unsent && 0 < t.unsent && (if rateMs > 0 then bw > 0 else bw == 0)
        case Cancelled(bw) => 0 <= bw <= t.unsent
        case Done => t.msg == [] && (rateMs == 0 ==> t.lost == 0))
    && (t.lost == 0 ==> t.out <= t.whole && (!t.phase.Cancelled? ==> t.out + Rest(t) == t.whole))
    && (rateMs > 0 ==> |t.out| + t.lost <= |t.whole|)
    && (rateMs > 0 && !t.phase.Cancelled? ==> |t.out| + |Rest(t)| + t.lost <= |t.whole|)
  }

  predicate Inv(s: State) {
    && s.used == Total(Held, s.tasks)
    && 0 <= s.used <= s.rateMs
    && forall t <- s.tasks :: TaskOk(s.rateMs, s.now, t)
  }

  lemma ResumedOk(rateMs: nat, used: int, t: Task, now: real)
    requires TaskOk(rateMs, now, t) && CanResume(t, now)
    requires Weight(Held, t) <= used <= rateMs
    ensures var (t', used') := Resumed(rateMs, used, t, now);
            && TaskOk(rateMs, now, t')
            && used' - used == Weight(Held, t') - Weight(Held, t)
            && 0 <= used' <= rateMs
            && t'.out == t.out && t'.whole == t.whole && t'.lost == t.lost
  {
    if t.phase.Sent? {
      assert t.msg[t.phase.bw..] == SliceFrom(t.msg, t.phase.bw);
    }
  }

  lemma EmittedOk(rateMs: nat, t: Task, now: real)
    requires TaskOk(rateMs, now, t) && t.phase.Sending?
    ensures TaskOk(rateMs, now, Emitted(t))
    ensures Weight(Held, Emitted(t)) == Weight(Held, t)
    ensures |Emitted(t).out| == |t.out| + t.phase.bw
  {
    var bw := t.phase.bw;
    assert t.msg == t.msg[..bw] + t.msg[bw..];
    assert (t.out + t.msg[..bw]) + t.msg[bw..] == t.out + t.msg;
  }

  lemma DroppedOk(rateMs: nat, t: Task, now: real)
    requires TaskOk(rateMs, now, t) && t.phase.Sending?
    ensures TaskOk(rateMs, now, Dropped(t)) && Weight(Held, Dropped(t)) == Weight(Held, t)
  {
  }

  lemma GoneOk(rateMs: nat, t: Task, now: real)
    requires TaskOk(rateMs, now, t) && CanCancel(t)
    ensures TaskOk(rateMs, now, Gone(t)) && Weight(Held, Gone(t)) == Weight(Held, t)
  {
  }

  lemma StepKeepsInv(s: State, step: Step)
    requires Inv(s) && Enabled(s, step)
    ensures Inv(Apply(s, step))
  {
    match step {
      case Spawn(msg) =>
        TotalAppend(Held, s.tasks, Task(msg, |msg|, Ready, msg, [], 0));
      case Resume(i) =>
        TotalAtLeast(Held, s.tasks, i);
        ResumedOk(s.rateMs, s.used, s.tasks[i], s.now);
        TotalUpdate(Held, s.tasks, i, Resumed(s.rateMs, s.used, s.tasks[i], s.now).0);
      case Emit(i) =>
        EmittedOk(s.rateMs, s.tasks[i], s.now);
        TotalUpdate(Held, s.tasks, i, Emitted(s.tasks[i]));
      case Lose(i) =>
        DroppedOk(s.rateMs, s.tasks[i], s.now);
        TotalUpdate(Held, s.tasks, i, Dropped(s.tasks[i]));
      case Cancel(i) =>
        GoneOk(s.rateMs, s.tasks[i], s.now);
        TotalUpdate(Held, s.tasks, i, Gone(s.tasks[i]));
      case Tick(_) =>
    }
  }

  /** In every interleaving `used` is the sum of the outstanding grants and stays in 0..rate_ms, and each
      coroutine's bookkeeping is in order. */
  lemma {:induction false} UsedIsOutstanding(rateMs: nat, steps: seq<Step>)
    requires Replay(rateMs, steps).Reached?
    ensures var s := Replay(rateMs, steps).s;
            s.rateMs == rateMs && Inv(s)
    decreases |steps|
  {
    if |steps| == 0 {
    } else {
      UsedIsOutstanding(rateMs, steps[..|steps| - 1]);
      StepKeepsInv(Replay(rateMs, steps[..|steps| - 1]).s, steps[|steps| - 1]);
    }
  }

  /** Whatever the schedule, a coroutine that finished has sent exactly its message's bytes, in order, if
      and only if none of its sends was lost. */
  lemma DoneMeansDelivered(rateMs: nat, steps: seq<Step>, i: nat)
    requires Replay(rateMs, steps).Reached?
    requires i < |Replay(rateMs, steps).s.tasks|
    ensures var t := Replay(rateMs, steps).s.tasks[i];
            && (t.lost == 0 ==> t.out <= t.whole)
            && (t.phase.Done? ==> (t.out == t.whole <==> t.lost == 0))
  {
    UsedIsOutstanding(rateMs, steps);
    var t := Replay(rateMs, steps).s.tasks[i];
    assert TaskOk(rateMs, Replay(rateMs, steps).s.now, t);
    assert t.phase.Done? ==> t.out + t.msg == t.out;
  }

  /** run does not notice a lost send: it finishes all the same. */
  lemma FinishedWithoutSending(rateMs: nat)
    requires rateMs > 0
    ensures var steps := [Spawn([0]), Resume(0), Tick(SLEEP_MS), Resume(0), Lose(0), Resume(0)];
            && Replay(rateMs, steps).Reached?
            && Replay(rateMs, steps).s.tasks == [Task([], 0, Done, [0], [], 1)]
  {
    Extend(rateMs, [], Spawn([0]));
    var steps1 := [] + [Spawn([0])];
    Extend(rateMs, steps1, Resume(0));
    var steps2 := steps1 + [Resume(0)];
    Extend(rateMs, steps2, Tick(SLEEP_MS));
    var steps3 := steps2 + [Tick(SLEEP_MS)];
    Extend(rateMs, steps3, Resume(0));
    var steps4 := steps3 + [Resume(0)];
    Extend(rateMs, steps4, Lose(0));
    var steps5 := steps4 + [Lose(0)];
    Extend(rateMs, steps5, Resume(0));
    var s := Replay(rateMs, steps5).s;
    assert s.tasks == [Task([0], 1, Sent(1), [0], [], 1)];
    assert SliceFrom(s.tasks[0].msg, 1) == [];
    assert Apply(s, Resume(0)).tasks == [Task([], 0, Done, [0], [], 1)];
    assert steps5 + [Resume(0)] == [Spawn([0]), Resume(0), Tick(SLEEP_MS), Resume(0), Lose(0), Resume(0)];
  }

  // ------------------------------------------------------------------
  // The rate bound
  // ------------------------------------------------------------------

  /** Bytes sent in the half-open window [lo, hi). */
  function SentIn(log: seq<Emission>, lo: real, hi: real): nat {
    if |log| == 0 then 0
    else
      var e := log[|log| - 1];
      SentIn(log[..|log| - 1], lo, hi) + (if lo <= e.at < hi then e.size else 0)
  }

  lemma SentInAppend(log: seq<Emission>, e: Emission, lo: real, hi: real)
    ensures SentIn(log + [e], lo, hi) == SentIn(log, lo, hi) + (if lo <= e.at < hi then e.size else 0)
  {
    assert (log + [e])[..|log|] == log;
  }

  lemma {:induction false} NothingSentLater(log: seq<Emission>, lo: real, hi: real)
    requires forall e <- log :: e.at < lo
    ensures SentIn(log, lo, hi) == 0
  {
    if |log| == 0 {
    } else {
      NothingSentLater(log[..|log| - 1], lo, hi);
    }
  }

  /** Bytes already sent in the window opening at `lo` and grants older than `lo` still to be sent. */
  function Charged(s: State, lo: real): nat {
    SentIn(s.log, lo, lo + SLEEP_MS) + Total(Pending(lo), s.tasks)
  }

  predicate LogInPast(s: State) {
    forall e <- s.log :: e.at <= s.now
  }

  /** A send moves its bytes from pending to sent. */
  lemma EmitChargesNoMore(s: State, i: nat, lo: real)
    requires Inv(s) && s.rateMs > 0 && Enabled(s, Emit(i)) && lo <= s.now
    ensures Charged(Apply(s, Emit(i)), lo) <= Charged(s, lo)
  {
    var t := s.tasks[i];
    assert TaskOk(s.rateMs, s.now, t);
    EmittedOk(s.rateMs, t, s.now);
    TotalUpdate(Pending(lo), s.tasks, i, Emitted(t));
    SentInAppend(s.log, Emission(s.now, |SliceTo(t.msg, t.phase.bw)|), lo, lo + SLEEP_MS);
  }

  lemma ResumeChargesNoMore(s: State, i: nat, lo: real)
    requires Inv(s) && s.rateMs > 0 && Enabled(s, Resume(i)) && lo <= s.now
    ensures Charged(Apply(s, Resume(i)), lo) <= Charged(s, lo)
  {
    assert TaskOk(s.rateMs, s.now, s.tasks[i]);
    TotalUpdate(Pending(lo), s.tasks, i, Resumed(s.rateMs, s.used, s.tasks[i], s.now).0);
  }

  /** A window that has already opened is charged no more by any step: a grant made inside it
      sleeps past its end, and one made before it only moves from pending to sent. */
  lemma StepChargesNoMore(s: State, step: Step, lo: real)
    requires Inv(s) && s.rateMs > 0 && Enabled(s, step) && lo <= s.now
    ensures Charged(Apply(s, step), lo) <= Charged(s, lo)
  {
    match step {
      case Spawn(msg) =>
        TotalAppend(Pending(lo), s.tasks, Task(msg, |msg|, Ready, msg, [], 0));
      case Resume(i) =>
        ResumeChargesNoMore(s, i, lo);
      case Emit(i) =>
        EmitChargesNoMore(s, i, lo);
      case Lose(i) =>
        TotalUpdate(Pending(lo), s.tasks, i, Dropped(s.tasks[i]));
      case Cancel(i) =>
        TotalUpdate(Pending(lo), s.tasks, i, Gone(s.tasks[i]));
      case Tick(_) =>
    }
  }

  /** At the moment a window opens everything pending is part of `used`. */
  lemma OpeningCharge(s: State, lo: real)
    requires Inv(s) && LogInPast(s) && s.now < lo
    ensures Charged(s, lo) <= s.rateMs
  {
    NothingSentLater(s.log, lo, lo + SLEEP_MS);
    TotalBounded(Pending(lo), Held, s.tasks);
  }

  lemma {:induction false} NeverOvercharged(rateMs: nat, steps: seq<Step>, lo: real)
    requires rateMs > 0 && Replay(rateMs, steps).Reached?
    ensures var s := Replay(rateMs, steps).s;
            LogInPast(s) && Charged(s, lo) <= rateMs
    decreases |steps|
  {
    UsedIsOutstanding(rateMs, steps);
    if |steps| > 0 {
      var before, step := steps[..|steps| - 1], steps[|steps| - 1];
      NeverOvercharged(rateMs, before, lo);
      UsedIsOutstanding(rateMs, before);
      var s := Replay(rateMs, before).s;
      if lo <= s.now {
        StepChargesNoMore(s, step, lo);
      } else {
        var s' := Apply(s, step);
        if s'.now < lo {
          OpeningCharge(s', lo);
        } else {
          assert s'.tasks == s.tasks && s'.log == s.log;
        }
      }
    } else {
      assert Total(Pending(lo), []) == 0;
    }
  }

  /** The rate limit: in every interleaving, no 100 ms window carries more than rate_ms bytes. */
  lemma WindowBound(rateMs: nat, steps: seq<Step>, lo: real)
    requires rateMs > 0 && Replay(rateMs, steps).Reached?
    ensures SentIn(Replay(rateMs, steps).s.log, lo, lo + SLEEP_MS) <= rateMs
  {
    NeverOvercharged(rateMs, steps, lo);
  }

  lemma {:induction false} SentInSplit(log: seq<Emission>, lo: real, mid: real, hi: real)
    requires lo <= mid <= hi
    ensures SentIn(log, lo, hi) == SentIn(log, lo, mid) + SentIn(log, mid, hi)
  {
    if |log| == 0 {
    } else {
      SentInSplit(log[..|log| - 1], lo, mid, hi);
    }
  }

  /** m consecutive windows carry at most m times the allowance. */
  lemma {:induction false} LongWindowBound(rateMs: nat, steps: seq<Step>, lo: real, m: nat)
    requires rateMs > 0 && Replay(rateMs, steps).Reached?
    ensures SentIn(Replay(rateMs, steps).s.log, lo, lo + m as real * SLEEP_MS) <= m * rateMs
    decreases m
  {
    var log := Replay(rateMs, steps).s.log;
    if m == 0 {
      EmptyWindow(log, lo);
    } else {
      var mid := lo + (m - 1) as real * SLEEP_MS;
      LongWindowBound(rateMs, steps, lo, m - 1);
      WindowBound(rateMs, steps, mid);
      assert mid + SLEEP_MS == lo + m as real * SLEEP_MS;
      SentInSplit(log, lo, mid, mid + SLEEP_MS);
      assert m * rateMs == (m - 1) * rateMs + rateMs;
    }
  }

  lemma {:induction false} EmptyWindow(log: seq<Emission>, lo: real)
    ensures SentIn(log, lo, lo) == 0
  {
    if |log| == 0 {
    } else {
      EmptyWindow(log[..|log| - 1], lo);
    }
  }

  // ------------------------------------------------------------------
  // How much is granted
  // ------------------------------------------------------------------

  /** A coroutine with something left to send that comes to ask for bandwidth. */
  predicate Asks(t: Task) {
    match t.phase
    case Ready => |t.msg| > 0
    case Sleeping(bw, _) => bw == 0
    case Sent(bw) => 0 <= bw < |t.msg|
    case _ => false
  }

  /** What it hands back first. */
  function Returned(t: Task): int {
    if t.phase.Sent? then t.phase.bw else 0
  }

  /** Whoever asks while bytes are free sleeps from then on, holding all it still has to send or all that is
      free, whichever is less; nobody else's share changes. */
  lemma GrantedInFull(rateMs: nat, steps: seq<Step>, i: nat)
    requires Replay(rateMs, steps).Reached? && i < |Replay(rateMs, steps).s.tasks|
    requires var s := Replay(rateMs, steps).s;
             Enabled(s, Resume(i)) && Asks(s.tasks[i]) && s.used - Returned(s.tasks[i]) < rateMs
    ensures var s, u := Replay(rateMs, steps).s, Apply(Replay(rateMs, steps).s, Resume(i));
            var free, t := rateMs - (s.used - Returned(s.tasks[i])), u.tasks[i];
            && t.msg == Rest(s.tasks[i]) && t.phase.Sleeping? && t.phase.since == s.now
            && t.phase.bw <= |t.msg| && t.phase.bw <= free && (t.phase.bw == |t.msg| || t.phase.bw == free)
            && u.used == s.used - Returned(s.tasks[i]) + t.phase.bw
            && u.tasks == s.tasks[i := t] && u.log == s.log && u.now == s.now
  {
    UsedIsOutstanding(rateMs, steps);
    var s := Replay(rateMs, steps).s;
    assert TaskOk(rateMs, s.now, s.tasks[i]);
    if s.tasks[i].phase.Sent? {
      assert Rest(s.tasks[i]) == SliceFrom(s.tasks[i].msg, s.tasks[i].phase.bw);
    }
  }

  /** Steps of a run in which no further coroutine starts and no send is lost. */
  predicate Undisturbed(steps: seq<Step>) {
    forall k :: 0 <= k < |steps| ==> !steps[k].Spawn? && !steps[k].Lose?
  }

  /** The bytes sent so far. */
  function LogBytes(log: seq<Emission>): nat {
    if |log| == 0 then 0 else LogBytes(log[..|log| - 1]) + log[|log| - 1].size
  }

  /** Every emission takes the whole rate, or all that was left of `total` by then. */
  predicate FullShares(rateMs: nat, total: nat, log: seq<Emission>) {
    if |log| == 0 then true
    else
      var before := log[..|log| - 1];
      && FullShares(rateMs, total, before)
      && var left := total - LogBytes(before);
      log[|log| - 1].size == (if left < rateMs then left else rateMs) && log[|log| - 1].size > 0
  }

  /** The only coroutine, its grants and what it has sent. */
  predicate Lone(s: State, msg: Buf) {
    && |s.tasks| == 1
    && var t := s.tasks[0];
    && t.whole == msg && t.lost == 0 && LogBytes(s.log) == |t.out| <= |msg|
    && FullShares(s.rateMs, |msg|, s.log)
    && (t.phase.Sleeping? || t.phase.Sending? ==> t.phase.bw == if |t.msg| < s.rateMs then |t.msg| else s.rateMs)
  }

  lemma LoneStep(s: State, step: Step, msg: Buf)
    requires Inv(s) && s.rateMs > 0 && Lone(s, msg) && Enabled(s, step) && !step.Spawn? && !step.Lose?
    ensures Lone(Apply(s, step), msg)
  {
    match step {
      case Resume(_) => LoneResume(s, step, msg);
      case Emit(_) => LoneEmit(s, step, msg);
      case _ =>
    }
  }

  lemma LoneResume(s: State, step: Step, msg: Buf)
    requires Inv(s) && s.rateMs > 0 && Lone(s, msg) && Enabled(s, step) && step.Resume?
    ensures Lone(Apply(s, step), msg)
  {
    var t := s.tasks[0];
    assert TaskOk(s.rateMs, s.now, t);
    assert s.tasks == [t] && Total(Held, s.tasks) == Weight(Held, t) + Total(Held, []);
    if t.phase.Sent? {
      assert Rest(t) == SliceFrom(t.msg, t.phase.bw);
    }
  }

  lemma LoneEmit(s: State, step: Step, msg: Buf)
    requires Inv(s) && s.rateMs > 0 && Lone(s, msg) && Enabled(s, step) && step.Emit?
    ensures Lone(Apply(s, step), msg)
  {
    var t := s.tasks[0];
    assert TaskOk(s.rateMs, s.now, t);
    EmittedOk(s.rateMs, t, s.now);
    var e := Emission(s.now, |SliceTo(t.msg, t.phase.bw)|);
    assert (s.log + [e])[..|s.log|] == s.log;
    assert |t.out| + |t.msg| == |msg|;
  }

  lemma {:induction false} LoneRun(rateMs: nat, msg: Buf, steps: seq<Step>)
    requires rateMs > 0 && Undisturbed(steps) && Replay(rateMs, [Spawn(msg)] + steps).Reached?
    ensures Lone(Replay(rateMs, [Spawn(msg)] + steps).s, msg)
    ensures Replay(rateMs, [Spawn(msg)] + steps).s.rateMs == rateMs
    decreases |steps|
  {
    var all := [Spawn(msg)] + steps;
    if |steps| == 0 {
      assert all[..0] == [];
    } else {
      var rest, step := steps[..|steps| - 1], steps[|steps| - 1];
      assert all[..|all| - 1] == [Spawn(msg)] + rest;
      LoneRun(rateMs, msg, rest);
      UsedIsOutstanding(rateMs, [Spawn(msg)] + rest);
      LoneStep(Replay(rateMs, [Spawn(msg)] + rest).s, step, msg);
    }
  }

  lemma {:induction false} OneShare(rateMs: nat, total: nat, log: seq<Emission>)
    requires FullShares(rateMs, total, log) && 0 < total <= rateMs
    ensures |log| <= 1 && (|log| == 1 ==> log[0].size == total)
  {
    if |log| == 0 {
    } else {
      var before := log[..|log| - 1];
      OneShare(rateMs, total, before);
    }
  }

  /** A message that has the limiter to itself goes out in full shares; one of at most rate_ms bytes whole,
      in one emission. */
  lemma LoneMessage(rateMs: nat, msg: Buf, steps: seq<Step>)
    requires rateMs > 0 && Undisturbed(steps) && Replay(rateMs, [Spawn(msg)] + steps).Reached?
    ensures var log := Replay(rateMs, [Spawn(msg)] + steps).s.log;
            && FullShares(rateMs, |msg|, log)
            && (0 < |msg| <= rateMs ==> |log| <= 1 && (|log| == 1 ==> log[0].size == |msg|))
  {
    LoneRun(rateMs, msg, steps);
    if 0 < |msg| <= rateMs {
      OneShare(rateMs, |msg|, Replay(rateMs, [Spawn(msg)] + steps).s.log);
    }
  }

  /** And after one sleep it is gone and the coroutine done. */
  lemma LoneMessageGoes(rateMs: nat, msg: Buf)
    requires 0 < |msg| <= rateMs
    ensures var steps := [Spawn(msg), Resume(0), Tick(SLEEP_MS), Resume(0), Emit(0), Resume(0)];
            && Replay(rateMs, steps).Reached?
            && Replay(rateMs, steps).s
               == State(rateMs, 0, SLEEP_MS, [Task([], 0, Done, msg, msg, 0)], [Emission(SLEEP_MS, |msg|)])
  {
    Extend(rateMs, [], Spawn(msg));
    var steps1 := [] + [Spawn(msg)];
    Extend(rateMs, steps1, Resume(0));
    var steps2 := steps1 + [Resume(0)];
    Extend(rateMs, steps2, Tick(SLEEP_MS));
    var steps3 := steps2 + [Tick(SLEEP_MS)];
    Extend(rateMs, steps3, Resume(0));
    var steps4 := steps3 + [Resume(0)];
    assert Replay(rateMs, steps4).s
           == State(rateMs, |msg|, SLEEP_MS, [Task(msg, |msg|, Sending(|msg|, 0.0), msg, [], 0)], []);
    Extend(rateMs, steps4, Emit(0));
    var steps5 := steps4 + [Emit(0)];
    assert SliceTo(msg, |msg|) == msg && [] + msg == msg;
    var t := Task(msg, |msg|, Sent(|msg|), msg, msg, 0);
    assert Emitted(Task(msg, |msg|, Sending(|msg|, 0.0), msg, [], 0)) == t;
    assert Replay(rateMs, steps5).s == State(rateMs, |msg|, SLEEP_MS, [t], [Emission(SLEEP_MS, |msg|)]);
    assert SliceFrom(msg, |msg|) == [];
    Extend(rateMs, steps5, Resume(0));
    assert steps5 + [Resume(0)] == [Spawn(msg), Resume(0), Tick(SLEEP_MS), Resume(0), Emit(0), Resume(0)];
  }
}
