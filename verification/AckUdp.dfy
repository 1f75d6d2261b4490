/**
 Acknowledged messages over UDP.  A sender keeps an event per sequence number and
 retransmits until the event is set; a receiver acknowledges every data message.
 */
module AckUdp {
  import opened Bytes
  import opened Endian
  import opened Options

  const UDP_MAX_DICT_LEN := 1000

  // ------------------------------------------------------------------
  // Packets
  // ------------------------------------------------------------------

  function DataBuf(seqNo: nat, data: Buf): Buf {
    Big(seqNo, 8) + [0] + data
  }

  function AckBuf(seqNo: nat): Buf {
    Big(seqNo, 8) + [1]
  }

  function SeqOf(data: Buf): nat
    requires |data| >= 9
  {
    FromBig(data[0..8])
  }

  function IsAck(data: Buf): Option<nat> {
    if |data| >= 9 && data[8] == 1 then Some(SeqOf(data)) else None
  }

  /** Sequence number, acknowledgement to send back and payload; None for a runt. */
  datatype Ackable = Ackable(seqNo: nat, ack: Option<Buf>, payload: Buf)

  function IsAckable(data: Buf): Option<Ackable> {
    if |data| < 9 then None
    else Some(Ackable(SeqOf(data), if data[8] == 0 then Some(AckBuf(SeqOf(data))) else None, data[9..]))
  }

  lemma PacketFields(seqNo: nat, data: Buf)
    requires seqNo < Pow256(8)
    ensures IsAck(AckBuf(seqNo)) == Some(seqNo) && IsAck(DataBuf(seqNo, data)) == None
    ensures IsAckable(DataBuf(seqNo, data)) == Some(Ackable(seqNo, Some(AckBuf(seqNo)), data))
    ensures |AckBuf(seqNo)| == 9 && SeqOf(AckBuf(seqNo)) == seqNo && AckBuf(seqNo)[8] == 1
    ensures |DataBuf(seqNo, data)| >= 9 && SeqOf(DataBuf(seqNo, data)) == seqNo && DataBuf(seqNo, data)[8] == 0
  {
    BigRoundTrip(seqNo, 8);
    assert AckBuf(seqNo)[0..8] == Big(seqNo, 8);
    assert DataBuf(seqNo, data)[0..8] == Big(seqNo, 8);
    assert DataBuf(seqNo, data)[9..] == data;
  }

  // ------------------------------------------------------------------
  // Handling one received message
  // ------------------------------------------------------------------

  /** `hit` is the event that gets set; `cleared` says the table of events is dropped. */
  datatype Handled = Handled(status: int, payload: Option<Buf>, ack: Option<Buf>, hit: Option<nat>, cleared: bool)

  function Handle(data: Buf, waiting: set<nat>): Handled {
    match IsAck(data)
    case Some(s) => Handled(0, None, None, if s in waiting then Some(s) else None, false)
    case None =>
      match IsAckable(data)
      case None => Handled(0, None, None, None, false)
      case Some(m) =>
        var ours := m.ack.Some? && m.seqNo in waiting;
        var ack := if ours then None else m.ack;
        Handled(if ack.Some? then 2 else 1, Some(m.payload), ack, if ours then Some(m.seqNo) else None,
                |waiting| > UDP_MAX_DICT_LEN)
  }

  /** An acknowledgement of message n, or a data message that carries that number. */
  predicate Hits(bytes: Buf, n: nat) {
    |bytes| >= 9 && bytes[..8] == Big(n, 8) && (bytes[8] == 1 || bytes[8] == 0)
  }

  lemma HitsIff(data: Buf, waiting: set<nat>, n: nat)
    requires n in waiting && n < Pow256(8)
    ensures Handle(data, waiting).hit == Some(n) <==> Hits(data, n)
  {
    if |data| >= 9 {
      BigOfBytes(data[..8]);
      BigRoundTrip(n, 8);
      assert data[0..8] == data[..8];
    }
  }

  /** What is said back: the sender's number under the acknowledging flag. */
  lemma AnswerBytes(data: Buf, waiting: set<nat>)
    requires |data| >= 9 && data[8] == 0 && SeqOf(data) !in waiting
    ensures Handle(data, waiting).ack == Some(data[..8] + [1])
  {
    BigOfBytes(data[..8]);
    assert data[0..8] == data[..8];
  }

  class Event {
    var isSet: bool

    constructor ()
      ensures !isSet
    {
      isSet := false;
    }
  }

  class ACKUDP {
    var seqs: map<nat, Event>

    ghost predicate Valid()
      reads this
    {
      forall s, t :: s in seqs && t in seqs && s != t ==> seqs[s] != seqs[t]
    }

    constructor ()
      ensures Valid() && seqs == map[]
    {
      seqs := map[];
    }

    /** Registers an outgoing message; the caller keeps the event even when the table is dropped. */
    method Register(seqNo: nat) returns (event: Event)
      requires Valid()
      modifies this
      ensures Valid() && fresh(event) && !event.isSet && seqs == old(seqs)[seqNo := event]
    {
      event := new Event();
      seqs := seqs[seqNo := event];
    }

    /** The acknowledgement returned in `r` is handed to a new sending task. */
    method HandleAck(data: Buf) returns (r: Handled)
      requires Valid()
      modifies this, seqs.Values
      ensures Valid() && r == Handle(data, old(seqs.Keys))
      ensures seqs == if r.cleared then map[] else old(seqs)
      ensures r.hit.Some? ==> r.hit.value in old(seqs)
      ensures forall s <- old(seqs) :: old(seqs)[s].isSet == (old(seqs[s].isSet) || r.hit == Some(s))
      ensures forall s <- old(seqs) :: s < Pow256(8) ==> (r.hit == Some(s) <==> Hits(data, s))
      ensures r.payload == if |data| >= 9 && data[8] != 1 then Some(data[9..]) else None
      ensures r.cleared <==> r.payload.Some? && |old(seqs)| > UDP_MAX_DICT_LEN
      ensures r.ack == if |data| >= 9 && data[8] == 0 && r.hit.None? then Some(data[..8] + [1]) else None
      ensures r.status == if r.ack.Some? then 2 else if r.payload.Some? then 1 else 0
    {
      forall s <- seqs | s < Pow256(8) ensures Handle(data, seqs.Keys).hit == Some(s) <==> Hits(data, s) {
        HitsIff(data, seqs.Keys, s);
      }
      if |data| >= 9 && data[8] == 0 && SeqOf(data) !in seqs.Keys {
        AnswerBytes(data, seqs.Keys);
      }
      var ackSeq := IsAck(data);
      if ackSeq.Some? {
        if ackSeq.value in seqs {
          seqs[ackSeq.value].isSet := true;
          return Handled(0, None, None, ackSeq, false);
        }
        return Handled(0, None, None, None, false);
      }
      var m := IsAckable(data);
      if m.None? {
        return Handled(0, None, None, None, false);
      }
      var ack := m.value.ack;
      var hit := None;
      if ack.Some? && m.value.seqNo in seqs {
        seqs[m.value.seqNo].isSet := true;
        ack := None;
        hit := Some(m.value.seqNo);
      }
      var cleared := |seqs| > UDP_MAX_DICT_LEN;
      assert |seqs| == |seqs.Keys|;
      if cleared {
        seqs := map[];
      }
      r := Handled(if ack.Some? then 2 else 1, Some(m.value.payload), ack, hit, cleared);
    }
  }

  /** How one wait of a sending worker ends. */
  datatype WaitOutcome = EventSet | TimedOut | OutOfTime | EntryGone

  /** How often a worker sends, given how its waits end: again only after a timeout, up to `tries`
      sends or the first wait that ends any other way. */
  ghost predicate LoopSends(tries: int, outcome: nat -> WaitOutcome, transmits: nat) {
    && 1 <= transmits <= Max(tries, 1)
    && (forall k :: 1 <= k < transmits ==> outcome(k).TimedOut?)
    && (transmits >= tries || !outcome(transmits).TimedOut?)
  }

  /** The outcomes determine the number. */
  lemma LoopDetermined(tries: int, outcome: nat -> WaitOutcome, m: nat, n: nat)
    requires LoopSends(tries, outcome, m) && LoopSends(tries, outcome, n)
    ensures m == n
  {
    assert m < n ==> outcome(m).TimedOut?;
    assert n < m ==> outcome(n).TimedOut?;
  }

  method WorkerLoop(tries: int, outcome: nat -> WaitOutcome) returns (transmits: nat)
    ensures LoopSends(tries, outcome, transmits)
  {
    transmits := 0;
    var running := true;
    while running
      invariant transmits <= Max(tries, 1)
      invariant running ==> transmits == 0 || transmits < tries
      invariant forall k :: 1 <= k < transmits ==> outcome(k).TimedOut?
      invariant running && transmits > 0 ==> outcome(transmits).TimedOut?
      invariant !running ==> transmits >= 1 && (transmits >= tries || !outcome(transmits).TimedOut?)
      decreases running, Max(tries, 1) - transmits
    {
      transmits := transmits + 1;
      if transmits >= tries {
        running := false;
      } else {
        running := outcome(transmits).TimedOut?;
      }
    }
  }

  // ------------------------------------------------------------------
  // Two endpoints and a channel that loses, duplicates and reorders
  // ------------------------------------------------------------------

  datatype End = Left | Right

  function Other(e: End): End {
    if e.Left? then Right else Left
  }

  /** Where a sending worker is.  Died: its entry of the event table was gone when it came to wait. */
  datatype Phase = Ready | Sent | Waiting | Finished | Died

  datatype Worker = Worker(owner: End, data: Buf, tries: int, transmits: nat, phase: Phase)

  datatype Packet = Packet(dest: End, bytes: Buf)

  datatype Accepted = Accepted(end: End, seqNo: nat, payload: Buf)

  datatype System = System(
    workers: map<nat, Worker>,
    waitLeft: set<nat>, waitRight: set<nat>,   // each side's table of events
    events: set<nat>,                          // the events that are set
    net: set<Packet>,
    accepted: set<Accepted>,
    cleared: set<End>,                         // sides that dropped their table at some time
    deliveries: nat, acks: nat)                // data messages handled, acknowledgements sent

  const QUIET := System(map[], {}, {}, {}, {}, {}, {}, 0, 0)

  function WaitAt(s: System, e: End): set<nat> {
    if e.Left? then s.waitLeft else s.waitRight
  }

  function WithWait(s: System, e: End, w: set<nat>): System {
    if e.Left? then s.(waitLeft := w) else s.(waitRight := w)
  }

  datatype Step =
    | Send(owner: End, seqNo: nat, data: Buf, tries: int)
    | Begin(seqNo: nat)                  // the worker's first transmission
    | Check(seqNo: nat)                  // back from sending: stop, wait, or fail
    | Wake(seqNo: nat)                   // the event was set while waiting
    | Timeout(seqNo: nat, giveUp: bool)  // three seconds passed without it; maybe the whole time too
    | Deliver(packet: Packet)

  predicate Enabled(s: System, step: Step) {
    match step
    case Send(_, n, _, _) => n !in s.workers && n < Pow256(8)
    case Begin(n) => n in s.workers && s.workers[n].phase.Ready?
    case Check(n) => n in s.workers && s.workers[n].phase.Sent?
    case Wake(n) => n in s.workers && s.workers[n].phase.Waiting? && n in s.events
    case Timeout(n, _) => n in s.workers && s.workers[n].phase.Waiting? && n !in s.events
    case Deliver(p) => p in s.net
  }

  function Finish(s: System, n: nat): System
    requires n in s.workers
  {
    var w := s.workers[n];
    WithWait(s.(workers := s.workers[n := w.(phase := Finished)]), w.owner, WaitAt(s, w.owner) - {n})
  }

  function Transmit(s: System, n: nat): System
    requires n in s.workers
  {
    var w := s.workers[n];
    s.(workers := s.workers[n := w.(transmits := w.transmits + 1, phase := Sent)],
       net := s.net + {Packet(Other(w.owner), DataBuf(n, w.data))})
  }

  function Receive(s: System, p: Packet): System {
    var waiting := WaitAt(s, p.dest);
    var h := Handle(p.bytes, waiting);
    var s1 := s.(events := if h.hit.Some? then s.events + {h.hit.value} else s.events);
    var s2 := if h.cleared then WithWait(s1.(cleared := s.cleared + {p.dest}), p.dest, {}) else s1;
    if h.payload.None? then s2
    else
      s2.(accepted := s.accepted + {Accepted(p.dest, SeqOf(p.bytes), h.payload.value)},
          net := if h.ack.Some? then s.net + {Packet(Other(p.dest), h.ack.value)} else s.net,
          deliveries := s.deliveries + 1,
          acks := if h.ack.Some? then s.acks + 1 else s.acks)
  }

  function Apply(s: System, step: Step): System
    requires Enabled(s, step)
  {
    match step
    case Send(e, n, data, tries) =>
      WithWait(s.(workers := s.workers[n := Worker(e, data, tries, 0, Ready)]), e, WaitAt(s, e) + {n})
    case Begin(n) => Transmit(s, n)
    case Check(n) =>
      var w := s.workers[n];
      if w.transmits >= w.tries then Finish(s, n)
      else if n !in WaitAt(s, w.owner) then s.(workers := s.workers[n := w.(phase := Died)])
      else if n in s.events then Finish(s, n)
      else s.(workers := s.workers[n := w.(phase := Waiting)])
    case Wake(n) => Finish(s, n)
    case Timeout(n, giveUp) => if giveUp then Finish(s, n) else Transmit(s, n)
    case Deliver(p) => Receive(s, p)
  }

  function Replay(steps: seq<Step>): Option<System> {
    if |steps| == 0 then Some(QUIET)
    else
      match Replay(steps[..|steps| - 1])
      case None => None
      case Some(s) =>
        var step := steps[|steps| - 1];
        if Enabled(s, step) then Some(Apply(s, step)) else None
  }

  // ------------------------------------------------------------------
  // What holds in every reachable system
  // ------------------------------------------------------------------

  /** The peer has taken this message, with the very payload that was sent. */
  predicate Taken(s: System, n: nat)
    requires n in s.workers
  {
    Accepted(Other(s.workers[n].owner), n, s.workers[n].data) in s.accepted
  }

  /** Only messages actually sent, and acknowledgements of messages actually taken, travel. */
  predicate PacketOk(s: System, p: Packet) {
    && |p.bytes| >= 9
    && var n := SeqOf(p.bytes);
    && n in s.workers && n < Pow256(8) && !s.workers[n].phase.Ready?
    && (p == Packet(Other(s.workers[n].owner), DataBuf(n, s.workers[n].data))
        || (p == Packet(s.workers[n].owner, AckBuf(n)) && Taken(s, n)))
  }

  predicate WorkerOk(s: System, n: nat)
    requires n in s.workers
  {
    var w := s.workers[n];
    && n < Pow256(8)
    && w.transmits <= Max(w.tries, 1)
    && (w.phase.Ready? ==> w.transmits == 0 && n !in s.events)
    && (w.phase.Waiting? ==> w.transmits < w.tries)
    && (n in s.events ==> Taken(s, n))
    && ((w.phase.Ready? || w.phase.Sent? || w.phase.Waiting?) && w.owner !in s.cleared ==> n in WaitAt(s, w.owner))
    && (w.phase.Died? ==> w.owner in s.cleared)
  }

  predicate Inv(s: System) {
    && (forall n <- s.workers :: WorkerOk(s, n))
    && (forall p <- s.net :: PacketOk(s, p))
    && (forall n <- s.waitLeft :: n in s.workers && s.workers[n].owner == Left)
    && (forall n <- s.waitRight :: n in s.workers && s.workers[n].owner == Right)
    && (forall n <- s.events :: n in s.workers)
    && s.acks <= s.deliveries
  }

  /** Workers change only their progress, and nothing accepted is forgotten. */
  predicate Grows(s: System, t: System) {
    && (forall n <- s.workers :: n in t.workers && t.workers[n].owner == s.workers[n].owner
                                 && t.workers[n].data == s.workers[n].data
                                 && (t.workers[n].phase.Ready? ==> s.workers[n].phase.Ready?))
    && s.accepted <= t.accepted
  }

  lemma PacketsStayOk(s: System, t: System)
    requires (forall p <- s.net :: PacketOk(s, p)) && Grows(s, t)
    ensures forall p <- s.net :: PacketOk(t, p)
  {
    forall p <- s.net ensures PacketOk(t, p) {
      assert PacketOk(s, p);
      var n := SeqOf(p.bytes);
      assert n in s.workers;
    }
  }

  lemma SendOk(s: System, step: Step)
    requires Inv(s) && Enabled(s, step) && step.Send?
    ensures Inv(Apply(s, step))
  {
    var t := Apply(s, step);
    PacketsStayOk(s, t);
    forall n <- t.workers ensures WorkerOk(t, n) {
      if n != step.seqNo {
        assert WorkerOk(s, n);
      }
    }
  }

  lemma TransmitOk(s: System, n: nat)
    requires Inv(s) && n in s.workers
    requires s.workers[n].phase.Ready? || s.workers[n].phase.Waiting?
    ensures Inv(Transmit(s, n))
  {
    var t := Transmit(s, n);
    assert WorkerOk(s, n);
    PacketsStayOk(s, t);
    PacketFields(n, s.workers[n].data);
    forall m <- t.workers ensures WorkerOk(t, m) {
      assert WorkerOk(s, m);
    }
  }

  lemma FinishOk(s: System, n: nat)
    requires Inv(s) && n in s.workers && !s.workers[n].phase.Ready?
    ensures Inv(Finish(s, n))
  {
    assert WorkerOk(s, n);
    PacketsStayOk(s, Finish(s, n));
    FinishedWorkers(s, n);
  }

  lemma FinishedWorkers(s: System, n: nat)
    requires n in s.workers && (forall m <- s.workers :: WorkerOk(s, m))
    requires forall m <- s.waitLeft + s.waitRight :: m in s.workers
    requires !s.workers[n].phase.Ready?
    ensures forall m <- Finish(s, n).workers :: WorkerOk(Finish(s, n), m)
  {
    var t := Finish(s, n);
    forall m <- t.workers ensures WorkerOk(t, m) {
      assert WorkerOk(s, m);
    }
  }

  lemma PhaseOk(s: System, n: nat, phase: Phase)
    requires Inv(s) && n in s.workers && s.workers[n].phase.Sent?
    requires phase.Waiting? ==> s.workers[n].transmits < s.workers[n].tries && n in WaitAt(s, s.workers[n].owner)
    requires phase.Died? ==> s.workers[n].owner in s.cleared
    requires phase.Waiting? || phase.Died?
    ensures Inv(s.(workers := s.workers[n := s.workers[n].(phase := phase)]))
  {
    var t := s.(workers := s.workers[n := s.workers[n].(phase := phase)]);
    assert WorkerOk(s, n);
    PacketsStayOk(s, t);
    forall m <- t.workers ensures WorkerOk(t, m) {
      assert WorkerOk(s, m);
    }
  }

  /** What handling a travelling packet can be: the acknowledgement of one of our messages, or a data
      message of the peer's, which is never one of ours. */
  lemma DeliveredKind(s: System, p: Packet)
    requires Inv(s) && p in s.net
    ensures var n := SeqOf(p.bytes); var h := Handle(p.bytes, WaitAt(s, p.dest));
            && n in s.workers
            && (h.payload.None? ==> h.ack.None? && !h.cleared && s.workers[n].owner == p.dest && Taken(s, n)
                                    && (h.hit.Some? ==> h.hit == Some(n)))
            && (h.payload.Some? ==> s.workers[n].owner == Other(p.dest) && h.payload == Some(s.workers[n].data)
                                    && h.ack == Some(AckBuf(n)) && h.hit.None?)
  {
    assert PacketOk(s, p);
    var n := SeqOf(p.bytes);
    PacketFields(n, s.workers[n].data);
    if n in WaitAt(s, p.dest) {
      assert s.workers[n].owner == p.dest;
    }
  }

  lemma DeliverOk(s: System, p: Packet)
    requires Inv(s) && p in s.net
    ensures Inv(Receive(s, p))
  {
    var t := Receive(s, p);
    var n := SeqOf(p.bytes);
    DeliveredKind(s, p);
    assert PacketOk(s, p);
    PacketsStayOk(s, t);
    PacketFields(n, s.workers[n].data);
    DeliveredWorkers(s, p);
  }

  lemma DeliveredWorkers(s: System, p: Packet)
    requires Inv(s) && p in s.net
    ensures forall m <- Receive(s, p).workers :: WorkerOk(Receive(s, p), m)
  {
    var t := Receive(s, p);
    DeliveredKind(s, p);
    forall m <- t.workers ensures WorkerOk(t, m) {
      assert WorkerOk(s, m);
    }
  }

  lemma StepKeepsInv(s: System, step: Step)
    requires Inv(s) && Enabled(s, step)
    ensures Inv(Apply(s, step))
  {
    match step {
      case Send(_, _, _, _) => SendOk(s, step);
      case Begin(n) => TransmitOk(s, n);
      case Check(n) =>
        assert WorkerOk(s, n);
        var w := s.workers[n];
        if w.transmits >= w.tries || (n in WaitAt(s, w.owner) && n in s.events) {
          FinishOk(s, n);
        } else {
          PhaseOk(s, n, if n !in WaitAt(s, w.owner) then Died else Waiting);
        }
      case Wake(n) => FinishOk(s, n);
      case Timeout(n, giveUp) =>
        if giveUp {
          FinishOk(s, n);
        } else {
          TransmitOk(s, n);
        }
      case Deliver(p) => DeliverOk(s, p);
    }
  }

  lemma {:induction false} AlwaysInv(steps: seq<Step>)
    requires Replay(steps).Some?
    ensures Inv(Replay(steps).value)
    decreases |steps|
  {
    if |steps| == 0 {
    } else {
      AlwaysInv(steps[..|steps| - 1]);
      StepKeepsInv(Replay(steps[..|steps| - 1]).value, steps[|steps| - 1]);
    }
  }

  /** A sender's event is set only if the peer has accepted that message with the payload sent. */
  lemma SetMeansAccepted(steps: seq<Step>, n: nat)
    requires Replay(steps).Some? && n in Replay(steps).value.events
    ensures var s := Replay(steps).value;
            n in s.workers && Accepted(Other(s.workers[n].owner), n, s.workers[n].data) in s.accepted
  {
    AlwaysInv(steps);
    assert WorkerOk(Replay(steps).value, n);
  }

  /** No acknowledgement is ever answered: handling one puts nothing on the network, and over a whole
      run there are never more acknowledgements than data messages handled. */
  lemma AcksAreNotAnswered(steps: seq<Step>, p: Packet)
    requires Replay(steps).Some? && p in Replay(steps).value.net
    ensures var s := Replay(steps).value;
            && s.acks <= s.deliveries
            && (IsAck(p.bytes).Some? ==> Receive(s, p).net == s.net && Receive(s, p).acks == s.acks)
  {
    AlwaysInv(steps);
  }

  /** A worker whose event is set keeps it, and starts no further transmission. */
  lemma SetStopsSending(s: System, step: Step, n: nat)
    requires Inv(s) && Enabled(s, step) && n in s.workers
    ensures var t := Apply(s, step);
            n in t.workers && (n in s.events ==> t.workers[n].transmits == s.workers[n].transmits && n in t.events)
  {
    assert WorkerOk(s, n);
  }

  /** A message is sent at most `tries` times (once, if fewer were asked for), and never again once its
      event is set. */
  lemma BoundedTransmissions(steps: seq<Step>, step: Step, n: nat)
    requires Replay(steps).Some? && n in Replay(steps).value.workers && Enabled(Replay(steps).value, step)
    ensures var s, t := Replay(steps).value, Apply(Replay(steps).value, step);
            && n in t.workers
            && t.workers[n].transmits <= Max(t.workers[n].tries, 1)
            && (n in s.events ==> t.workers[n].transmits == s.workers[n].transmits && n in t.events)
  {
    AlwaysInv(steps);
    var s := Replay(steps).value;
    SetStopsSending(s, step, n);
    StepKeepsInv(s, step);
    InvBoundsWorker(Apply(s, step), n);
  }

  lemma InvBoundsWorker(t: System, n: nat)
    requires Inv(t) && n in t.workers
    ensures t.workers[n].transmits <= Max(t.workers[n].tries, 1)
  {
    assert WorkerOk(t, n);
  }

  /** A worker dies before its tries are used up only on a side that dropped its overfull table. */
  lemma WorkersDieOnlyAfterOverflow(steps: seq<Step>, n: nat)
    requires Replay(steps).Some? && n in Replay(steps).value.workers
    ensures var s := Replay(steps).value;
            s.workers[n].phase.Died? ==> s.workers[n].owner in s.cleared
  {
    AlwaysInv(steps);
    assert WorkerOk(Replay(steps).value, n);
  }

  predicate Active(w: Worker) {
    w.phase.Ready? || w.phase.Sent? || w.phase.Waiting?
  }

  predicate InTable(s: System, n: nat) {
    n in s.workers && n in WaitAt(s, s.workers[n].owner)
  }

  /** A message is handled and the worker's entry goes with the whole table. */
  predicate Drops(s: System, step: Step, n: nat)
    requires Enabled(s, step)
  {
    step.Deliver? && InTable(s, n) && !InTable(Apply(s, step), n)
  }

  /** The worker's entry has been dropped in this run. */
  predicate Dropped(steps: seq<Step>, n: nat)
    requires Replay(steps).Some?
  {
    if |steps| == 0 then false
    else
      var rest, step := steps[..|steps| - 1], steps[|steps| - 1];
      Dropped(rest, n) || Drops(Replay(rest).value, step, n)
  }

  /** What one step does to an active worker's entry. */
  lemma EntryStep(s: System, step: Step, n: nat)
    requires Inv(s) && Enabled(s, step) && n in Apply(s, step).workers && Active(Apply(s, step).workers[n])
    ensures n in s.workers ==>
              Active(s.workers[n]) && (InTable(Apply(s, step), n) <==> InTable(s, n) && !Drops(s, step, n))
    ensures n !in s.workers ==> InTable(Apply(s, step), n)
  {
    match step {
      case Deliver(p) => DeliveryEntry(s, p, n);
      case _ =>
        if n in s.workers {
          assert WorkerOk(s, n);
        }
    }
  }

  lemma DeliveryEntry(s: System, p: Packet, n: nat)
    requires n in s.workers
    ensures Receive(s, p).workers == s.workers
    ensures InTable(Receive(s, p), n) ==> InTable(s, n)
  {
  }

  /** While a worker is active, it has an entry exactly as long as that has not been dropped. */
  lemma {:induction false} EntryUnlessDropped(steps: seq<Step>, n: nat)
    requires Replay(steps).Some?
    ensures var s := Replay(steps).value;
            && (n !in s.workers ==> !Dropped(steps, n))
            && (n in s.workers && Active(s.workers[n]) ==> (InTable(s, n) <==> !Dropped(steps, n)))
    decreases |steps|
  {
    AlwaysInv(steps);
    if |steps| == 0 {
    } else {
      var rest, step := steps[..|steps| - 1], steps[|steps| - 1];
      AlwaysInv(rest);
      EntryUnlessDropped(rest, n);
      var s := Replay(rest).value;
      if n in Replay(steps).value.workers && Active(Replay(steps).value.workers[n]) {
        EntryStep(s, step, n);
      }
    }
  }

  /** The k-th step of a run is the worker's check after a send, with a try to spare and its entry gone. */
  predicate ChecksInVain(steps: seq<Step>, k: nat, n: nat)
    requires k < |steps|
  {
    && steps[k] == Check(n) && Replay(steps[..k]).Some?
    && var s := Replay(steps[..k]).value;
    n in s.workers && s.workers[n].phase.Sent? && s.workers[n].transmits < s.workers[n].tries && Dropped(steps[..k], n)
  }

  lemma DiesAtStep(s: System, step: Step, n: nat)
    requires Inv(s) && Enabled(s, step) && n in Apply(s, step).workers
    ensures Apply(s, step).workers[n].phase.Died?
            <==> && n in s.workers
                 && (s.workers[n].phase.Died?
                     || (step == Check(n) && s.workers[n].transmits < s.workers[n].tries && !InTable(s, n)))
  {
  }

  ghost predicate ChecksInVainSomewhere(steps: seq<Step>, n: nat) {
    exists k: nat :: k < |steps| && ChecksInVain(steps, k, n)
  }

  lemma EarlierOrLast(steps: seq<Step>, n: nat)
    requires |steps| > 0
    ensures ChecksInVainSomewhere(steps, n)
            <==> ChecksInVainSomewhere(steps[..|steps| - 1], n) || ChecksInVain(steps, |steps| - 1, n)
  {
    var rest := steps[..|steps| - 1];
    forall k: nat | k < |rest| ensures ChecksInVain(rest, k, n) <==> ChecksInVain(steps, k, n) {
      assert rest[..k] == steps[..k];
    }
    if ChecksInVainSomewhere(rest, n) {
      var k: nat :| k < |rest| && ChecksInVain(rest, k, n);
      assert ChecksInVain(steps, k, n);
    }
    if ChecksInVainSomewhere(steps, n) {
      var k: nat :| k < |steps| && ChecksInVain(steps, k, n);
      assert k < |rest| ==> ChecksInVain(rest, k, n);
    }
  }

  /** A worker has died exactly when its entry was dropped, and it then came to a check with a try to
      spare. */
  lemma {:induction false} WorkersDieIff(steps: seq<Step>, n: nat)
    requires Replay(steps).Some? && n in Replay(steps).value.workers
    ensures Replay(steps).value.workers[n].phase.Died? <==> ChecksInVainSomewhere(steps, n)
    decreases |steps|
  {
    if |steps| == 0 {
    } else {
      var rest, step := steps[..|steps| - 1], steps[|steps| - 1];
      var s := Replay(rest).value;
      AlwaysInv(rest);
      EarlierOrLast(steps, n);
      EntryUnlessDropped(rest, n);
      DiesAtStep(s, step, n);
      if n in s.workers {
        WorkersDieIff(rest, n);
      } else {
        NoChecksBefore(rest, n);
      }
    }
  }

  /** Workers stay, so a worker that is not there has never been checked. */
  lemma {:induction false} NoChecksBefore(steps: seq<Step>, n: nat)
    requires Replay(steps).Some? && n !in Replay(steps).value.workers
    ensures !ChecksInVainSomewhere(steps, n)
    decreases |steps|
  {
    if |steps| == 0 {
    } else {
      var rest, step := steps[..|steps| - 1], steps[|steps| - 1];
      WorkersStay(Replay(rest).value, step, n);
      EarlierOrLast(steps, n);
      NoChecksBefore(rest, n);
      assert !ChecksInVain(steps, |steps| - 1, n);
    }
  }

  lemma WorkersStay(s: System, step: Step, n: nat)
    requires Enabled(s, step)
    ensures n in s.workers ==> n in Apply(s, step).workers
  {
  }

  // ------------------------------------------------------------------
  // The machine's workers run the loop
  // ------------------------------------------------------------------

  /** How the waits of worker n ended in a run. */
  function Waits(steps: seq<Step>, n: nat): seq<WaitOutcome>
    requires Replay(steps).Some?
  {
    if |steps| == 0 then []
    else
      var rest, step := steps[..|steps| - 1], steps[|steps| - 1];
      var s := Replay(rest).value;
      Waits(rest, n) + WaitEnd(s, step, n)
  }

  function WaitEnd(s: System, step: Step, n: nat): seq<WaitOutcome>
    requires Enabled(s, step)
  {
    match step
    case Check(m) =>
      if m != n || s.workers[n].transmits >= s.workers[n].tries then []
      else if n !in WaitAt(s, s.workers[n].owner) then [EntryGone]
      else if n in s.events then [EventSet]
      else []
    case Wake(m) => if m == n then [EventSet] else []
    case Timeout(m, giveUp) => if m != n then [] else if giveUp then [OutOfTime] else [TimedOut]
    case _ => []
  }

  predicate AllTimedOut(ws: seq<WaitOutcome>) {
    forall k :: 0 <= k < |ws| ==> ws[k].TimedOut?
  }

  /** What a worker's progress says about its waits so far. */
  predicate WaitsFit(w: Worker, ws: seq<WaitOutcome>) {
    match w.phase
    case Ready => w.transmits == 0 && ws == []
    case Sent => w.transmits >= 1 && |ws| == w.transmits - 1 && AllTimedOut(ws)
    case Waiting => w.transmits >= 1 && |ws| == w.transmits - 1 && AllTimedOut(ws)
    case _ =>
      && w.transmits >= 1
      && ((|ws| == w.transmits - 1 && AllTimedOut(ws) && w.transmits >= w.tries)
          || (|ws| == w.transmits && AllTimedOut(ws[..|ws| - 1]) && !ws[|ws| - 1].TimedOut?))
  }

  predicate NoWaitsYet(s: System, n: nat, ws: seq<WaitOutcome>) {
    if n in s.workers then WaitsFit(s.workers[n], ws) else ws == []
  }

  lemma OneMoreWait(ws: seq<WaitOutcome>, e: WaitOutcome)
    ensures (ws + [e])[..|ws + [e]| - 1] == ws && (ws + [e])[|ws + [e]| - 1] == e
    ensures AllTimedOut(ws) && e.TimedOut? ==> AllTimedOut(ws + [e])
  {
  }

  /** The step of another worker, a delivery, or one that ends no wait. */
  lemma NoWaitEnds(s: System, step: Step, n: nat, ws: seq<WaitOutcome>)
    requires Enabled(s, step) && NoWaitsYet(s, n, ws) && WaitEnd(s, step, n) == []
    ensures NoWaitsYet(Apply(s, step), n, ws)
  {
  }

  lemma WaitEnds(s: System, step: Step, n: nat, ws: seq<WaitOutcome>, e: WaitOutcome)
    requires Enabled(s, step) && NoWaitsYet(s, n, ws) && WaitEnd(s, step, n) == [e]
    ensures NoWaitsYet(Apply(s, step), n, ws + [e])
  {
    OneMoreWait(ws, e);
  }

  lemma WaitStep(s: System, step: Step, n: nat, ws: seq<WaitOutcome>)
    requires Enabled(s, step) && NoWaitsYet(s, n, ws)
    ensures NoWaitsYet(Apply(s, step), n, ws + WaitEnd(s, step, n))
  {
    var ends := WaitEnd(s, step, n);
    if ends == [] {
      assert ws + ends == ws;
      NoWaitEnds(s, step, n, ws);
    } else {
      assert ends == [ends[0]];
      WaitEnds(s, step, n, ws, ends[0]);
    }
  }

  lemma {:induction false} WaitsAlwaysFit(steps: seq<Step>, n: nat)
    requires Replay(steps).Some?
    ensures NoWaitsYet(Replay(steps).value, n, Waits(steps, n))
    decreases |steps|
  {
    if |steps| == 0 {
    } else {
      var rest, step := steps[..|steps| - 1], steps[|steps| - 1];
      WaitsAlwaysFit(rest, n);
      WaitStep(Replay(rest).value, step, n, Waits(rest, n));
    }
  }

  /** The outcomes of a run as the loop asks for them: the k-th wait, counted from 1. */
  function OutcomeOf(ws: seq<WaitOutcome>): nat -> WaitOutcome {
    (k: nat) => if 1 <= k <= |ws| then ws[k - 1] else TimedOut
  }

  /** A worker that is through has sent exactly as often as the loop does on the outcomes it met. */
  lemma MachineRunsLoop(steps: seq<Step>, n: nat)
    requires Replay(steps).Some? && n in Replay(steps).value.workers
    requires Replay(steps).value.workers[n].phase.Finished? || Replay(steps).value.workers[n].phase.Died?
    ensures var w := Replay(steps).value.workers[n];
            LoopSends(w.tries, OutcomeOf(Waits(steps, n)), w.transmits)
  {
    AlwaysInv(steps);
    WaitsAlwaysFit(steps, n);
    InvBoundsWorker(Replay(steps).value, n);
    FitLoops(Replay(steps).value.workers[n], Waits(steps, n));
  }

  lemma FitLoops(w: Worker, ws: seq<WaitOutcome>)
    requires WaitsFit(w, ws) && (w.phase.Finished? || w.phase.Died?) && w.transmits <= Max(w.tries, 1)
    ensures LoopSends(w.tries, OutcomeOf(ws), w.transmits)
  {
    if |ws| == w.transmits {
      assert forall k :: 0 <= k < |ws| - 1 ==> ws[k] == ws[..|ws| - 1][k];
    }
  }

  // ------------------------------------------------------------------
  // A run in which a worker dies
  // ------------------------------------------------------------------

  /** Messages 1 to k, all from one side. */
  function Burst(k: nat): seq<Step> {
    if k == 0 then [] else Burst(k - 1) + [Send(Left, k, [], 2)]
  }

  predicate InBurst(s: System, k: nat) {
    && |s.waitLeft| == k && (forall n :: n in s.waitLeft ==> n <= k) && s.events == {} && s.waitRight == {}
    && (forall n :: n in s.workers ==> n <= k)
    && (k >= 1 ==> 1 in s.workers && s.workers[1] == Worker(Left, [], 2, 0, Ready))
  }

  lemma BurstStep(s: System, k: nat)
    requires InBurst(s, k) && k + 1 < 0x10000
    ensures Enabled(s, Send(Left, k + 1, [], 2)) && InBurst(Apply(s, Send(Left, k + 1, [], 2)), k + 1)
  {
    FieldSizes();
    assert k + 1 !in s.waitLeft;
  }

  lemma {:induction false} BurstState(k: nat)
    requires k < 0x10000
    ensures Replay(Burst(k)).Some? && InBurst(Replay(Burst(k)).value, k)
  {
    if k == 0 {
    } else {
      BurstState(k - 1);
      BurstStep(Replay(Burst(k - 1)).value, k - 1);
      Extend(Burst(k - 1), Send(Left, k, [], 2));
    }
  }

  lemma Extend(steps: seq<Step>, step: Step)
    requires Replay(steps).Some? && Enabled(Replay(steps).value, step)
    ensures Replay(steps + [step]) == Some(Apply(Replay(steps).value, step))
  {
    assert (steps + [step])[..|steps|] == steps;
  }

  /** One message too many in flight, then a message from the other side: the table is dropped, and the
      worker that has sent once finds no entry to wait on, with a try to spare. */
  lemma WorkerDies() returns (steps: seq<Step>)
    ensures Replay(steps).Some? && 1 in Replay(steps).value.workers
    ensures var w := Replay(steps).value.workers[1]; w.phase.Died? && w.transmits == 1 && w.tries == 2
  {
    var k := UDP_MAX_DICT_LEN + 1;
    BurstState(k);
    var other := k + 1;
    FieldSizes();
    steps := Burst(k);
    Extend(steps, Begin(1));
    steps := steps + [Begin(1)];
    Extend(steps, Send(Right, other, [], 1));
    steps := steps + [Send(Right, other, [], 1)];
    Extend(steps, Begin(other));
    steps := steps + [Begin(other)];
    var packet := Packet(Left, DataBuf(other, []));
    PacketFields(other, []);
    Extend(steps, Deliver(packet));
    steps := steps + [Deliver(packet)];
    Extend(steps, Check(1));
    steps := steps + [Check(1)];
  }
}
