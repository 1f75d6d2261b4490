/**
 What an acknowledgement does: over every run an event is set exactly when one for it came in
 while its entry stood, and with nothing lost a message is sent once.
 */
module AckDelivery {
  import opened AckUdp
  import opened Bytes
  import opened Endian

  /** The k-th step of a run delivers an acknowledgement of message n, or data under its number, to the side
      that sent it, while that has its entry. */
  predicate HitAt(steps: seq<Step>, k: nat, n: nat)
    requires k < |steps|
  {
    && steps[k].Deliver? && Replay(steps[..k]).Some?
    && var s, p := Replay(steps[..k]).value, steps[k].packet;
    InTable(s, n) && p.dest == s.workers[n].owner && Hits(p.bytes, n)
  }

  ghost predicate HitSomewhere(steps: seq<Step>, n: nat) {
    exists k: nat :: k < |steps| && HitAt(steps, k, n)
  }

  lemma EarlierOrLastHit(steps: seq<Step>, n: nat)
    requires |steps| > 0
    ensures HitSomewhere(steps, n)
            <==> HitSomewhere(steps[..|steps| - 1], n) || HitAt(steps, |steps| - 1, n)
  {
    var rest := steps[..|steps| - 1];
    forall k: nat | k < |rest| ensures HitAt(rest, k, n) <==> HitAt(steps, k, n) {
      assert rest[..k] == steps[..k];
    }
    if HitSomewhere(rest, n) {
      var k: nat :| k < |rest| && HitAt(rest, k, n);
      assert HitAt(steps, k, n);
    }
    if HitSomewhere(steps, n) {
      var k: nat :| k < |steps| && HitAt(steps, k, n);
      assert k < |rest| ==> HitAt(rest, k, n);
    }
  }

  /** Entries stand on the side of their own worker. */
  lemma EntryIsOwners(s: System, e: End, n: nat)
    requires Inv(s) && n in WaitAt(s, e)
    ensures InTable(s, n) && s.workers[n].owner == e && n < Pow256(8)
  {
    assert WorkerOk(s, n);
  }

  lemma EventStep(s: System, step: Step, n: nat)
    requires Inv(s) && Enabled(s, step)
    ensures n in Apply(s, step).events
            <==> || n in s.events
                 || (step.Deliver? && InTable(s, n) && step.packet.dest == s.workers[n].owner
                     && Hits(step.packet.bytes, n))
  {
    if step.Deliver? {
      var p := step.packet;
      if n in WaitAt(s, p.dest) {
        EntryIsOwners(s, p.dest, n);
        HitsIff(p.bytes, WaitAt(s, p.dest), n);
      }
    }
  }

  /** A sender's event is set exactly when such a packet came in while its entry stood. */
  lemma {:induction false} EventSetIff(steps: seq<Step>, n: nat)
    requires Replay(steps).Some?
    ensures n in Replay(steps).value.events <==> HitSomewhere(steps, n)
    decreases |steps|
  {
    if |steps| == 0 {
    } else {
      var rest, step := steps[..|steps| - 1], steps[|steps| - 1];
      EventSetIff(rest, n);
      EarlierOrLastHit(steps, n);
      AlwaysInv(rest);
      EventStep(Replay(rest).value, step, n);
    }
  }

  /** In particular the acknowledgement itself, written as bytes, does it. */
  lemma AcknowledgementSets(steps: seq<Step>, n: nat, bytes: Buf)
    requires Replay(steps).Some? && InTable(Replay(steps).value, n)
    requires bytes == Big(n, 8) + [1]
    requires var s := Replay(steps).value; Packet(s.workers[n].owner, bytes) in s.net
    ensures var s := Replay(steps).value;
            n in Apply(s, Deliver(Packet(s.workers[n].owner, bytes))).events
  {
    AlwaysInv(steps);
    var s := Replay(steps).value;
    assert bytes[..8] == Big(n, 8);
    EventStep(s, Deliver(Packet(s.workers[n].owner, bytes)), n);
  }

  /** With nothing lost: sent once, accepted once, acknowledged, and the worker is done. */
  lemma DeliveredAtOnce(n: nat, data: Buf, tries: int)
    requires n < Pow256(8) && tries >= 2
    ensures var steps := [Send(Left, n, data, tries), Begin(n), Deliver(Packet(Right, Big(n, 8) + [0] + data)),
                          Check(n), Deliver(Packet(Left, Big(n, 8) + [1])), Wake(n)];
            && Replay(steps).Some?
            && var s := Replay(steps).value;
            && s.workers == map[n := Worker(Left, data, tries, 1, Finished)] && s.events == {n}
            && s.accepted == {Accepted(Right, n, data)} && s.deliveries == s.acks == 1
            && s.waitLeft == s.waitRight == {} && s.cleared == {}
  {
    PacketFields(n, data);
    var there, back := Packet(Right, DataBuf(n, data)), Packet(Left, AckBuf(n));
    Extend([], Send(Left, n, data, tries));
    var steps1 := [] + [Send(Left, n, data, tries)];
    Extend(steps1, Begin(n));
    var steps2 := steps1 + [Begin(n)];
    Extend(steps2, Deliver(there));
    var steps3 := steps2 + [Deliver(there)];
    assert Replay(steps3).value.workers == map[n := Worker(Left, data, tries, 1, Sent)];
    Extend(steps3, Check(n));
    var steps4 := steps3 + [Check(n)];
    Extend(steps4, Deliver(back));
    var steps5 := steps4 + [Deliver(back)];
    Extend(steps5, Wake(n));
    assert steps5 + [Wake(n)]
           == [Send(Left, n, data, tries), Begin(n), Deliver(there), Check(n), Deliver(back), Wake(n)];
  }
}
