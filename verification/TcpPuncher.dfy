/**
 One side of a TCP hole punch.  `proto` is entered with the mappings received from
 the other side, if any; it suspends once, while its own mappings are predicted.
 */
module TcpPuncher {
  import opened Bytes
  import opened NatPredict
  import opened Options

  datatype PunchState = NoState | InitiatedPredictions | ReceivedPredictions | UpdatedPredictions

  datatype Side = NoSide | Initiator | Recipient

  datatype Progression = Progression(withMappings: bool, from: PunchState, to: PunchState)

  const PROGRESSIONS: seq<Progression> := [
    Progression(false, NoState, InitiatedPredictions),
    Progression(true, NoState, ReceivedPredictions),
    Progression(true, InitiatedPredictions, UpdatedPredictions)
  ]

  function SideOf(s: PunchState): Side {
    match s
    case InitiatedPredictions => Initiator
    case UpdatedPredictions => Initiator
    case ReceivedPredictions => Recipient
    case NoState => NoSide
  }

  /** The first row that fits; None is the "Invalid puncher state progression" exception. */
  function Lookup(rows: seq<Progression>, withMappings: bool, s: PunchState): Option<PunchState> {
    if |rows| == 0 then None
    else if rows[0].withMappings == withMappings && rows[0].from == s then Some(rows[0].to)
    else Lookup(rows[1..], withMappings, s)
  }

  function TcpPuncherStates(withMappings: bool, s: PunchState): (r: Option<PunchState>)
    ensures r == if s.NoState? then Some(if withMappings then ReceivedPredictions else InitiatedPredictions)
                 else if s.InitiatedPredictions? && withMappings then Some(UpdatedPredictions)
                 else None
  {
    var rows := PROGRESSIONS;
    assert rows[1..] == [rows[1], rows[2]] && rows[1..][1..] == [rows[2]] && rows[1..][1..][1..] == [];
    Lookup(rows, withMappings, s)
  }

  /** A puncher's protocol fields. */
  datatype Fields = Fields(state: PunchState, side: Side, startTime: real, recv: seq<NATMapping>,
                           send: seq<NATMapping>, preloaded: seq<NATMapping>)

  const BLANK := Fields(NoState, NoSide, 0.0, [], [], [])

  const NTP_MEET_STEP := 6.0

  /** The fields once the prediction is back: `recv` and `start` are what proto was called with,
      `clock` the synchronised time. */
  function Fetched(f: Fields, mode: PunchMode, recv: seq<NATMapping>, start: real, clock: real,
                   predicted: seq<NATMapping>, preloaded: seq<NATMapping>): Fields {
    var theirs := if |recv| > 0 then recv else predicted;
    f.(send := predicted, preloaded := preloaded,
       recv := if f.side.Initiator? then SelfPunched(mode, theirs) else theirs,
       startTime := if start != 0.0 then start else clock + NTP_MEET_STEP)
  }

  /** The fields after the final state's update, which may fail part of the way through. */
  function Refreshed(f: Fields, c: ReplyContext, recv: seq<NATMapping>): (Fields, bool) {
    var (ms, ok) := ForReplyPorts(c.(preloaded := f.preloaded), recv, f.send);
    (f.(recv := ms), ok)
  }

  /** How far tcp_hole_punch gets with a puncher before it awaits or ends. */
  datatype Entered = BadProgression | NoMappings | Suspended | Updated(ok: bool)

  /** The puncher's fields then.  A reply without mappings fails an assertion before proto is called. */
  function EnterPunch(f: Fields, reply: bool, recv: seq<NATMapping>, c: ReplyContext): (Fields, Entered) {
    if reply && |recv| == 0 then (f, NoMappings)
    else
      match TcpPuncherStates(|recv| > 0, f.state)
      case None => (f, BadProgression)
      case Some(s) =>
        var g := f.(state := s, side := SideOf(s));
        if s.UpdatedPredictions? then
          var (h, ok) := Refreshed(g, c, recv);
          (h, Updated(ok))
        else
          (g, Suspended)
  }

  /** One interface's entry in a peer address: its NAT, and everything else in it.  A puncher
      shares its entries with the addresses they come from and sees their later changes. */
  class AddrEntry {
    var natInfo: Nat
    const rest: string

    constructor (natInfo: Nat, rest: string)
      ensures this.natInfo == natInfo && this.rest == rest
    {
      this.natInfo, this.rest := natInfo, rest;
    }
  }

  /** Entries compare by contents. */
  predicate SameEntry(a: AddrEntry, b: AddrEntry)
    reads a, b
  {
    a.natInfo == b.natInfo && a.rest == b.rest
  }

  /** Each mapping announces its local port, a thousand above the one it had. */
  predicate MovedUp(to: seq<NATMapping>, from: seq<NATMapping>) {
    && |to| == |from|
    && forall i :: 0 <= i < |to| ==>
         to[i].local == to[i].remote == PortWrap(from[i].local + 1000) && to[i].reply == from[i].reply
  }

  class TCPPuncher {
    const mode: PunchMode
    const src: AddrEntry
    var dest: AddrEntry
    var state: PunchState
    var side: Side
    var startTime: real
    var recvMappings: seq<NATMapping>
    var sendMappings: seq<NATMapping>
    var preloadedMappings: seq<NATMapping>

    function View(): Fields
      reads this
    {
      Fields(state, side, startTime, recvMappings, sendMappings, preloadedMappings)
    }

    constructor (mode: PunchMode, src: AddrEntry, dest: AddrEntry)
      ensures View() == BLANK && this.mode == mode && this.src == src && this.dest == dest
    {
      this.mode, this.src, this.dest := mode, src, dest;
      state, side, startTime := NoState, NoSide, 0.0;
      recvMappings, sendMappings, preloadedMappings := [], [], [];
    }

    /** proto up to its first await.  It fails, changing nothing, exactly on an invalid progression. */
    method Enter(recv: seq<NATMapping>) returns (ok: bool)
      modifies `state, `side
      ensures ok <==> TcpPuncherStates(|recv| > 0, old(state)).Some?
      ensures ok ==> View() == old(View()).(state := TcpPuncherStates(|recv| > 0, old(state)).value,
                                            side := SideOf(state))
      ensures !ok ==> View() == old(View())
    {
      var next := TcpPuncherStates(|recv| > 0, state);
      if next.None? {
        return false;
      }
      state := next.value;
      side := SideOf(state);
      ok := true;
    }

    /** The rest of proto in the two fetching states: what it returns is sent to the other side. */
    method FinishFetch(recv: seq<NATMapping>, start: real, clock: real,
                       predicted: seq<NATMapping>, preloaded: seq<NATMapping>)
      returns (send: seq<NATMapping>, meet: real)
      modifies this
      ensures dest == old(dest)
      ensures View() == Fetched(old(View()), mode, recv, start, clock, predicted, preloaded)
      ensures send == sendMappings == predicted && meet == startTime == if start != 0.0 then start else clock + 6.0
      ensures old(side) != Initiator || mode != Self ==> recvMappings == if recv != [] then recv else predicted
      ensures old(side) == Initiator && mode == Self ==>
                MovedUp(recvMappings, if recv != [] then recv else predicted)
    {
      sendMappings, preloadedMappings := predicted, preloaded;
      recvMappings := if |recv| > 0 then recv else sendMappings;
      if side.Initiator? {
        var copied := new NATMapping[|recvMappings|](i requires 0 <= i < |recvMappings| reads this => recvMappings[i]);
        assert copied[..] == recvMappings;
        SelfPunchPatch(mode, copied);
        recvMappings := copied[..];
      }
      var arranged := clock + NTP_MEET_STEP;
      startTime := if start != 0.0 then start else arranged;
      send, meet := sendMappings, startTime;
    }

    /** The rest of proto in the final state.  The two mapping lists are handed to the update in the
        opposite order to its parameters' names, so it is the received list that is adjusted. */
    method FinishUpdate(recv: seq<NATMapping>, picks: nat -> nat) returns (ok: bool)
      modifies `recvMappings
      ensures (View(), ok) == Refreshed(old(View()), ReplyContext(mode, src.natInfo, dest.natInfo, [], picks), recv)
    {
      var target := new NATMapping[|recv|](i requires 0 <= i < |recv| => recv[i]);
      assert target[..] == recv;
      var c := ReplyContext(mode, src.natInfo, dest.natInfo, preloadedMappings, picks);
      ok := UpdateForReplyPorts(c, target, sendMappings);
      recvMappings := target[..];
    }
  }

  lemma RefreshedShape(f: Fields, c: ReplyContext, recv: seq<NATMapping>)
    ensures var g := Refreshed(f, c, recv).0;
            |g.recv| == |recv| && g == f.(recv := g.recv)
  {
  }

  /** Our own mapping in this place leaves the peer's port alone: it asks for no reply port, or for that one. */
  predicate StaysAimed(c: ReplyContext, sent: NATMapping, ours: seq<NATMapping>, j: nat) {
    j >= |ours| || !NeedsReplyPort(c, ours[j]) || ours[j].reply == sent.remote
  }

  /** What the update does to the received mappings: an entry stays as the peer sent it whenever our
      own mapping in that place asks for no reply port; otherwise a completed update points it at that
      port.  So it still aims at the port the peer sent exactly when that is the port asked for. */
  lemma RefreshedEntry(f: Fields, c: ReplyContext, recv: seq<NATMapping>, j: nat)
    requires j < |recv|
    ensures var (g, ok) := Refreshed(f, c, recv);
            && |g.recv| == |recv| && g == f.(recv := g.recv)
            && (j >= |f.send| || f.send[j].reply == 0 ==> g.recv[j] == recv[j])
            && (ok && j < |f.send| && NeedsReplyPort(c, f.send[j]) ==> g.recv[j].remote == f.send[j].reply)
            && (ok ==> (g.recv[j].remote == recv[j].remote <==> StaysAimed(c, recv[j], f.send, j)))
  {
    var c' := c.(preloaded := f.preloaded);
    var (use, own) := NatsIntersect(c.src.range, c.dest.range, Min(|recv|, |f.send|));
    if use.Some? {
      UpdateIsLocal(WithRange(c', own), use.value, 0, recv, f.send, j);
      assert j < |f.send| ==> (NeedsReplyPort(WithRange(c', own), f.send[j]) <==> NeedsReplyPort(c, f.send[j]));
    }
  }
}
