/**
 Hole-punch rendezvous between any number of nodes over a signalling network that
 loses, reorders and duplicates messages.  A message once sent stays in `net` and
 may arrive any number of times, anywhere, or never.  Every pipe id is drawn afresh.
 */
module Rendezvous {
  import opened NatPredict
  import opened Options
  import opened TcpPuncher

  type NodeId = string
  type PipeId = string

  /** A node's table entry for one pipe id. */
  datatype Key = Key(node: NodeId, pipe: PipeId)

  /** A tcp_hole_punch coroutine suspended while its mappings are predicted. */
  datatype Fetching = Fetching(peer: NodeId, recv: seq<NATMapping>, start: real)

  datatype PunchMsg = PunchMsg(src: NodeId, dest: NodeId, pipe: PipeId, ntp: real, mappings: seq<NATMapping>)

  datatype Session = Session(owner: NodeId, peer: NodeId)

  /** The update a side has made: what it was given, and whether it got to its end. */
  datatype Update = Update(context: ReplyContext, ok: bool)

  datatype World = World(
    sessions: map<PipeId, Session>,  // who opened which pipe id to whom
    punchers: map<Key, Fields>,      // every node's tcp_punch_clients
    fetching: map<Key, Fetching>,
    updated: map<Key, Update>,
    seen: set<Key>,                  // every node's seen table
    net: set<PunchMsg>,
    invalid: bool)                   // some proto call raised "Invalid puncher state progression"

  datatype Step =
    | Connect(owner: NodeId, peer: NodeId, pipe: PipeId)
    | Predicted(key: Key, mode: PunchMode, predicted: seq<NATMapping>, preloaded: seq<NATMapping>, clock: real)
    | Arrive(at: NodeId, msg: PunchMsg, live: bool, context: ReplyContext)

  const EMPTY := World(map[], map[], map[], map[], {}, {}, false)

  /** What else happens, by how far the puncher got. */
  function Settled(w: World, key: Key, entered: Entered, fetch: Fetching, c: ReplyContext): World {
    match entered
    case BadProgression => w.(invalid := true)
    case Suspended => w.(fetching := w.fetching[key := fetch])
    case Updated(ok) => w.(updated := w.updated[key := Update(c, ok)])
    case NoMappings => w
  }

  /** The puncher a call for `key` meets. */
  function Met(w: World, key: Key): Fields {
    if key in w.punchers then w.punchers[key] else BLANK
  }

  /** tcp_hole_punch up to its first await: create or reuse the puncher and enter its protocol. */
  function TcpHolePunch(w: World, key: Key, peer: NodeId, reply: bool, recv: seq<NATMapping>, start: real,
                        c: ReplyContext): World {
    var f := Met(w, key);
    var (g, entered) := EnterPunch(f, reply, recv, c);
    Settled(w.(punchers := w.punchers[key := g]), key, entered, Fetching(peer, recv, start), c)
  }

  /** A signal message reaches a node: wrong destination, already seen, expired, or acted on. */
  function Handle(w: World, at: NodeId, msg: PunchMsg, live: bool, c: ReplyContext): World {
    var key := Key(at, msg.pipe);
    if at != msg.dest || key in w.seen then w
    else if !live then w.(seen := w.seen + {key})
    else TcpHolePunch(w.(seen := w.seen + {key}), key, msg.src, true, msg.mappings, msg.ntp, c)
  }

  /** A node acts once for a pipe id: what it handled is seen, in time or too late, and nothing later for the
      same id changes anything; messages for others and expired ones reach no puncher. */
  lemma ActedOnOnce(w: World, at: NodeId, msg: PunchMsg, live: bool, c: ReplyContext,
                    again: PunchMsg, live': bool, c': ReplyContext)
    requires again.pipe == msg.pipe
    ensures var u := Handle(w, at, msg, live, c);
            && (at == msg.dest ==> Key(at, msg.pipe) in u.seen && Handle(u, at, again, live', c') == u)
            && (at != msg.dest || !live ==> u.punchers == w.punchers && u.fetching == w.fetching && u.net == w.net)
            && (at != msg.dest ==> u == w)
  {
  }

  /** The prediction is back: finish the fields and send our mappings to the peer. */
  function Resume(w: World, step: Step): World
    requires step.Predicted? && step.key in w.fetching && step.key in w.punchers
  {
    var fetch := w.fetching[step.key];
    var f := Fetched(w.punchers[step.key], step.mode, fetch.recv, fetch.start, step.clock, step.predicted,
                     step.preloaded);
    w.(punchers := w.punchers[step.key := f],
       fetching := w.fetching - {step.key},
       net := w.net + {PunchMsg(step.key.node, fetch.peer, step.key.pipe, f.startTime, f.send)})
  }

  function PipeOf(step: Step): PipeId {
    match step
    case Connect(_, _, pipe) => pipe
    case Predicted(key, _, _, _, _) => key.pipe
    case Arrive(_, msg, _, _) => msg.pipe
  }

  predicate Enabled(w: World, step: Step) {
    match step
    case Connect(_, _, pipe) => pipe !in w.sessions
    case Predicted(key, _, predicted, _, _) => key in w.fetching && key in w.punchers && |predicted| > 0
    case Arrive(_, msg, _, _) => msg in w.net
  }

  /** Opening a pipe never reaches the update, so its context does not matter. */
  const NO_CONTEXT := ReplyContext(Remote, OPEN_NAT, OPEN_NAT, [], (i: nat) => i)

  function Apply(w: World, step: Step): World
    requires Enabled(w, step)
  {
    match step
    case Connect(owner, peer, pipe) =>
      TcpHolePunch(w.(sessions := w.sessions[pipe := Session(owner, peer)]),
                   Key(owner, pipe), peer, false, [], 0.0, NO_CONTEXT)
    case Predicted(_, _, _, _, _) => Resume(w, step)
    case Arrive(at, msg, live, c) => Handle(w, at, msg, live, c)
  }

  /** Where a run of the whole network leads, when each step is possible in turn. */
  function Replay(steps: seq<Step>): Option<World> {
    if |steps| == 0 then Some(EMPTY)
    else
      match Replay(steps[..|steps| - 1])
      case None => None
      case Some(w) =>
        var step := steps[|steps| - 1];
        if Enabled(w, step) then Some(Apply(w, step)) else None
  }

  // ------------------------------------------------------------------
  // What holds of one pipe id in every reachable world
  // ------------------------------------------------------------------

  predicate Unused(w: World, pipe: PipeId) {
    && (forall k <- w.punchers :: k.pipe != pipe)
    && (forall k <- w.fetching :: k.pipe != pipe)
    && (forall k <- w.updated :: k.pipe != pipe)
    && (forall k <- w.seen :: k.pipe != pipe)
    && (forall m <- w.net :: m.pipe != pipe)
  }

  /** Mappings a side holds after the update, against what its peer sent. */
  predicate AgreesWith(recv: seq<NATMapping>, sent: seq<NATMapping>, ours: seq<NATMapping>) {
    && |recv| == |sent|
    && forall j :: 0 <= j < |recv| && (j >= |ours| || ours[j].reply == 0) ==> recv[j] == sent[j]
  }

  /** After a completed update: which entries still aim where the peer said. */
  predicate AimsExactly(recv: seq<NATMapping>, sent: seq<NATMapping>, ours: seq<NATMapping>, c: ReplyContext) {
    && |recv| == |sent|
    && forall j :: 0 <= j < |recv| ==> (recv[j].remote == sent[j].remote <==> StaysAimed(c, sent[j], ours, j))
  }

  /** The side that opened the pipe. */
  predicate OwnerOk(w: World, pipe: PipeId, s: Session) {
    var a := Key(s.owner, pipe);
    && a in w.punchers
    && var f := w.punchers[a];
    && f.side.Initiator?
    && (f.state.InitiatedPredictions? || f.state.UpdatedPredictions?)
    && (a in w.fetching ==> f.state.InitiatedPredictions? && w.fetching[a] == Fetching(s.peer, [], 0.0))
    && (a !in w.fetching ==> |f.send| > 0 && PunchMsg(s.owner, s.peer, pipe, f.startTime, f.send) in w.net)
    && (f.state.UpdatedPredictions? ==> a in w.seen)
  }

  /** The side that was asked, once it has a puncher; it exists only after the first message was sent. */
  predicate PeerOk(w: World, pipe: PipeId, s: Session) {
    var a, b := Key(s.owner, pipe), Key(s.peer, pipe);
    s.owner != s.peer && b in w.punchers ==>
      && a in w.punchers && a !in w.fetching && b in w.seen
      && var f, g := w.punchers[a], w.punchers[b];
      && g.state.ReceivedPredictions? && g.side.Recipient?
      && (b in w.fetching ==> w.fetching[b] == Fetching(s.owner, f.send, f.startTime))
      && (b !in w.fetching ==>
            && |g.send| > 0
            && PunchMsg(s.peer, s.owner, pipe, g.startTime, g.send) in w.net
            && g.recv == f.send
            && (f.startTime != 0.0 ==> g.startTime == f.startTime))
  }

  /** An updated owner has heard from its peer. */
  predicate UpdateOk(w: World, pipe: PipeId, s: Session) {
    var a, b := Key(s.owner, pipe), Key(s.peer, pipe);
    a in w.punchers && w.punchers[a].state.UpdatedPredictions? ==>
      && a !in w.fetching && b in w.punchers && b !in w.fetching
      && AgreesWith(w.punchers[a].recv, w.punchers[b].send, w.punchers[a].send)
      && a in w.updated
      && (w.updated[a].ok ==>
            AimsExactly(w.punchers[a].recv, w.punchers[b].send, w.punchers[a].send, w.updated[a].context))
  }

  /** Nobody else holds anything for this pipe id, and at most two messages exist for it. */
  predicate OnlyTheTwo(w: World, pipe: PipeId, s: Session) {
    var a, b := Key(s.owner, pipe), Key(s.peer, pipe);
    && (forall k <- w.punchers :: k.pipe == pipe ==> k == a || k == b)
    && (forall k <- w.fetching :: k.pipe == pipe ==> k in w.punchers)
    && (forall k <- w.updated :: k.pipe == pipe ==>
          k == a && a in w.punchers && w.punchers[a].state.UpdatedPredictions?)
    && (forall m <- w.net :: m.pipe == pipe ==>
          || (a in w.punchers && a !in w.fetching
              && m == PunchMsg(s.owner, s.peer, pipe, w.punchers[a].startTime, w.punchers[a].send))
          || (s.owner != s.peer && b in w.punchers && b !in w.fetching
              && m == PunchMsg(s.peer, s.owner, pipe, w.punchers[b].startTime, w.punchers[b].send)))
  }

  predicate PipeOk(w: World, pipe: PipeId) {
    if pipe !in w.sessions then Unused(w, pipe)
    else
      var s := w.sessions[pipe];
      OwnerOk(w, pipe, s) && PeerOk(w, pipe, s) && UpdateOk(w, pipe, s) && OnlyTheTwo(w, pipe, s)
  }

  ghost predicate Inv(w: World) {
    !w.invalid && forall pipe :: PipeOk(w, pipe)
  }

  // ------------------------------------------------------------------
  // Every step keeps it
  // ------------------------------------------------------------------

  /** The two worlds hold the same things for this pipe id. */
  ghost predicate Same(w: World, v: World, pipe: PipeId) {
    && (pipe in w.sessions <==> pipe in v.sessions)
    && (pipe in w.sessions ==> w.sessions[pipe] == v.sessions[pipe])
    && (forall k: Key :: k.pipe == pipe ==> (k in w.punchers <==> k in v.punchers))
    && (forall k <- w.punchers :: k.pipe == pipe ==> k in v.punchers && w.punchers[k] == v.punchers[k])
    && (forall k: Key :: k.pipe == pipe ==> (k in w.fetching <==> k in v.fetching))
    && (forall k <- w.fetching :: k.pipe == pipe ==> k in v.fetching && w.fetching[k] == v.fetching[k])
    && (forall k: Key :: k.pipe == pipe ==> (k in w.updated <==> k in v.updated))
    && (forall k <- w.updated :: k.pipe == pipe ==> k in v.updated && w.updated[k] == v.updated[k])
    && (forall k: Key :: k.pipe == pipe ==> (k in w.seen <==> k in v.seen))
    && (forall m: PunchMsg :: m.pipe == pipe ==> (m in w.net <==> m in v.net))
  }

  lemma SameKeepsPipe(w: World, v: World, pipe: PipeId)
    requires Same(w, v, pipe) && PipeOk(w, pipe)
    ensures PipeOk(v, pipe)
  {
  }

  lemma PuncherEdit(w: World, key: Key, f: Fields, pipe: PipeId)
    requires key.pipe != pipe
    ensures Same(w, w.(punchers := w.punchers[key := f]), pipe)
  {
  }

  lemma SettledEdit(w: World, key: Key, entered: Entered, fetch: Fetching, c: ReplyContext, pipe: PipeId)
    requires key.pipe != pipe
    ensures Same(w, Settled(w, key, entered, fetch, c), pipe)
  {
  }

  lemma SameTransitive(u: World, v: World, w: World, pipe: PipeId)
    requires Same(u, v, pipe) && Same(v, w, pipe)
    ensures Same(u, w, pipe)
  {
  }

  lemma PunchTouchesOwnPipe(w: World, key: Key, peer: NodeId, reply: bool, recv: seq<NATMapping>, start: real,
                            c: ReplyContext, pipe: PipeId)
    requires key.pipe != pipe
    ensures Same(w, TcpHolePunch(w, key, peer, reply, recv, start, c), pipe)
  {
    var f := Met(w, key);
    var (g, entered) := EnterPunch(f, reply, recv, c);
    var v := w.(punchers := w.punchers[key := g]);
    PuncherEdit(w, key, g, pipe);
    SettledEdit(v, key, entered, Fetching(peer, recv, start), c, pipe);
    SameTransitive(w, v, Settled(v, key, entered, Fetching(peer, recv, start), c), pipe);
  }

  lemma ResumeTouchesOwnPipe(w: World, step: Step, pipe: PipeId)
    requires step.Predicted? && Enabled(w, step) && pipe != step.key.pipe
    ensures Same(w, Resume(w, step), pipe)
  {
  }

  lemma ConnectTouchesOwnPipe(w: World, step: Step, pipe: PipeId)
    requires step.Connect? && Enabled(w, step) && pipe != step.pipe
    ensures Same(w, Apply(w, step), pipe)
  {
    var v := w.(sessions := w.sessions[step.pipe := Session(step.owner, step.peer)]);
    PunchTouchesOwnPipe(v, Key(step.owner, step.pipe), step.peer, false, [], 0.0, NO_CONTEXT, pipe);
    SameTransitive(w, v, Apply(w, step), pipe);
  }

  lemma ArriveTouchesOwnPipe(w: World, step: Step, pipe: PipeId)
    requires step.Arrive? && Enabled(w, step) && pipe != step.msg.pipe
    ensures Same(w, Apply(w, step), pipe)
  {
    var m, key := step.msg, Key(step.at, step.msg.pipe);
    var v := w.(seen := w.seen + {key});
    if step.at == m.dest && key !in w.seen && step.live {
      PunchTouchesOwnPipe(v, key, m.src, true, m.mappings, m.ntp, step.context, pipe);
      SameTransitive(w, v, Apply(w, step), pipe);
    }
  }

  lemma OthersUntouched(w: World, step: Step, pipe: PipeId)
    requires Enabled(w, step) && pipe != PipeOf(step)
    ensures Same(w, Apply(w, step), pipe)
  {
    match step {
      case Connect(_, _, _) => ConnectTouchesOwnPipe(w, step, pipe);
      case Predicted(_, _, _, _, _) => ResumeTouchesOwnPipe(w, step, pipe);
      case Arrive(_, _, _, _) => ArriveTouchesOwnPipe(w, step, pipe);
    }
  }

  lemma ConnectOk(w: World, step: Step)
    requires Inv(w) && Enabled(w, step) && step.Connect?
    ensures PipeOk(Apply(w, step), step.pipe) && !Apply(w, step).invalid
  {
    assert PipeOk(w, step.pipe);
  }

  lemma PredictedOk(w: World, step: Step)
    requires Inv(w) && Enabled(w, step) && step.Predicted?
    ensures PipeOk(Apply(w, step), step.key.pipe) && !Apply(w, step).invalid
  {
    assert PipeOk(w, step.key.pipe);
  }

  /** The reply reaches an initiator that waits for it. */
  lemma ReplyLands(w: World, msg: PunchMsg, c: ReplyContext)
    requires var a := Key(msg.dest, msg.pipe);
             a in w.punchers && w.punchers[a].state.InitiatedPredictions? && a !in w.seen && |msg.mappings| > 0
    ensures var a := Key(msg.dest, msg.pipe);
            var (h, ok) := Refreshed(w.punchers[a].(state := UpdatedPredictions, side := Initiator), c, msg.mappings);
            Handle(w, msg.dest, msg, true, c)
            == w.(seen := w.seen + {a}, punchers := w.punchers[a := h], updated := w.updated[a := Update(c, ok)])
  {
  }

  lemma RefreshedAgrees(g: Fields, c: ReplyContext, sent: seq<NATMapping>)
    ensures var (h, ok) := Refreshed(g, c, sent);
            && h == g.(recv := h.recv) && AgreesWith(h.recv, sent, g.send)
            && (ok ==> AimsExactly(h.recv, sent, g.send, c))
  {
    var (h, ok) := Refreshed(g, c, sent);
    RefreshedShape(g, c, sent);
    forall j | 0 <= j < |sent|
      ensures j >= |g.send| || g.send[j].reply == 0 ==> h.recv[j] == sent[j]
      ensures ok ==> (h.recv[j].remote == sent[j].remote <==> StaysAimed(c, sent[j], g.send, j))
    {
      RefreshedEntry(g, c, sent, j);
    }
  }

  /** The owner's puncher exists already, so a live first message moves it to its final state. */
  lemma ArriveAtOwner(w: World, step: Step)
    requires Inv(w) && Enabled(w, step) && step.Arrive? && step.live
    requires step.at == step.msg.dest && Key(step.at, step.msg.pipe) !in w.seen
    requires step.msg.pipe in w.sessions && step.at == w.sessions[step.msg.pipe].owner
    ensures PipeOk(Apply(w, step), step.msg.pipe) && !Apply(w, step).invalid
  {
    var msg, pipe := step.msg, step.msg.pipe;
    assert PipeOk(w, pipe);
    var a := Key(step.at, pipe);
    var f := w.punchers[a];
    assert f.state.InitiatedPredictions? && a !in w.fetching;
    var g := f.(state := UpdatedPredictions, side := Initiator);
    var (h, ok) := Refreshed(g, step.context, msg.mappings);
    RefreshedAgrees(g, step.context, msg.mappings);
    ReplyLands(w, msg, step.context);
  }

  /** The peer has no puncher before the first live message, which makes it the recipient. */
  lemma ArriveAtPeer(w: World, step: Step)
    requires Inv(w) && Enabled(w, step) && step.Arrive? && step.live
    requires step.at == step.msg.dest && Key(step.at, step.msg.pipe) !in w.seen
    requires step.msg.pipe in w.sessions && step.at != w.sessions[step.msg.pipe].owner
    ensures PipeOk(Apply(w, step), step.msg.pipe) && !Apply(w, step).invalid
  {
    var msg, pipe := step.msg, step.msg.pipe;
    assert PipeOk(w, pipe);
    var b := Key(step.at, pipe);
    assert b !in w.punchers && step.at == w.sessions[pipe].peer;
    var g := BLANK.(state := ReceivedPredictions, side := Recipient);
    assert Apply(w, step) == w.(seen := w.seen + {b}, punchers := w.punchers[b := g],
                                fetching := w.fetching[b := Fetching(msg.src, msg.mappings, msg.ntp)]);
  }

  lemma ArriveOk(w: World, step: Step)
    requires Inv(w) && Enabled(w, step) && step.Arrive?
    ensures PipeOk(Apply(w, step), step.msg.pipe) && !Apply(w, step).invalid
  {
    var pipe := step.msg.pipe;
    assert PipeOk(w, pipe);
    if step.at == step.msg.dest && Key(step.at, pipe) !in w.seen {
      if step.live {
        if step.at == w.sessions[pipe].owner {
          ArriveAtOwner(w, step);
        } else {
          ArriveAtPeer(w, step);
        }
      }
    }
  }

  lemma StepKeepsInv(w: World, step: Step)
    requires Inv(w) && Enabled(w, step)
    ensures Inv(Apply(w, step))
  {
    var w' := Apply(w, step);
    match step {
      case Connect(_, _, _) => ConnectOk(w, step);
      case Predicted(_, _, _, _, _) => PredictedOk(w, step);
      case Arrive(_, _, _, _) => ArriveOk(w, step);
    }
    forall pipe | pipe != PipeOf(step)
      ensures PipeOk(w', pipe)
    {
      assert PipeOk(w, pipe);
      OthersUntouched(w, step, pipe);
      SameKeepsPipe(w, w', pipe);
    }
  }

  /** In every run no proto call meets an invalid progression, and each pipe id is in order. */
  lemma {:induction false} NeverInvalid(steps: seq<Step>)
    requires Replay(steps).Some?
    ensures Inv(Replay(steps).value)
    decreases |steps|
  {
    if |steps| == 0 {
    } else {
      NeverInvalid(steps[..|steps| - 1]);
      StepKeepsInv(Replay(steps[..|steps| - 1]).value, steps[|steps| - 1]);
    }
  }

  /** In every run, whatever step comes next, the protocol call it makes is an allowed progression. */
  lemma EveryCallAllowed(steps: seq<Step>, step: Step)
    requires Replay(steps).Some? && Enabled(Replay(steps).value, step)
    ensures var w := Replay(steps).value;
            match step
            case Connect(owner, _, pipe) =>
              EnterPunch(Met(w, Key(owner, pipe)), false, [], NO_CONTEXT).1 != BadProgression
            case Arrive(at, msg, live, c) =>
              at == msg.dest && live && Key(at, msg.pipe) !in w.seen ==>
                EnterPunch(Met(w, Key(at, msg.pipe)), true, msg.mappings, c).1 != BadProgression
            case Predicted(_, _, _, _, _) => true
  {
    NeverInvalid(steps);
    StepKeepsInv(Replay(steps).value, step);
  }

  // ------------------------------------------------------------------
  // The rendezvous does happen
  // ------------------------------------------------------------------

  lemma Extend(steps: seq<Step>, step: Step)
    requires Replay(steps).Some? && Enabled(Replay(steps).value, step)
    ensures Replay(steps + [step]) == Some(Apply(Replay(steps).value, step))
  {
    assert (steps + [step])[..|steps|] == steps;
  }

  lemma Follow(steps: seq<Step>, step: Step) returns (more: seq<Step>)
    requires Replay(steps).Some? && Enabled(Replay(steps).value, step)
    ensures Replay(more) == Some(Apply(Replay(steps).value, step))
  {
    Extend(steps, step);
    more := steps + [step];
  }

  /** A request has arrived and been answered. */
  predicate Answered(w: World, owner: NodeId, peer: NodeId, pipe: PipeId, ours: seq<NATMapping>,
                     theirs: seq<NATMapping>, preloaded: seq<NATMapping>, meet: real) {
    var a, b := Key(owner, pipe), Key(peer, pipe);
    && a in w.punchers && b in w.punchers && a !in w.fetching && a !in w.seen
    && w.punchers[a].state.InitiatedPredictions? && w.punchers[a].send == ours
    && w.punchers[a].preloaded == preloaded && w.punchers[a].startTime == w.punchers[b].startTime == meet
    && w.punchers[b].send == theirs && w.punchers[b].recv == ours
    && PunchMsg(peer, owner, pipe, meet, theirs) in w.net
  }

  /** The first half of a rendezvous: the request arrives and is answered. */
  lemma RequestAnswered(owner: NodeId, peer: NodeId, pipe: PipeId, ours: seq<NATMapping>, theirs: seq<NATMapping>,
                        preloaded: seq<NATMapping>, clock: real, later: real) returns (steps: seq<Step>)
    requires owner != peer && |ours| > 0 && |theirs| > 0 && clock + NTP_MEET_STEP != 0.0
    ensures Replay(steps).Some?
    ensures Answered(Replay(steps).value, owner, peer, pipe, ours, theirs, preloaded, clock + NTP_MEET_STEP)
  {
    var a, b := Key(owner, pipe), Key(peer, pipe);
    var first := PunchMsg(owner, peer, pipe, clock + NTP_MEET_STEP, ours);
    steps := [];
    steps := Follow(steps, Connect(owner, peer, pipe));
    steps := Follow(steps, Predicted(a, Remote, ours, preloaded, clock));
    steps := Follow(steps, Arrive(peer, first, true, NO_CONTEXT));
    steps := Follow(steps, Predicted(b, Remote, theirs, [], later));
  }

  /** The second half: what the reply makes of the initiator's mappings; nobody else's change. */
  lemma ReplyTaken(w: World, owner: NodeId, peer: NodeId, pipe: PipeId, ours: seq<NATMapping>,
                   theirs: seq<NATMapping>, preloaded: seq<NATMapping>, meet: real, c: ReplyContext)
    requires owner != peer && |theirs| > 0 && Answered(w, owner, peer, pipe, ours, theirs, preloaded, meet)
    ensures var a, b := Key(owner, pipe), Key(peer, pipe);
            var v := Handle(w, owner, PunchMsg(peer, owner, pipe, meet, theirs), true, c);
            var (h, ok) := Refreshed(w.punchers[a].(state := UpdatedPredictions, side := Initiator), c, theirs);
            && a in v.punchers && b in v.punchers && a in v.updated
            && v.punchers[a] == h && v.punchers[b] == w.punchers[b] && v.updated[a] == Update(c, ok)
            && h.send == ours && h.startTime == meet
  {
    ReplyLands(w, PunchMsg(peer, owner, pipe, meet, theirs), c);
    RefreshedShape(w.punchers[Key(owner, pipe)].(state := UpdatedPredictions, side := Initiator), c, theirs);
  }

  lemma NoReplyPorts(recv: seq<NATMapping>, sent: seq<NATMapping>, ours: seq<NATMapping>)
    requires AgreesWith(recv, sent, ours) && forall m <- ours :: m.reply == 0
    ensures recv == sent
  {
    forall j | 0 <= j < |recv| ensures recv[j] == sent[j] {
      assert j < |ours| ==> ours[j] in ours;
    }
  }

  /** With nothing lost, two nodes whose mappings need no reply ports end up aiming at each other's
      mappings at the same time. */
  lemma RendezvousCompletes(owner: NodeId, peer: NodeId, pipe: PipeId, ours: seq<NATMapping>, theirs: seq<NATMapping>,
                            clock: real, later: real) returns (steps: seq<Step>)
    requires owner != peer && |ours| > 0 && |theirs| > 0 && clock + NTP_MEET_STEP != 0.0
    requires forall m <- ours :: m.reply == 0
    ensures Replay(steps).Some?
    ensures var w := Replay(steps).value; var a, b := Key(owner, pipe), Key(peer, pipe);
            && a in w.punchers && b in w.punchers
            && w.punchers[a].send == ours == w.punchers[b].recv
            && w.punchers[b].send == theirs == w.punchers[a].recv
            && w.punchers[a].startTime == w.punchers[b].startTime == clock + NTP_MEET_STEP
  {
    var meet := clock + NTP_MEET_STEP;
    steps := RequestAnswered(owner, peer, pipe, ours, theirs, [], clock, later);
    var w := Replay(steps).value;
    ReplyTaken(w, owner, peer, pipe, ours, theirs, [], meet, NO_CONTEXT);
    var f := w.punchers[Key(owner, pipe)].(state := UpdatedPredictions, side := Initiator);
    RefreshedAgrees(f, NO_CONTEXT, theirs);
    NoReplyPorts(Refreshed(f, NO_CONTEXT, theirs).0.recv, theirs, ours);
    steps := Follow(steps, Arrive(owner, PunchMsg(peer, owner, pipe, meet, theirs), true, NO_CONTEXT));
  }

  // ------------------------------------------------------------------
  // What that means for a pair of nodes
  // ------------------------------------------------------------------

  /** At most two distinct punch messages ever exist for a pipe id: one from each side. */
  lemma AtMostTwoMessages(steps: seq<Step>, m1: PunchMsg, m2: PunchMsg)
    requires Replay(steps).Some? && m1 in Replay(steps).value.net && m2 in Replay(steps).value.net
    requires m1.pipe == m2.pipe
    ensures m1.pipe in Replay(steps).value.sessions
    ensures var s := Replay(steps).value.sessions[m1.pipe];
            && ((m1.src == s.owner && m1.dest == s.peer) || (m1.src == s.peer && m1.dest == s.owner))
            && (m1.src == m2.src ==> m1 == m2)
  {
    NeverInvalid(steps);
    assert PipeOk(Replay(steps).value, m1.pipe);
  }

  /** Between two distinct nodes one is always the initiator and the other the recipient. */
  lemma SidesAreOpposite(steps: seq<Step>, pipe: PipeId)
    requires Replay(steps).Some? && pipe in Replay(steps).value.sessions
    ensures var w := Replay(steps).value; var s := w.sessions[pipe];
            && Key(s.owner, pipe) in w.punchers && w.punchers[Key(s.owner, pipe)].side.Initiator?
            && (s.owner != s.peer && Key(s.peer, pipe) in w.punchers ==> w.punchers[Key(s.peer, pipe)].side.Recipient?)
            && (forall k <- w.punchers :: k.pipe == pipe ==> k.node == s.owner || k.node == s.peer)
  {
    NeverInvalid(steps);
    assert PipeOk(Replay(steps).value, pipe);
  }

  /** Once both sides hold their mappings they meet at the same time (unless the initiator's clock put
      its meeting at exactly zero, which counts as unset) and the recipient aims at what was sent. */
  lemma SidesMeet(steps: seq<Step>, pipe: PipeId)
    requires Replay(steps).Some? && pipe in Replay(steps).value.sessions
    requires var w := Replay(steps).value; var s := w.sessions[pipe];
             s.owner != s.peer && Key(s.peer, pipe) in w.punchers && Key(s.peer, pipe) !in w.fetching
    ensures var w := Replay(steps).value; var s := w.sessions[pipe];
            && Key(s.owner, pipe) in w.punchers && Key(s.owner, pipe) !in w.fetching
            && var f, g := w.punchers[Key(s.owner, pipe)], w.punchers[Key(s.peer, pipe)];
            && g.recv == f.send
            && (f.startTime != 0.0 ==> g.startTime == f.startTime)
  {
    NeverInvalid(steps);
    assert PipeOk(Replay(steps).value, pipe);
  }

  /** After the reply the initiator aims at what the recipient sent, wherever its own mapping asks for
      no reply port. */
  lemma MappingsAgree(steps: seq<Step>, pipe: PipeId)
    requires Replay(steps).Some? && pipe in Replay(steps).value.sessions
    requires var w := Replay(steps).value; var s := w.sessions[pipe];
             Key(s.owner, pipe) in w.punchers && w.punchers[Key(s.owner, pipe)].state.UpdatedPredictions?
    ensures var w := Replay(steps).value; var s := w.sessions[pipe];
            && Key(s.peer, pipe) in w.punchers
            && var f, g := w.punchers[Key(s.owner, pipe)], w.punchers[Key(s.peer, pipe)];
            && AgreesWith(f.recv, g.send, f.send)
            && ((forall m <- f.send :: m.reply == 0) ==> f.recv == g.send)
  {
    NeverInvalid(steps);
    assert PipeOk(Replay(steps).value, pipe);
  }

  /** After a completed update the initiator aims at the port the recipient sent, entry by entry, exactly
      where its own mapping asks for no reply port or for that very one. */
  lemma MappingsAgreeIff(steps: seq<Step>, pipe: PipeId)
    requires Replay(steps).Some? && pipe in Replay(steps).value.sessions
    requires var w := Replay(steps).value; var a := Key(w.sessions[pipe].owner, pipe);
             a in w.updated && w.updated[a].ok
    ensures var w := Replay(steps).value; var s := w.sessions[pipe];
            var a, b := Key(s.owner, pipe), Key(s.peer, pipe);
            && a in w.punchers && b in w.punchers
            && var f, g, c := w.punchers[a], w.punchers[b], w.updated[a].context;
            && |f.recv| == |g.send|
            && forall j :: 0 <= j < |f.recv| ==>
                 (f.recv[j].remote == g.send[j].remote <==> StaysAimed(c, g.send[j], f.send, j))
  {
    NeverInvalid(steps);
    UpdatedAims(Replay(steps).value, pipe);
  }

  lemma UpdatedAims(w: World, pipe: PipeId)
    requires Inv(w) && pipe in w.sessions
    requires var a := Key(w.sessions[pipe].owner, pipe); a in w.updated && w.updated[a].ok
    ensures var s := w.sessions[pipe]; var a, b := Key(s.owner, pipe), Key(s.peer, pipe);
            && a in w.punchers && b in w.punchers
            && AimsExactly(w.punchers[a].recv, w.punchers[b].send, w.punchers[a].send, w.updated[a].context)
  {
    assert PipeOk(w, pipe);
  }

  const STRICT_NAT := Nat(RestrictPortNat, PreservDelta, 0, Ranges.Range(2000, MAX_PORT))
  const STRICT_CONTEXT := ReplyContext(Remote, STRICT_NAT, OPEN_NAT, [], (i: nat) => i)

  /** It does not hold always.  Behind a NAT that keeps ports and admits one remote port, a prediction for
      port 4000 asks for reply port 4000; the reply then turns the initiator from the recipient's port
      5000 to its own 4000. */
  lemma MappingsDisagree(owner: NodeId, peer: NodeId, pipe: PipeId, clock: real) returns (steps: seq<Step>)
    requires owner != peer && clock + NTP_MEET_STEP != 0.0
    ensures GetSingleMapping(Remote, NATMapping(0, 0, 4000), NATMapping(4000, 0, 4000), STRICT_NAT.range, STRICT_NAT,
                             NATMapping(4000, 0, 4000), 0) == Some(NATMapping(4000, 4000, 4000))
    ensures Replay(steps).Some?
    ensures var w := Replay(steps).value; var a, b := Key(owner, pipe), Key(peer, pipe);
            && a in w.updated && w.updated[a].ok && a in w.punchers && b in w.punchers
            && w.punchers[b].send == [NATMapping(5000, 0, 5000)]
            && w.punchers[a].send == [NATMapping(4000, 4000, 4000)]
            && |w.punchers[a].recv| == 1 && w.punchers[a].recv[0].remote == 4000
  {
    StrictPrediction();
    var ours, theirs := [NATMapping(4000, 4000, 4000)], [NATMapping(5000, 0, 5000)];
    var preloaded := [NATMapping(4000, 0, 4000)];
    var meet := clock + NTP_MEET_STEP;
    steps := RequestAnswered(owner, peer, pipe, ours, theirs, preloaded, clock, clock);
    var w := Replay(steps).value;
    ReplyTaken(w, owner, peer, pipe, ours, theirs, preloaded, meet, STRICT_CONTEXT);
    StrictUpdate(w.punchers[Key(owner, pipe)].(state := UpdatedPredictions, side := Initiator), theirs);
    steps := Follow(steps, Arrive(owner, PunchMsg(peer, owner, pipe, meet, theirs), true, STRICT_CONTEXT));
  }

  lemma StrictPrediction()
    ensures GetSingleMapping(Remote, NATMapping(0, 0, 4000), NATMapping(4000, 0, 4000), STRICT_NAT.range, STRICT_NAT,
                             NATMapping(4000, 0, 4000), 0) == Some(NATMapping(4000, 4000, 4000))
  {
  }

  lemma StrictUpdate(f: Fields, sent: seq<NATMapping>)
    requires f.send == [NATMapping(4000, 4000, 4000)] && sent == [NATMapping(5000, 0, 5000)]
    requires f.preloaded == [NATMapping(4000, 0, 4000)]
    ensures var (g, ok) := Refreshed(f, STRICT_CONTEXT, sent);
            ok && g == f.(recv := [NATMapping(4000, 0, 4000)])
  {
    var c := STRICT_CONTEXT.(preloaded := f.preloaded);
    var range := Ranges.Range(2000, MAX_PORT);
    assert NatsIntersect(STRICT_NAT.range, OPEN_NAT.range, 1) == (Some(range), range);
    assert ReplyUpdated(WithRange(c, range), range, 0, sent[0], f.send[0]) == Some(NATMapping(4000, 0, 4000));
    var got := sent[0 := NATMapping(4000, 0, 4000)];
    assert got == [NATMapping(4000, 0, 4000)];
    assert UpdatedFrom(WithRange(c, range), range, 1, got, f.send) == (got, true);
    assert UpdatedFrom(WithRange(c, range), range, 0, sent, f.send) == (got, true);
  }
}
