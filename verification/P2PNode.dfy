/** The tables one node keeps for hole punching, changed in place as messages arrive. */
module P2PNode {
  import opened NatPredict
  import opened Options
  import opened TcpPuncher
  import opened Rendezvous

  /** How tcp_hole_punch fares: it may fail or return before it reaches the puncher's protocol. */
  datatype Punched = SourceChanged | NoStunClients | Reached(entered: Entered)

  class PunchNode {
    const id: NodeId
    var seen: set<PipeId>
    var clients: map<PipeId, TCPPuncher>

    /** No two pipe ids share a puncher. */
    ghost predicate Valid()
      reads this
    {
      forall p, q :: p in clients && q in clients && p != q ==> clients[p] != clients[q]
    }

    constructor (id: NodeId)
      ensures Valid() && this.id == id && seen == {} && clients == map[]
    {
      this.id := id;
      seen, clients := {}, map[];
    }

    /** Whether a message is to be acted on.  It is recorded as seen before its time to live is checked. */
    method Accept(dest: NodeId, pipe: PipeId, now: int, ttl: int) returns (act: bool)
      modifies this`seen
      ensures act <==> dest == id && pipe !in old(seen) && now < ttl
      ensures seen == if dest == id then old(seen) + {pipe} else old(seen)
    {
      if dest != id {
        return false;
      }
      if pipe in seen {
        return false;
      }
      seen := seen + {pipe};
      act := now < ttl;
    }

    /** tcp_hole_punch up to its first await; it touches no other pipe id's puncher.  A known puncher
        takes over a newer entry of the peer, and a new one needs STUN clients. */
    method TcpHolePunch(pipe: PipeId, mode: PunchMode, stuns: nat, reply: bool, recv: seq<NATMapping>,
                        src: AddrEntry, dest: AddrEntry, picks: nat -> nat) returns (r: Punched)
      requires Valid() && (!reply ==> recv == [])
      modifies this`clients, clients.Values
      ensures Valid()
      ensures r.SourceChanged? <==> pipe in old(clients) && !SameEntry(src, old(clients)[pipe].src)
      ensures r.NoStunClients? <==> pipe !in old(clients) && stuns == 0
      ensures !r.Reached? ==> clients == old(clients)
      ensures r.SourceChanged? ==> unchanged(old(clients)[pipe])
      ensures r.Reached? ==> clients.Keys == old(clients).Keys + {pipe}
      ensures r.Reached? && pipe in old(clients) ==> clients[pipe] == old(clients)[pipe]
      ensures r.Reached? && pipe !in old(clients) ==>
                clients[pipe].mode == mode && clients[pipe].src == src && clients[pipe].dest == dest
      ensures r.Reached? ==> SameEntry(dest, clients[pipe].dest)
      ensures r.Reached? ==>
                var f := if pipe in old(clients) then old(clients[pipe].View()) else BLANK;
                (clients[pipe].View(), r.entered)
                == EnterPunch(f, reply, recv,
                              ReplyContext(clients[pipe].mode, src.natInfo, dest.natInfo, [], picks))
      ensures forall p <- old(clients) :: p != pipe ==>
                p in clients && clients[p] == old(clients)[p] && unchanged(old(clients)[p])
    {
      var puncher: TCPPuncher;
      if pipe in clients {
        puncher := clients[pipe];
        if !SameEntry(src, puncher.src) {
          return SourceChanged;
        }
        if !SameEntry(dest, puncher.dest) {
          puncher.dest := dest;
        }
      } else {
        if stuns == 0 {
          return NoStunClients;
        }
        puncher := new TCPPuncher(mode, src, dest);
        clients := clients[pipe := puncher];
      }
      if reply && |recv| == 0 {
        return Reached(NoMappings);
      }
      var ok := puncher.Enter(recv);
      if !ok {
        return Reached(BadProgression);
      }
      if !puncher.state.UpdatedPredictions? {
        return Reached(Suspended);
      }
      var done := puncher.FinishUpdate(recv, picks);
      r := Reached(Updated(done));
    }

    /** The node's tables are its share of the network's. */
    ghost predicate Shows(w: World)
      reads this, clients.Values
    {
      && (forall p :: p in seen <==> Key(id, p) in w.seen)
      && (forall p :: p in clients <==> Key(id, p) in w.punchers)
      && (forall p <- clients :: clients[p].View() == w.punchers[Key(id, p)])
    }

    /** The same against the network's tables. */
    method Punch(ghost w: World, peer: NodeId, start: real, pipe: PipeId, mode: PunchMode, stuns: nat, reply: bool,
                 recv: seq<NATMapping>, src: AddrEntry, dest: AddrEntry, picks: nat -> nat) returns (r: Punched)
      requires Valid() && Shows(w) && (!reply ==> recv == [])
      modifies this`clients, clients.Values
      ensures Valid()
      ensures r.Reached? ==> pipe in clients
      ensures r.Reached? ==>
                Shows(Rendezvous.TcpHolePunch(w, Key(id, pipe), peer, reply, recv, start,
                        ReplyContext(clients[pipe].mode, src.natInfo, dest.natInfo, [], picks)))
      ensures !r.Reached? ==> Shows(w)
    {
      r := TcpHolePunch(pipe, mode, stuns, reply, recv, src, dest, picks);
      if r.Reached? {
        var c := ReplyContext(clients[pipe].mode, src.natInfo, dest.natInfo, [], picks);
        PunchIsLocal(w, Key(id, pipe), peer, reply, recv, start, c);
      }
    }

    /** Opening a pipe: the network's Connect, unless hole punching stops before the protocol. */
    method Open(ghost w: World, peer: NodeId, pipe: PipeId, mode: PunchMode, stuns: nat,
                src: AddrEntry, dest: AddrEntry, picks: nat -> nat) returns (r: Punched)
      requires Valid() && Shows(w) && Enabled(w, Connect(id, peer, pipe)) && pipe !in clients
      modifies this`clients, clients.Values
      ensures Valid()
      ensures Shows(if r.Reached? then Apply(w, Connect(id, peer, pipe)) else w)
    {
      ghost var v := w.(sessions := w.sessions[pipe := Session(id, peer)]);
      r := Punch(v, peer, 0.0, pipe, mode, stuns, false, [], src, dest, picks);
      if r.Reached? {
        var c := ReplyContext(clients[pipe].mode, src.natInfo, dest.natInfo, [], picks);
        PunchIsLocal(v, Key(id, pipe), peer, false, [], 0.0, c);
        PunchIsLocal(v, Key(id, pipe), peer, false, [], 0.0, NO_CONTEXT);
      }
    }

    /** A message from the network: what becomes of the tables is what the network model says.  To the
        network a message at which hole punching stops before the protocol is one not acted on. */
    method Receive(ghost w: World, msg: PunchMsg, now: int, ttl: int, mode: PunchMode, stuns: nat,
                   src: AddrEntry, dest: AddrEntry, picks: nat -> nat) returns (r: Option<Punched>)
      requires Valid() && Shows(w)
      modifies this, clients.Values
      ensures Valid()
      ensures r.Some? <==> msg.dest == id && msg.pipe !in old(seen) && now < ttl
      ensures r.Some? && r.value.Reached? ==>
                && msg.pipe in clients
                && Shows(Handle(w, id, msg, true,
                                ReplyContext(clients[msg.pipe].mode, src.natInfo, dest.natInfo, [], picks)))
      ensures !(r.Some? && r.value.Reached?) ==> Shows(Handle(w, id, msg, false, NO_CONTEXT))
    {
      var act := Accept(msg.dest, msg.pipe, now, ttl);
      if !act {
        return None;
      }
      var got := Punch(w.(seen := w.seen + {Key(id, msg.pipe)}), msg.src, msg.ntp, msg.pipe, mode, stuns, true,
                       msg.mappings, src, dest, picks);
      r := Some(got);
    }

    /** The prediction is back for a puncher that waits for it: the network's Predicted. */
    method Finish(ghost w: World, pipe: PipeId, predicted: seq<NATMapping>, preloaded: seq<NATMapping>, clock: real,
                  recv: seq<NATMapping>, start: real)
      returns (send: seq<NATMapping>, meet: real)
      requires Valid() && Shows(w) && pipe in clients && |predicted| > 0
      requires Key(id, pipe) in w.fetching && w.fetching[Key(id, pipe)].recv == recv
      requires w.fetching[Key(id, pipe)].start == start
      modifies clients.Values
      ensures Valid() && Shows(Apply(w, Predicted(Key(id, pipe), clients[pipe].mode, predicted, preloaded, clock)))
      ensures PunchMsg(id, w.fetching[Key(id, pipe)].peer, pipe, meet, send)
              in Apply(w, Predicted(Key(id, pipe), clients[pipe].mode, predicted, preloaded, clock)).net
    {
      send, meet := clients[pipe].FinishFetch(recv, start, clock, predicted, preloaded);
    }
  }

  /** Punching changes one puncher, besides what is being fetched or updated and the failure flag. */
  lemma PunchIsLocal(w: World, key: Key, peer: NodeId, reply: bool, recv: seq<NATMapping>, start: real, c: ReplyContext)
    ensures var v := TcpHolePunch(w, key, peer, reply, recv, start, c);
            && v.seen == w.seen
            && v.punchers == w.punchers[key :=
                 EnterPunch(Met(w, key), reply, recv, c).0]
  {
  }
}
