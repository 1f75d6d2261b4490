/** Subscriptions of a pipe: every matching message goes into a bounded queue that drops its oldest. */
module PipeQueue {
  import opened Bytes
  import opened Options

  datatype Addr = Addr(ip: Buf, port: nat)

  /** A message pattern and a host pattern, each optional; port 0 stands for any port. */
  datatype Sub = Sub(pattern: Option<Buf>, host: Option<Addr>)

  datatype Msg = Msg(sender: Addr, data: Buf)

  /** `normIp` brings an address to one spelling; `found` says that a pattern occurs in the data. */
  datatype Env = Env(maxQsize: int, normIp: Buf -> Buf, found: (Buf, Buf) -> bool)

  /** What a subscription holds; one with a handler never queues. */
  datatype Box = Box(items: seq<Msg>, handled: bool)

  type Boxes = map<Sub, Box>

  // ------------------------------------------------------------------
  // Single operations
  // ------------------------------------------------------------------

  function Norm(env: Env, a: Addr): Addr {
    a.(ip := env.normIp(a.ip))
  }

  function KeyOf(env: Env, sub: Sub): Sub {
    if sub.host.None? then sub else sub.(host := Some(Norm(env, sub.host.value)))
  }

  predicate Matches(env: Env, sub: Sub, m: Msg) {
    && (sub.host.Some? ==> if sub.host.value.port != 0 then sub.host.value == m.sender
                           else sub.host.value.ip == m.sender.ip)
    && (sub.pattern.Some? && |sub.pattern.value| > 0 ==> env.found(sub.pattern.value, m.data))
  }

  predicate Full(env: Env, items: seq<Msg>) {
    0 < env.maxQsize <= |items|
  }

  function Put(env: Env, items: seq<Msg>, m: Msg): seq<Msg> {
    (if Full(env, items) then items[1..] else items) + [m]
  }

  function Offered(env: Env, sub: Sub, box: Box, m: Msg): Box {
    if Matches(env, sub, m) && !box.handled then box.(items := Put(env, box.items, m)) else box
  }

  function Subscribe(env: Env, boxes: Boxes, sub: Sub, handled: bool): Boxes {
    var k := KeyOf(env, sub);
    if k in boxes then boxes else boxes[k := Box([], handled)]
  }

  /** The pattern is looked up as given, without bringing its address to the common spelling. */
  function Unsubscribe(boxes: Boxes, sub: Sub): Boxes {
    boxes - {sub}
  }

  function AddMsg(env: Env, boxes: Boxes, m: Msg): Boxes {
    map k | k in boxes :: Offered(env, k, boxes[k], m)
  }

  /** None where nothing is subscribed under the pattern, or nothing arrives in time. */
  function Received(env: Env, boxes: Boxes, sub: Sub): Option<Msg> {
    var k := KeyOf(env, sub);
    if k in boxes && |boxes[k].items| > 0 then Some(boxes[k].items[0]) else None
  }

  function Recv(env: Env, boxes: Boxes, sub: Sub): Boxes {
    var k := KeyOf(env, sub);
    if k in boxes && |boxes[k].items| > 0 then boxes[k := boxes[k].(items := boxes[k].items[1..])] else boxes
  }

  /** A subscription goes away exactly when its address already was in the common spelling. */
  lemma UnsubscribedIff(env: Env, boxes: Boxes, sub: Sub, handled: bool)
    requires KeyOf(env, sub) !in boxes
    ensures Unsubscribe(Subscribe(env, boxes, sub, handled), sub) == boxes - {sub}
            <==> sub.host.None? || env.normIp(sub.host.value.ip) == sub.host.value.ip
  {
    var k := KeyOf(env, sub);
    var after := Unsubscribe(Subscribe(env, boxes, sub, handled), sub);
    if sub.host.None? || env.normIp(sub.host.value.ip) == sub.host.value.ip {
      assert k == sub;
      assert after == boxes - {sub};
    } else {
      assert k in after && k !in boxes;
    }
  }

  /** A host pattern lets its own IP through, on its own port or, if it names no port, on any. */
  predicate HostPasses(host: Option<Addr>, from: Addr) {
    host == None || host == Some(from) || host == Some(Addr(from.ip, 0))
  }

  /** A message pattern lets through data it occurs in; no pattern and the empty one let all through. */
  predicate PatternPasses(env: Env, pattern: Option<Buf>, data: Buf) {
    pattern == None || pattern == Some([]) || (pattern.Some? && env.found(pattern.value, data))
  }

  /** What an arriving message does to a subscription: it goes to the end of the queue exactly when it
      passes both patterns and no handler takes it, and costs the oldest message only in a full queue. */
  lemma ArrivalIff(env: Env, boxes: Boxes, data: Buf, sender: Addr, k: Sub)
    requires k in boxes
    ensures var was, after := boxes[k].items, AddMsg(env, boxes, Msg(Norm(env, sender), data));
            var from := Addr(env.normIp(sender.ip), sender.port);
            && after.Keys == boxes.Keys && after[k].handled == boxes[k].handled
            && if !HostPasses(k.host, from) || !PatternPasses(env, k.pattern, data) || boxes[k].handled then
                 after[k].items == was
               else
                 && |after[k].items| == (if 0 < env.maxQsize <= |was| then |was| else |was| + 1)
                 && after[k].items[|after[k].items| - 1] == Msg(from, data)
                 && after[k].items[..|after[k].items| - 1] == was[|was| + 1 - |after[k].items|..]
  {
    var was, after := boxes[k].items, AddMsg(env, boxes, Msg(Norm(env, sender), data))[k].items;
    if after != was {
      var kept := if Full(env, was) then was[1..] else was;
      assert after == kept + [Msg(Norm(env, sender), data)];
    }
  }

  /** The host asked for and the sender, compared in their common spelling. */
  predicate SameHost(env: Env, host: Option<Addr>, sender: Addr) {
    host.None? || (&& env.normIp(host.value.ip) == env.normIp(sender.ip)
                   && (host.value.port == sender.port || host.value.port == 0))
  }

  lemma SameHostPasses(env: Env, sub: Sub, sender: Addr)
    ensures HostPasses(KeyOf(env, sub).host, Norm(env, sender)) <==> SameHost(env, sub.host, sender)
    ensures KeyOf(env, sub).pattern == sub.pattern
  {
  }

  /** Whoever subscribes receives the next message exactly when its data fits the pattern and its sender is
      the host asked for, in whatever spelling each of the two addresses is given. */
  lemma SubscribedReceivesIff(env: Env, boxes: Boxes, sub: Sub, data: Buf, sender: Addr)
    requires KeyOf(env, sub) !in boxes
    ensures var after := AddMsg(env, Subscribe(env, boxes, sub, false), Msg(Norm(env, sender), data));
            var m := Msg(Addr(env.normIp(sender.ip), sender.port), data);
            && Received(env, after, sub)
               == (if SameHost(env, sub.host, sender) && PatternPasses(env, sub.pattern, data) then Some(m) else None)
            && Received(env, Recv(env, after, sub), sub) == None
  {
    var k, subscribed := KeyOf(env, sub), Subscribe(env, boxes, sub, false);
    assert subscribed[k] == Box([], false);
    SameHostPasses(env, sub, sender);
    ArrivalIff(env, subscribed, data, sender, k);
    var items := AddMsg(env, subscribed, Msg(Norm(env, sender), data))[k].items;
    assert items == [] || items == [Msg(Norm(env, sender), data)];
  }

  // ------------------------------------------------------------------
  // The pipe itself
  // ------------------------------------------------------------------

  /** asyncio.Queue, as far as it is used here. */
  class Queue {
    const maxSize: int
    /** The subscription this queue was made for. */
    ghost const owner: Sub
    var items: seq<Msg>

    constructor (maxSize: int, ghost owner: Sub)
      ensures this.maxSize == maxSize && this.owner == owner && items == []
    {
      this.maxSize := maxSize;
      this.owner := owner;
      items := [];
    }

    predicate IsFull()
      reads this
    {
      maxSize > 0 && |items| >= maxSize
    }

    method GetNowait() returns (m: Msg)
      requires |items| > 0
      modifies this`items
      ensures [m] + items == old(items)
    {
      m := items[0];
      items := items[1..];
    }

    method PutNowait(m: Msg)
      requires !IsFull()
      modifies this`items
      ensures items == old(items) + [m]
    {
      items := items + [m];
    }
  }

  datatype Entry = Entry(queue: Queue, handled: bool)

  class PipeClient {
    const env: Env
    var subs: map<Sub, Entry>
    /** The same subscriptions as values. */
    ghost var boxes: Boxes

    function Queues(): set<Queue>
      reads this
    {
      set k | k in subs :: subs[k].queue
    }

    ghost predicate Shows(k: Sub, q: Queue, items: seq<Msg>)
      reads q
    {
      q.items == items && (q.maxSize > 0 ==> |items| <= q.maxSize)
    }

    /** Every subscription has a queue of its own. */
    ghost predicate Owned()
      reads this
    {
      forall k :: k in subs ==> subs[k].queue.owner == k && subs[k].queue.maxSize == env.maxQsize
    }

    ghost predicate Valid()
      reads this, Queues()
    {
      && subs.Keys == boxes.Keys
      && Owned()
      && (forall k :: k in subs ==> boxes[k].handled == subs[k].handled)
      && (forall k :: k in subs ==> Shows(k, subs[k].queue, boxes[k].items))
    }

    constructor (env: Env)
      ensures Valid() && this.env == env && boxes == map[]
    {
      this.env := env;
      subs := map[];
      boxes := map[];
    }

    method SubscribeTo(sub: Sub, handled: bool) returns (offset: Sub)
      requires Valid()
      modifies this
      ensures Valid() && offset == KeyOf(env, sub) && boxes == Subscribe(env, old(boxes), sub, handled)
      ensures fresh(Queues() - old(Queues()))
    {
      offset := KeyOf(env, sub);
      if offset !in subs {
        var q := new Queue(env.maxQsize, offset);
        subs := subs[offset := Entry(q, handled)];
        boxes := boxes[offset := Box([], handled)];
      }
    }

    method UnsubscribeFrom(sub: Sub)
      requires Valid()
      modifies this
      ensures Valid() && boxes == Unsubscribe(old(boxes), sub)
      ensures Queues() <= old(Queues())
    {
      if sub in subs {
        subs := subs - {sub};
      }
      boxes := boxes - {sub};
    }

    /** Adds to one queue, making room first. */
    method DoAdd(q: Queue, m: Msg)
      requires q.maxSize == env.maxQsize && (q.maxSize > 0 ==> |q.items| <= q.maxSize)
      modifies q`items
      ensures q.items == Put(env, old(q.items), m) && (q.maxSize > 0 ==> |q.items| <= q.maxSize)
    {
      if q.IsFull() {
        var oldest := q.GetNowait();
      }
      q.PutNowait(m);
    }

    /** Does the message pass the host pattern and the message pattern of a subscription? */
    method Passes(sub: Sub, m: Msg) returns (r: bool)
      ensures r == Matches(env, sub, m)
      ensures r <==> HostPasses(sub.host, m.sender) && PatternPasses(env, sub.pattern, m.data)
    {
      var host := sub.host;
      if host.Some? {
        if host.value.port != 0 {
          if host.value != m.sender {
            return false;
          }
        }
        if host.value.port == 0 {
          if host.value.ip != m.sender.ip {
            return false;
          }
        }
      }
      if sub.pattern.Some? && |sub.pattern.value| > 0 {
        if !env.found(sub.pattern.value, m.data) {
          return false;
        }
      }
      r := true;
    }

    method Offer(k: Sub, m: Msg, ghost was: Box)
      requires k in subs && Owned() && was.handled == subs[k].handled && Shows(k, subs[k].queue, was.items)
      modifies subs[k].queue`items
      ensures Shows(k, subs[k].queue, Offered(env, k, was, m).items)
    {
      var passes := Passes(k, m);
      if passes && !subs[k].handled {
        DoAdd(subs[k].queue, m);
      }
    }

    /** Every queue is offered the message. */
    method OfferAll(m: Msg)
      requires Valid()
      modifies Queues()
      ensures forall k :: k in subs ==> Shows(k, subs[k].queue, Offered(env, k, boxes[k], m).items)
    {
      var todo := subs.Keys;
      while todo != {}
        invariant todo <= subs.Keys
        invariant forall k :: k in todo ==> Shows(k, subs[k].queue, boxes[k].items)
        invariant forall k :: k in subs && k !in todo ==> Shows(k, subs[k].queue, Offered(env, k, boxes[k], m).items)
        decreases |todo|
      {
        var k :| k in todo;
        todo := todo - {k};
        Offer(k, m, boxes[k]);
      }
    }

    /** The sender is brought to its normal spelling first. */
    method AddMessage(data: Buf, sender: Addr)
      requires Valid()
      modifies this`boxes, Queues()
      ensures Valid() && boxes == AddMsg(env, old(boxes), Msg(Norm(env, sender), data))
      ensures subs == old(subs)
    {
      var m := Msg(Norm(env, sender), data);
      OfferAll(m);
      boxes := AddMsg(env, boxes, m);
    }

    method ReceiveFrom(sub: Sub) returns (r: Option<Msg>)
      requires Valid()
      modifies this`boxes, Queues()
      ensures Valid() && r == Received(env, old(boxes), sub) && boxes == Recv(env, old(boxes), sub)
      ensures subs == old(subs)
    {
      var k := KeyOf(env, sub);
      if k !in subs {
        return None;
      }
      var q := subs[k].queue;
      if |q.items| == 0 {
        return None;
      }
      var m := q.GetNowait();
      boxes := boxes[k := Box(q.items, subs[k].handled)];
      r := Some(m);
    }
  }

  // ------------------------------------------------------------------
  // Runs
  // ------------------------------------------------------------------

  datatype Step =
    | DoSubscribe(sub: Sub, handled: bool)
    | DoUnsubscribe(sub: Sub)
    | DoAdd(data: Buf, sender: Addr)
    | DoRecv(sub: Sub)

  function Apply(env: Env, boxes: Boxes, s: Step): Boxes {
    match s
    case DoSubscribe(sub, handled) => Subscribe(env, boxes, sub, handled)
    case DoUnsubscribe(sub) => Unsubscribe(boxes, sub)
    case DoAdd(data, sender) => AddMsg(env, boxes, Msg(Norm(env, sender), data))
    case DoRecv(sub) => Recv(env, boxes, sub)
  }

  function Replay(env: Env, steps: seq<Step>): Boxes {
    if |steps| == 0 then map[] else Apply(env, Replay(env, steps[..|steps| - 1]), steps[|steps| - 1])
  }

  /** Subscribed at step i, in any spelling, and not unsubscribed under the common one since. */
  predicate StandsFrom(env: Env, steps: seq<Step>, k: Sub, i: nat)
    requires i < |steps|
  {
    && steps[i].DoSubscribe? && KeyOf(env, steps[i].sub) == k
    && (forall j :: i < j < |steps| ==> steps[j] != DoUnsubscribe(k))
  }

  ghost predicate Stands(env: Env, steps: seq<Step>, k: Sub) {
    exists i :: 0 <= i < |steps| && StandsFrom(env, steps, k, i)
  }

  lemma StandsLonger(env: Env, steps: seq<Step>, k: Sub)
    requires |steps| > 0
    ensures var rest, s := steps[..|steps| - 1], steps[|steps| - 1];
            Stands(env, steps, k)
            <==> (s.DoSubscribe? && KeyOf(env, s.sub) == k) || (Stands(env, rest, k) && s != DoUnsubscribe(k))
  {
    var n := |steps| - 1;
    var rest, s := steps[..n], steps[n];
    if s.DoSubscribe? && KeyOf(env, s.sub) == k {
      assert StandsFrom(env, steps, k, n);
    }
    if Stands(env, rest, k) && s != DoUnsubscribe(k) {
      var i :| 0 <= i < n && StandsFrom(env, rest, k, i);
      assert StandsFrom(env, steps, k, i);
    }
    if Stands(env, steps, k) {
      var i :| 0 <= i <= n && StandsFrom(env, steps, k, i);
      if i < n {
        assert StandsFrom(env, rest, k, i);
      }
    }
  }

  /** After any run a pattern has a queue exactly when it was subscribed and not unsubscribed since. */
  lemma {:induction false} SubscribedIff(env: Env, steps: seq<Step>, k: Sub)
    ensures k in Replay(env, steps) <==> Stands(env, steps, k)
  {
    if |steps| == 0 {
    } else {
      SubscribedIff(env, steps[..|steps| - 1], k);
      StandsLonger(env, steps, k);
    }
  }

  /** Everything that matched a subscription since it was last made. */
  function Stream(env: Env, steps: seq<Step>, k: Sub): seq<Msg> {
    if |steps| == 0 then []
    else
      var rest, s := steps[..|steps| - 1], steps[|steps| - 1];
      if s == DoUnsubscribe(k) then []
      else if s.DoAdd? && k in Replay(env, rest) && Matches(env, k, Msg(Norm(env, s.sender), s.data)) then
        Stream(env, rest, k) + [Msg(Norm(env, s.sender), s.data)]
      else Stream(env, rest, k)
  }

  /** Everything handed to receivers of a subscription since it was last made. */
  function HandedOut(env: Env, steps: seq<Step>, k: Sub): seq<Msg> {
    if |steps| == 0 then []
    else
      var rest, s := steps[..|steps| - 1], steps[|steps| - 1];
      if s == DoUnsubscribe(k) then []
      else if s.DoRecv? && KeyOf(env, s.sub) == k && Received(env, Replay(env, rest), s.sub).Some? then
        HandedOut(env, rest, k) + [Received(env, Replay(env, rest), s.sub).value]
      else HandedOut(env, rest, k)
  }

  function Queued(env: Env, steps: seq<Step>, k: Sub): seq<Msg> {
    var boxes := Replay(env, steps);
    if k in boxes then boxes[k].items else []
  }

  /** A subscription without a handler, up to its next end. */
  predicate Queues(env: Env, steps: seq<Step>, k: Sub) {
    k in Replay(env, steps) ==> !Replay(env, steps)[k].handled
  }

  predicate AlwaysQueues(env: Env, steps: seq<Step>, k: Sub) {
    forall n :: 0 <= n <= |steps| ==> Queues(env, steps[..n], k)
  }

  predicate Rising(indices: seq<nat>, bound: nat) {
    && (forall i :: 0 <= i < |indices| ==> indices[i] < bound)
    && (forall i, j :: 0 <= i < j < |indices| ==> indices[i] < indices[j])
  }

  /**
   The queue is the end of the stream; of what came before, every message was either handed
   out, in order, or dropped, in order.
   */
  predicate Accounted(stream: seq<Msg>, handed: seq<Msg>, queued: seq<Msg>, taken: seq<nat>, dropped: seq<nat>) {
    && |queued| <= |stream| && queued == stream[|stream| - |queued|..]
    && Rising(taken, |stream| - |queued|) && Rising(dropped, |stream| - |queued|)
    && |taken| == |handed| && |taken| + |dropped| + |queued| == |stream|
    && (forall i :: 0 <= i < |taken| ==> handed[i] == stream[taken[i]])
    && (forall j :: 0 <= j < |stream| - |queued| ==> (j in taken <==> j !in dropped))
  }

  ghost predicate Explained(stream: seq<Msg>, handed: seq<Msg>, queued: seq<Msg>) {
    exists taken, dropped :: Accounted(stream, handed, queued, taken, dropped)
  }

  /** A message arrives, and the oldest queued one may have to go. */
  lemma ArrivalAccounted(env: Env, stream: seq<Msg>, handed: seq<Msg>, queued: seq<Msg>, m: Msg)
    requires Explained(stream, handed, queued)
    ensures Explained(stream + [m], handed, Put(env, queued, m))
  {
    var taken, dropped :| Accounted(stream, handed, queued, taken, dropped);
    var front := |stream| - |queued|;
    if Full(env, queued) {
      assert (dropped + [front])[|dropped|] == front;
      assert Accounted(stream + [m], handed, Put(env, queued, m), taken, dropped + [front]);
    } else {
      assert Accounted(stream + [m], handed, Put(env, queued, m), taken, dropped);
    }
  }

  /** The oldest queued message is handed out. */
  lemma HandOutAccounted(stream: seq<Msg>, handed: seq<Msg>, queued: seq<Msg>)
    requires Explained(stream, handed, queued) && |queued| > 0
    ensures Explained(stream, handed + [queued[0]], queued[1..])
  {
    var taken, dropped :| Accounted(stream, handed, queued, taken, dropped);
    var front := |stream| - |queued|;
    assert (taken + [front])[|taken|] == front;
    assert Accounted(stream, handed + [queued[0]], queued[1..], taken + [front], dropped);
  }

  lemma NothingAccounted()
    ensures Explained([], [], [])
  {
    assert Accounted([], [], [], [], []);
  }

  /** In any run, what a subscription handed out and still queues is accounted for in its stream. */
  lemma {:induction false} QueueLaw(env: Env, steps: seq<Step>, k: Sub)
    requires AlwaysQueues(env, steps, k)
    ensures Explained(Stream(env, steps, k), HandedOut(env, steps, k), Queued(env, steps, k))
  {
    if |steps| == 0 {
      NothingAccounted();
    } else {
      var rest, s := steps[..|steps| - 1], steps[|steps| - 1];
      assert AlwaysQueues(env, rest, k) by {
        assert forall n :: 0 <= n <= |rest| ==> rest[..n] == steps[..n];
      }
      assert Queues(env, rest, k) by {
        assert rest == steps[..|rest|];
      }
      QueueLaw(env, rest, k);
      QueueStep(env, rest, s, k);
      assert rest + [s] == steps;
    }
  }

  predicate Arrives(env: Env, boxes: Boxes, s: Step, k: Sub) {
    s.DoAdd? && k in boxes && Matches(env, k, Msg(Norm(env, s.sender), s.data))
  }

  predicate Leaves(env: Env, boxes: Boxes, s: Step, k: Sub) {
    s.DoRecv? && KeyOf(env, s.sub) == k && k in boxes && |boxes[k].items| > 0
  }

  /** What one step does to the history of a subscription. */
  lemma StepHistory(env: Env, rest: seq<Step>, s: Step, k: Sub)
    requires Queues(env, rest, k)
    ensures var steps, boxes := rest + [s], Replay(env, rest);
            var stream, handed, queued := Stream(env, rest, k), HandedOut(env, rest, k), Queued(env, rest, k);
            var stream', handed', queued' := Stream(env, steps, k), HandedOut(env, steps, k), Queued(env, steps, k);
            if s == DoUnsubscribe(k) then stream' == [] && handed' == [] && queued' == []
            else if Arrives(env, boxes, s, k) then
              var m := Msg(Norm(env, s.sender), s.data);
              stream' == stream + [m] && handed' == handed && queued' == Put(env, queued, m)
            else if Leaves(env, boxes, s, k) then
              |queued| > 0 && stream' == stream && handed' == handed + [queued[0]] && queued' == queued[1..]
            else stream' == stream && handed' == handed && queued' == queued
  {
    var steps := rest + [s];
    assert steps[..|steps| - 1] == rest && steps[|steps| - 1] == s;
  }

  lemma QueueStep(env: Env, rest: seq<Step>, s: Step, k: Sub)
    requires Queues(env, rest, k)
    requires Explained(Stream(env, rest, k), HandedOut(env, rest, k), Queued(env, rest, k))
    ensures var steps := rest + [s];
            Explained(Stream(env, steps, k), HandedOut(env, steps, k), Queued(env, steps, k))
  {
    StepHistory(env, rest, s, k);
    var stream, handed, queued := Stream(env, rest, k), HandedOut(env, rest, k), Queued(env, rest, k);
    if s == DoUnsubscribe(k) {
      NothingAccounted();
    } else if Arrives(env, Replay(env, rest), s, k) {
      ArrivalAccounted(env, stream, handed, queued, Msg(Norm(env, s.sender), s.data));
    } else if Leaves(env, Replay(env, rest), s, k) {
      HandOutAccounted(stream, handed, queued);
    }
  }

  /** With no limit on the queue nothing is ever lost. */
  lemma {:induction false} UnlimitedKeepsAll(env: Env, steps: seq<Step>, k: Sub)
    requires env.maxQsize <= 0 && AlwaysQueues(env, steps, k)
    ensures HandedOut(env, steps, k) + Queued(env, steps, k) == Stream(env, steps, k)
  {
    if |steps| == 0 {
    } else {
      var rest, s := steps[..|steps| - 1], steps[|steps| - 1];
      assert AlwaysQueues(env, rest, k) by {
        assert forall n :: 0 <= n <= |rest| ==> rest[..n] == steps[..n];
      }
      assert Queues(env, rest, k) by {
        assert rest == steps[..|rest|];
      }
      UnlimitedKeepsAll(env, rest, k);
      UnlimitedStep(env, rest, s, k);
      assert rest + [s] == steps;
    }
  }

  lemma UnlimitedStep(env: Env, rest: seq<Step>, s: Step, k: Sub)
    requires env.maxQsize <= 0 && Queues(env, rest, k)
    requires HandedOut(env, rest, k) + Queued(env, rest, k) == Stream(env, rest, k)
    ensures HandedOut(env, rest + [s], k) + Queued(env, rest + [s], k) == Stream(env, rest + [s], k)
  {
    StepHistory(env, rest, s, k);
    var handed, queued := HandedOut(env, rest, k), Queued(env, rest, k);
    if queued != [] {
      assert handed + [queued[0]] + queued[1..] == handed + queued;
    }
  }

  /** A limited queue stays within its limit. */
  lemma {:induction false} QueueBounded(env: Env, steps: seq<Step>, k: Sub)
    requires env.maxQsize > 0
    ensures |Queued(env, steps, k)| <= env.maxQsize
  {
    if |steps| == 0 {
    } else {
      QueueBounded(env, steps[..|steps| - 1], k);
    }
  }
}
