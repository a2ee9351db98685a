/**
 Relay and broker together: what a connected client can rely on, whatever the
 interleaving of relay steps, loop callbacks, connects, disconnects and reads.
 */
module Delivery {
  import opened RelayProtocol
  import opened RelaySafety
  import opened SseBroker

  // `sent` is everything broadcast since this client registered; `origin` is
  // how many relay publications the loop had already broadcast by then.
  datatype Client =
    Client(queue: seq<Event>, consumed: seq<Event>, sent: seq<Event>, origin: nat, overflowed: bool)

  datatype System = System(relay: Relay, callbacks: seq<Event>, clients: map<nat, Client>)

  datatype Action =
    | Relayed(step: Step)
    | RunCallback
    | OnLoopPublish(event: Event)
    | Register(id: nat)
    | Unregister(id: nat)
    | Consume(id: nat)

  const Start: System := System(Empty, [], map[])

  predicate Possible(s: System, a: Action) {
    match a
    case Relayed(step) => Enabled(s.relay, step)
    case RunCallback => s.callbacks != []
    case OnLoopPublish(event) => event.source == OnLoop
    case Register(id) => id !in s.clients
    case Unregister(id) => id in s.clients
    case Consume(id) => id in s.clients && s.clients[id].queue != []
  }

  function Receive(c: Client, e: Event): Client {
    c.(queue := Offer(c.queue, e),
       sent := c.sent + [e],
       overflowed := c.overflowed || |c.queue| >= CLIENT_QUEUE_MAXSIZE)
  }

  function Broadcast(clients: map<nat, Client>, e: Event): map<nat, Client> {
    map id | id in clients :: Receive(clients[id], e)
  }

  /** Relay publications the loop has broadcast: all of the stream but the scheduled rest. */
  function Delivered(s: System): int {
    |s.relay.stream| - |s.callbacks|
  }

  function Perform(s: System, a: Action, batch: nat): System
    requires Possible(s, a) && 0 <= Delivered(s)
  {
    match a
    case Relayed(step) =>
      var relay := Apply(s.relay, step, batch);
      if step.Restart? then System(relay, [], map[])
      else if step.Publish? || step.Send? then
        s.(relay := relay, callbacks := s.callbacks + [relay.stream[|relay.stream| - 1]])
      else s.(relay := relay)
    case RunCallback =>
      s.(callbacks := s.callbacks[1..], clients := Broadcast(s.clients, s.callbacks[0]))
    case OnLoopPublish(event) => s.(clients := Broadcast(s.clients, event))
    case Register(id) => s.(clients := s.clients[id := Client([], [], [], Delivered(s), false)])
    case Unregister(id) => s.(clients := s.clients - {id})
    case Consume(id) =>
      var c := s.clients[id];
      s.(clients := s.clients[id := c.(queue := c.queue[1..], consumed := c.consumed + [c.queue[0]])])
  }

  /** `actions` leads from `s` to `t`. */
  predicate Trace(s: System, actions: seq<Action>, batch: nat, t: System)
    decreases |actions|
  {
    if actions == [] then t == s
    else
      && Possible(s, actions[0]) && 0 <= Delivered(s)
      && Trace(Perform(s, actions[0], batch), actions[1..], batch, t)
  }

  /** Relay publications only. */
  function Relays(events: seq<Event>): seq<Event> {
    if events == [] then []
    else
      var before := Relays(events[..|events| - 1]);
      var last := events[|events| - 1];
      if last.source == OnLoop then before else before + [last]
  }

  lemma RelaysSnoc(events: seq<Event>, e: Event)
    ensures Relays(events + [e]) == if e.source == OnLoop then Relays(events) else Relays(events) + [e]
  {
    assert (events + [e])[..|events|] == events;
  }

  // ------------------------------------------------------------ invariant

  ghost predicate ClientKeeps(c: Client, stream: seq<Event>, delivered: nat) {
    && |c.queue| <= CLIENT_QUEUE_MAXSIZE
    && InOrder(c.consumed + c.queue, c.sent)
    && (!c.overflowed ==> c.consumed + c.queue == c.sent)
    && (c.overflowed ==> |c.consumed| + |c.queue| < |c.sent|)
    && c.origin <= delivered <= |stream|
    && Relays(c.sent) == stream[c.origin..delivered]
  }

  ghost predicate Hop(s: System) {
    && 0 <= Delivered(s)
    && s.callbacks == s.relay.stream[Delivered(s)..]
    && forall e <- s.relay.stream :: e.source != OnLoop
  }

  ghost predicate ClientsKeep(s: System) {
    0 <= Delivered(s) && forall id <- s.clients :: ClientKeeps(s.clients[id], s.relay.stream, Delivered(s))
  }

  lemma RelaysReceived(c: Client, e: Event, stream: seq<Event>, delivered: nat)
    requires c.origin <= delivered <= |stream| && Relays(c.sent) == stream[c.origin..delivered]
    requires e.source == OnLoop || (delivered < |stream| && e == stream[delivered])
    ensures Relays(c.sent + [e]) == stream[c.origin..if e.source == OnLoop then delivered else delivered + 1]
  {
    hide Relays;
    RelaysSnoc(c.sent, e);
    if e.source != OnLoop {
      assert stream[c.origin..delivered + 1] == stream[c.origin..delivered] + [e];
    }
  }

  lemma OfferedInOrder(c: Client, e: Event)
    requires InOrder(c.consumed + c.queue, c.sent)
    requires !c.overflowed ==> c.consumed + c.queue == c.sent
    ensures var d := Receive(c, e);
      InOrder(d.consumed + d.queue, d.sent) && (!d.overflowed ==> d.consumed + d.queue == d.sent)
  {
    hide InOrder;
    InOrderSnoc(c.consumed + c.queue, c.sent, e);
    assert c.consumed + (c.queue + [e]) == (c.consumed + c.queue) + [e];
  }

  lemma ReceiveKeeps(c: Client, e: Event, stream: seq<Event>, delivered: nat)
    requires ClientKeeps(c, stream, delivered)
    requires e.source == OnLoop || (delivered < |stream| && e == stream[delivered])
    ensures ClientKeeps(Receive(c, e), stream, if e.source == OnLoop then delivered else delivered + 1)
  {
    hide Relays, InOrder;
    RelaysReceived(c, e, stream, delivered);
    OfferedInOrder(c, e);
  }

  lemma ConsumeKeeps(c: Client, stream: seq<Event>, delivered: nat)
    requires ClientKeeps(c, stream, delivered) && c.queue != []
    ensures ClientKeeps(c.(queue := c.queue[1..], consumed := c.consumed + [c.queue[0]]), stream, delivered)
  {
    assert (c.consumed + [c.queue[0]]) + c.queue[1..] == c.consumed + c.queue;
  }

  lemma NewClientKeeps(stream: seq<Event>, delivered: nat)
    requires delivered <= |stream|
    ensures ClientKeeps(Client([], [], [], delivered, false), stream, delivered)
  {
  }

  lemma StreamKeeps(c: Client, stream: seq<Event>, longer: seq<Event>, delivered: nat)
    requires ClientKeeps(c, stream, delivered) && stream <= longer
    ensures ClientKeeps(c, longer, delivered)
  {
    assert longer[c.origin..delivered] == stream[c.origin..delivered];
  }

  lemma HopKeeps(s: System, a: Action, batch: nat)
    requires Hop(s) && Possible(s, a)
    ensures Hop(Perform(s, a, batch))
    ensures !a.Relayed? ==> Perform(s, a, batch).relay == s.relay
    ensures Delivered(Perform(s, a, batch)) ==
      if a.RunCallback? then Delivered(s) + 1
      else if a == Relayed(Restart) then |s.relay.stream|
      else Delivered(s)
  {
    hide FreshRow, FreshAgent, SelectUndelivered, SelectAgentEvents, MarkDelivered, Ids, Broadcast, Max;
  }

  lemma ClientsStep(s: System, a: Action, batch: nat)
    requires Hop(s) && ClientsKeep(s) && Possible(s, a)
    ensures ClientsKeep(Perform(s, a, batch))
  {
    hide FreshRow, FreshAgent, SelectUndelivered, SelectAgentEvents, MarkDelivered, Ids, ClientKeeps, Receive;
    var t := Perform(s, a, batch);
    HopKeeps(s, a, batch);
    forall id | id in t.clients
      ensures ClientKeeps(t.clients[id], t.relay.stream, Delivered(t))
    {
      match a
      case Relayed(_) => StreamKeeps(s.clients[id], s.relay.stream, t.relay.stream, Delivered(s));
      case RunCallback => ReceiveKeeps(s.clients[id], s.callbacks[0], s.relay.stream, Delivered(s));
      case OnLoopPublish(e) => ReceiveKeeps(s.clients[id], e, s.relay.stream, Delivered(s));
      case Register(c) => if c == id { NewClientKeeps(s.relay.stream, Delivered(s)); }
      case Unregister(_) =>
      case Consume(c) => if c == id { ConsumeKeeps(s.clients[id], s.relay.stream, Delivered(s)); }
    }
  }

  lemma {:induction false} TraceKeeps(s: System, actions: seq<Action>, batch: nat, t: System)
    requires Hop(s) && ClientsKeep(s) && Inv(s.relay, batch) && Trace(s, actions, batch, t)
    ensures Hop(t) && ClientsKeep(t) && Inv(t.relay, batch)
    decreases |actions|
  {
    if actions != [] {
      HopKeeps(s, actions[0], batch);
      ClientsStep(s, actions[0], batch);
      if actions[0].Relayed? {
        StepKeeps(s.relay, actions[0].step, batch);
      }
      TraceKeeps(Perform(s, actions[0], batch), actions[1..], batch, t);
    }
  }

  lemma StartHolds(batch: nat)
    ensures Hop(Start) && ClientsKeep(Start) && Inv(Start.relay, batch)
  {
    EmptyHolds(batch);
  }

  // ----------------------------------------------------------- guarantees

  /** For every client: what it consumed and still has queued is an in-order part of what was broadcast to it. */
  lemma EveryClientInOrder(actions: seq<Action>, batch: nat, t: System, id: nat)
    requires Trace(Start, actions, batch, t) && id in t.clients
    ensures var c := t.clients[id];
      && |c.queue| <= CLIENT_QUEUE_MAXSIZE
      && InOrder(c.consumed + c.queue, c.sent)
      && (!c.overflowed ==> c.consumed + c.queue == c.sent)
      && (c.overflowed ==> |c.consumed| + |c.queue| < |c.sent|)
      && c.origin <= |t.relay.stream|
      && Relays(c.sent) <= t.relay.stream[c.origin..]
  {
    hide Inv, InOrder, Relays, Perform, Trace;
    StartHolds(batch);
    TraceKeeps(Start, actions, batch, t);
    var c := t.clients[id];
    assert Relays(c.sent) == t.relay.stream[c.origin..][..Delivered(t) - c.origin];
  }

  /** What one action broadcasts on the loop. */
  function BroadcastBy(s: System, a: Action): seq<Event>
    requires Possible(s, a)
  {
    match a
    case RunCallback => [s.callbacks[0]]
    case OnLoopPublish(event) => [event]
    case _ => []
  }

  /** Everything a trace broadcasts on the loop, in order. */
  function Broadcasts(s: System, actions: seq<Action>, batch: nat, t: System): seq<Event>
    requires Trace(s, actions, batch, t)
    decreases |actions|
  {
    if actions == [] then []
    else BroadcastBy(s, actions[0]) + Broadcasts(Perform(s, actions[0], batch), actions[1..], batch, t)
  }

  predicate Ends(a: Action, id: nat) {
    a == Unregister(id) || a == Relayed(Restart)
  }

  /** One action, client by client: who is connected, what it is sent, and what it has read. */
  lemma OneAction(s: System, a: Action, batch: nat, id: nat)
    requires Possible(s, a) && 0 <= Delivered(s)
    ensures var t := Perform(s, a, batch);
      && (id in t.clients <==> !Ends(a, id) && (id in s.clients || a == Register(id)))
      && (a == Register(id) ==> t.clients[id].sent == [] && t.clients[id].consumed == [])
      && (id in s.clients && id in t.clients ==>
            && t.clients[id].sent == s.clients[id].sent + BroadcastBy(s, a)
            && (if a == Consume(id)
                then t.clients[id].consumed == s.clients[id].consumed + [s.clients[id].queue[0]]
                     && [s.clients[id].queue[0]] + t.clients[id].queue == s.clients[id].queue
                else t.clients[id].consumed == s.clients[id].consumed && s.clients[id].queue <= t.clients[id].queue))
  {
    hide FreshRow, FreshAgent, SelectUndelivered, SelectAgentEvents, MarkDelivered, Ids, Max;
  }

  /** While it stays connected, a client is sent exactly what is broadcast, on-loop events included. */
  lemma {:induction false} SentIsBroadcast(s: System, actions: seq<Action>, batch: nat, t: System, id: nat)
    requires Trace(s, actions, batch, t) && id in s.clients
    requires forall a <- actions :: !Ends(a, id)
    ensures id in t.clients && t.clients[id].sent == s.clients[id].sent + Broadcasts(s, actions, batch, t)
    decreases |actions|
  {
    hide Perform, BroadcastBy, Possible;
    if actions != [] {
      assert actions[0] in actions;
      OneAction(s, actions[0], batch, id);
      SentIsBroadcast(Perform(s, actions[0], batch), actions[1..], batch, t, id);
    }
  }

  lemma {:induction false} FromRelays(events: seq<Event>, source: Source)
    requires source != OnLoop
    ensures From(events, source) == From(Relays(events), source)
  {
    if events != [] {
      var front, last := events[..|events| - 1], events[|events| - 1];
      FromRelays(front, source);
      if last.source != OnLoop {
        FromSnoc(Relays(front), last, source);
      }
    }
  }

  lemma {:induction false} FromPrefix(stream: seq<Event>, n: nat, source: Source)
    requires n <= |stream|
    ensures From(stream[..n], source) <= From(stream, source)
    decreases |stream| - n
  {
    if n < |stream| {
      FromPrefix(stream, n + 1, source);
      assert stream[..n + 1] == stream[..n] + [stream[n]];
      FromSnoc(stream[..n], stream[n], source);
    } else {
      assert stream[..n] == stream;
    }
  }

  lemma {:induction false} FirstSeenPrefix(events: seq<Event>, n: nat)
    requires n <= |events|
    ensures FirstSeen(events[..n]) <= FirstSeen(events)
    decreases |events| - n
  {
    if n < |events| {
      FirstSeenPrefix(events, n + 1);
      assert events[..n + 1][..n] == events[..n];
    } else {
      assert events[..n] == events;
    }
  }

  /** The outbox events in the client's hands, in order, first occurrence of each id. */
  function OutboxView(c: Client): seq<Event> {
    FirstSeen(From(c.consumed + c.queue, Outbox))
  }

  lemma ViewIsSeenPrefix(c: Client, stream: seq<Event>, delivered: nat)
    requires ClientKeeps(c, stream, delivered) && c.origin == 0 && !c.overflowed
    ensures OutboxView(c) <= FirstSeen(From(stream, Outbox))
    ensures delivered == |stream| ==> OutboxView(c) == FirstSeen(From(stream, Outbox))
  {
    FromRelays(c.sent, Outbox);
    assert Relays(c.sent) == stream[..delivered];
    FromPrefix(stream, delivered, Outbox);
    var part := From(stream[..delivered], Outbox);
    FirstSeenPrefix(From(stream, Outbox), |part|);
    assert From(stream, Outbox)[..|part|] == part;
    assert delivered == |stream| ==> stream[..delivered] == stream;
  }

  /**
   A client connected since before the first publication whose queue never
   filled sees exactly a prefix of the outbox, in id order, each row once; and
   once the scheduled callbacks have run it has every row marked delivered.
   */
  lemma ClientSeesOutboxPrefix(actions: seq<Action>, batch: nat, t: System, id: nat)
    requires Trace(Start, actions, batch, t) && id in t.clients
    requires t.clients[id].origin == 0 && !t.clients[id].overflowed
    ensures OutboxView(t.clients[id]) <= OutboxEvents(t.relay.outbox)
    ensures t.callbacks == [] ==>
      forall i :: 0 <= i < |t.relay.outbox| && t.relay.outbox[i].delivered ==>
        i < |OutboxView(t.clients[id])| && OutboxView(t.clients[id])[i] == OutboxEvent(t.relay.outbox[i])
  {
    StartHolds(batch);
    TraceKeeps(Start, actions, batch, t);
    OutboxFacts(t.relay, batch);
    ViewIsSeenPrefix(t.clients[id], t.relay.stream, Delivered(t));
  }
}
