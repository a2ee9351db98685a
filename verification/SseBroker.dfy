/**
 The SSE broker: one bounded queue per connected client, and a hop onto the
 event loop for publishers that run on another thread.
 */
module SseBroker {
  import opened RelayProtocol

  const CLIENT_QUEUE_MAXSIZE: nat := 200

  /** `put_nowait` on a bounded queue: a full queue drops the newest event. */
  function Offer(queue: seq<Event>, event: Event): (after: seq<Event>)
    ensures |queue| <= CLIENT_QUEUE_MAXSIZE ==> |after| <= CLIENT_QUEUE_MAXSIZE
  {
    if |queue| < CLIENT_QUEUE_MAXSIZE then queue + [event] else queue
  }

  function OfferAll(queue: seq<Event>, events: seq<Event>): seq<Event> {
    if events == [] then queue
    else Offer(OfferAll(queue, events[..|events| - 1]), events[|events| - 1])
  }

  class ClientQueue {
    var items: seq<Event>

    constructor ()
      ensures items == []
    {
      items := [];
    }

    method PutNowait(event: Event) returns (accepted: bool)
      modifies this
      ensures accepted == (|old(items)| < CLIENT_QUEUE_MAXSIZE)
      ensures items == Offer(old(items), event)
    {
      accepted := |items| < CLIENT_QUEUE_MAXSIZE;
      if accepted {
        items := items + [event];
      }
    }

    method Get() returns (event: Event)
      requires items != []
      modifies this
      ensures [event] + items == old(items)
    {
      event := items[0];
      items := items[1..];
    }
  }

  class Broker {
    var clients: set<ClientQueue>
    var loopRunning: bool       // a bound, running event loop
    var callbacks: seq<Event>   // broadcasts scheduled on the loop, oldest first

    constructor ()
      ensures clients == {} && !loopRunning && callbacks == []
    {
      clients, loopRunning, callbacks := {}, false, [];
    }

    method BindLoop()
      modifies this`loopRunning
      ensures loopRunning
    {
      loopRunning := true;
    }

    method Register() returns (queue: ClientQueue)
      modifies this`clients
      ensures fresh(queue) && queue.items == []
      ensures clients == old(clients) + {queue}
    {
      queue := new ClientQueue();
      clients := clients + {queue};
    }

    method Unregister(queue: ClientQueue)
      modifies this`clients
      ensures clients == old(clients) - {queue}
    {
      clients := clients - {queue};
    }

    /** Off the loop the event joins the callback FIFO; on it, or with no loop, it is broadcast at once. */
    method Publish(event: Event, onLoop: bool)
      modifies this`callbacks, clients
      ensures loopRunning && !onLoop ==>
        callbacks == old(callbacks) + [event] && forall q <- clients :: q.items == old(q.items)
      ensures !loopRunning || onLoop ==>
        callbacks == old(callbacks) && forall q <- clients :: q.items == Offer(old(q.items), event)
    {
      if loopRunning && !onLoop {
        callbacks := callbacks + [event];
      } else {
        Broadcast(event);
      }
    }

    method Broadcast(event: Event)
      modifies clients
      ensures forall q <- clients :: q.items == Offer(old(q.items), event)
    {
      var rest := clients;
      while rest != {}
        invariant rest <= clients
        invariant forall q <- clients :: q.items == if q in rest then old(q.items) else Offer(old(q.items), event)
        decreases rest
      {
        var q :| q in rest;
        var _ := q.PutNowait(event);
        rest := rest - {q};
      }
    }

    /** The loop runs every scheduled callback, in the order it was scheduled. */
    method RunCallbacks()
      modifies this`callbacks, clients
      ensures callbacks == []
      ensures forall q <- clients :: q.items == OfferAll(old(q.items), old(callbacks))
    {
      var all := callbacks;
      var i := 0;
      while i < |all|
        invariant 0 <= i <= |all|
        invariant callbacks == all[i..]
        invariant forall q <- clients :: q.items == OfferAll(old(q.items), all[..i])
      {
        Broadcast(callbacks[0]);
        callbacks := callbacks[1..];
        assert all[..i + 1][..i] == all[..i];
        i := i + 1;
      }
      assert all[..i] == all;
    }
  }

  /** `part` keeps some of `whole`, in order. */
  ghost predicate InOrder(part: seq<Event>, whole: seq<Event>) {
    if part == [] then true
    else if whole == [] then false
    else if part[|part| - 1] == whole[|whole| - 1] && InOrder(part[..|part| - 1], whole[..|whole| - 1]) then true
    else InOrder(part, whole[..|whole| - 1])
  }

  lemma InOrderSnoc(part: seq<Event>, whole: seq<Event>, e: Event)
    requires InOrder(part, whole)
    ensures InOrder(part, whole + [e]) && InOrder(part + [e], whole + [e])
  {
    assert (whole + [e])[..|whole|] == whole;
    assert (part + [e])[..|part|] == part;
  }

  /**
   A queue fed a burst keeps exactly the oldest events that fit: the newest are
   dropped once it is full, and nothing already queued is displaced.
   */
  lemma {:induction false} FullQueueDropsNewest(queue: seq<Event>, events: seq<Event>)
    requires |queue| <= CLIENT_QUEUE_MAXSIZE
    ensures OfferAll(queue, events)
         == queue + events[..if |queue| + |events| <= CLIENT_QUEUE_MAXSIZE then |events|
                             else CLIENT_QUEUE_MAXSIZE - |queue|]
  {
    if events != [] {
      var front := events[..|events| - 1];
      FullQueueDropsNewest(queue, front);
      if |queue| + |events| <= CLIENT_QUEUE_MAXSIZE {
        assert front + [events[|events| - 1]] == events;
      } else {
        assert front[..CLIENT_QUEUE_MAXSIZE - |queue|] == events[..CLIENT_QUEUE_MAXSIZE - |queue|];
      }
    }
  }
}
