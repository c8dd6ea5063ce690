/** Registering an event stream for live delivery, and taking it away again. */
module SseAttachment {
  import opened Basics
  import EventLogSpec
  import opened RoutingTable
  import opened Interest
  import Delivery = MeshDelivery
  import Protocol = ResumeProtocol

  lemma {:induction false} AttachedLast(table: Table, client: Subscriber, topics: seq<Text>, topic: Text)
    ensures Attached(table, client, topics + [topic]) == Subscribed(Attached(table, client, topics), topic, client)
    decreases |topics|
  {
    if topics == [] {
      assert [] + [topic] == [topic] && [topic][1..] == [];
    } else {
      assert (topics + [topic])[1..] == topics[1..] + [topic];
      AttachedLast(Subscribed(table, topics[0], client), client, topics[1..], topic);
    }
  }

  lemma {:induction false} DetachedLast(table: Table, client: Text, topics: seq<Text>, topic: Text)
    ensures Detached(table, client, topics + [topic]) == Unsubscribed(Detached(table, client, topics), topic, client)
    decreases |topics|
  {
    if topics == [] {
      assert [] + [topic] == [topic] && [topic][1..] == [];
    } else {
      assert (topics + [topic])[1..] == topics[1..] + [topic];
      DetachedLast(Unsubscribed(table, topics[0], client), client, topics[1..], topic);
    }
  }

  /** Subscribes the stream once per distinct pattern. What an error half-way has already
      subscribed stays subscribed, since only the returned patterns are taken away later. */
  method RegisterSSEClient(table: InMemoryRoutingTable, client: Subscriber, subscriptions: seq<Text>)
    returns (topics: seq<Text>, error: Option<TableError>)
    requires table.Valid()
    modifies table
    ensures table.Valid() && table.closed == old(table.closed)
    ensures error == None <==> subscriptions == [] || (!table.closed && [] !in subscriptions)
    ensures error == None ==>
      && (forall t :: t in topics <==> t in subscriptions)
      && NoRepeats(topics)
      && table.subscriptions == Attached(old(table.subscriptions), client, topics)
    ensures error.Some? ==> topics == []
    ensures error.Some? ==> exists k :: (
      && 0 <= k < |subscriptions| && (table.closed ==> k == 0)
      && table.subscriptions == Attached(old(table.subscriptions), client, FirstSeen(subscriptions[..k])))
  {
    hide InMemoryRoutingTable.Valid, Attached;
    AttachedNone(table.subscriptions, client);
    var seenTopics: set<Text> := {};
    topics := [];
    for i := 0 to |subscriptions|
      invariant table.Valid() && table.closed == old(table.closed)
      invariant i > 0 ==> !table.closed && [] !in subscriptions[..i]
      invariant topics == FirstSeen(subscriptions[..i])
      invariant forall t :: t in seenTopics <==> t in topics
      invariant table.subscriptions == Attached(old(table.subscriptions), client, topics)
    {
      assert subscriptions[..i + 1][..i] == subscriptions[..i];
      FirstSeenDistinct(subscriptions[..i]);
      if subscriptions[i] !in seenTopics {
        AttachedLast(old(table.subscriptions), client, topics, subscriptions[i]);
        error := table.Subscribe(subscriptions[i], Some(client));
        if error.Some? {
          return [], error;
        }
        seenTopics := seenTopics + {subscriptions[i]};
        topics := topics + [subscriptions[i]];
      }
    }
    assert subscriptions[..|subscriptions|] == subscriptions;
    FirstSeenDistinct(subscriptions);
    return topics, None;
  }

  predicate NoRepeats(topics: seq<Text>) {
    forall i, j :: 0 <= i < j < |topics| ==> topics[i] != topics[j]
  }

  function FirstSeen(subscriptions: seq<Text>): seq<Text> {
    if subscriptions == [] then []
    else
      var front, last := FirstSeen(subscriptions[..|subscriptions| - 1]), subscriptions[|subscriptions| - 1];
      if last in front then front else front + [last]
  }

  lemma {:induction false} FirstSeenDistinct(subscriptions: seq<Text>)
    ensures forall t :: t in FirstSeen(subscriptions) <==> t in subscriptions
    ensures NoRepeats(FirstSeen(subscriptions))
  {
    if subscriptions != [] {
      FirstSeenDistinct(subscriptions[..|subscriptions| - 1]);
      assert subscriptions == subscriptions[..|subscriptions| - 1] + [subscriptions[|subscriptions| - 1]];
      OneMoreDistinct(FirstSeen(subscriptions[..|subscriptions| - 1]), subscriptions[|subscriptions| - 1]);
    }
  }

  lemma OneMoreDistinct(topics: seq<Text>, topic: Text)
    requires NoRepeats(topics)
    ensures topic !in topics ==> NoRepeats(topics + [topic])
  {
  }

  lemma AttachedNone(table: Table, client: Subscriber)
    ensures Attached(table, client, []) == table && Detached(table, client.id, []) == table
  {
  }

  method UnregisterSSEClient(table: InMemoryRoutingTable, client: Subscriber, topics: seq<Text>)
    requires table.Valid()
    modifies table
    ensures table.Valid() && table.closed == old(table.closed)
    ensures table.subscriptions ==
      if table.closed then old(table.subscriptions) else Detached(old(table.subscriptions), client.id, topics)
  {
    hide InMemoryRoutingTable.Valid, Detached;
    AttachedNone(table.subscriptions, client);
    for i := 0 to |topics|
      invariant table.Valid() && table.closed == old(table.closed)
      invariant table.subscriptions ==
        if table.closed then old(table.subscriptions) else Detached(old(table.subscriptions), client.id, topics[..i])
    {
      assert topics[..i + 1] == topics[..i] + [topics[i]];
      DetachedLast(old(table.subscriptions), client.id, topics[..i], topics[i]);
      var _ := table.Unsubscribe(topics[i], client.id);
    }
    assert topics[..|topics|] == topics;
  }

  // ---- what the stream is offered ----------------------------------------------------

  lemma {:induction false} AttachedRoutes(table: Table, client: Subscriber, topics: seq<Text>, t: Text)
    requires WellFormed(table)
    ensures t in topics ==> Routes(Attached(table, client, topics), t, client)
    ensures t !in topics ==> EntryOf(Attached(table, client, topics), t) == EntryOf(table, t)
    decreases |topics|
  {
    if topics != [] {
      OneEntryChanges(table, topics[0], client, t, client.id);
      assert t in topics <==> t == topics[0] || t in topics[1..];
      AttachedRoutes(Subscribed(table, topics[0], client), client, topics[1..], t);
    }
  }

  /** A stream registered on some patterns is offered as many copies of an event as the
      resume protocol says a handler with these patterns active is; with its patterns taken
      away again it is offered none. */
  lemma AttachedStreamIsOffered(table: Table, client: Subscriber, topics: seq<Text>, topic: Text)
    requires WellFormed(table) && client.local && forall t :: !Routes(table, t, client)
    ensures var patterns := set p | p in topics;
      Delivery.Copies(Attached(table, client, topics), topic, client) == |Protocol.Delivering(patterns, topic)|
    ensures Delivery.Copies(Detached(Attached(table, client, topics), client.id, topics), topic, client) == 0
  {
    var during := Attached(table, client, topics);
    var after := Detached(during, client.id, topics);
    forall t
      ensures Routes(during, t, client) <==> t in topics
      ensures !Routes(after, t, client)
    {
      AttachedRoutes(table, client, topics, t);
      AttachedEntries(table, client, topics, client.id, t);
      DetachedEntries(during, client.id, topics, client.id, t);
      DetachedKeeps(during, client.id, topics, t);
      assert !Routes(table, t, client);
    }
    assert DeliveringPatterns(during, topic, client, during.Keys) == Protocol.Delivering((set p | p in topics), topic);
    assert DeliveringPatterns(after, topic, client, after.Keys) == {};
  }

  /** So the resume protocol's delivery step is what the routing table makes of the stream's
      registration: local delivery through a table in which the stream is registered on the
      handler's patterns leaves in its channel what the step leaves in the handler's. */
  lemma DeliverStepIsDelivery(s: Protocol.System, t: Text, table: Table, client: Subscriber, topics: seq<Text>,
                              before: map<Subscriber, seq<EventLogSpec.Event>>,
                              after: map<Subscriber, seq<EventLogSpec.Event>>)
    requires Protocol.Enabled(s, Protocol.DeliverNext(t)) && !s.handler.Closed?
    requires WellFormed(table) && client.local && forall p :: !Routes(table, p, client)
    requires Protocol.Active(s) == (set p | p in topics)
    requires Delivery.BufferOf(before, client) == s.handler.buffer
    requires var e := EventLogSpec.Events(s.log, t)[Protocol.Delivered(s, t)];
      e.topic == t && Delivery.DeliveredLocally(before, after, Attached(table, client, topics), e)
    ensures Delivery.BufferOf(after, client) == Protocol.Buffer(Protocol.Do(s, Protocol.DeliverNext(t)).handler)
  {
    hide Attached, Delivery.Copies, Protocol.Delivering;
    AttachedStreamIsOffered(table, client, topics, t);
  }

  lemma {:induction false} DetachedKeeps(table: Table, client: Text, topics: seq<Text>, t: Text)
    requires WellFormed(table)
    ensures t !in topics ==> EntryOf(Detached(table, client, topics), t) == EntryOf(table, t)
    decreases |topics|
  {
    if topics != [] {
      OneEntryChanges(table, topics[0], Subscriber(client, true, 0), t, client);
      assert t in topics <==> t == topics[0] || t in topics[1..];
      DetachedKeeps(Unsubscribed(table, topics[0], client), client, topics[1..], t);
    }
  }

  /** A reconnect that the server accepts before it has noticed the loss: the old handler
      then takes the patterns it had registered from the new stream, which carries the same
      client ID. The new stream is offered copies for its other patterns only. */
  lemma LateUnregisterTakesFromTheNew(table: Table, stale: Subscriber, reopened: Subscriber,
                                      had: seq<Text>, has: seq<Text>, topic: Text)
    requires WellFormed(table) && reopened.local && stale != reopened && stale.id == reopened.id
    requires forall t :: !Routes(table, t, reopened)
    ensures var after := Detached(Attached(Attached(table, stale, had), reopened, has), stale.id, had);
      var left := set p | p in has && p !in had;
      Delivery.Copies(after, topic, reopened) == |Protocol.Delivering(left, topic)|
  {
    var during := Attached(table, stale, had);
    var both := Attached(during, reopened, has);
    var after := Detached(both, stale.id, had);
    AttachedEntries(table, stale, had, [], []);
    AttachedEntries(during, reopened, has, [], []);
    forall t
      ensures Routes(after, t, reopened) <==> t in has && t !in had
    {
      AttachedRoutes(table, stale, had, t);
      AttachedRoutes(during, reopened, has, t);
      AttachedEntries(during, reopened, has, reopened.id, t);
      DetachedEntries(both, stale.id, had, reopened.id, t);
      DetachedKeeps(both, stale.id, had, t);
      assert !Routes(table, t, reopened);
    }
    var left := set p | p in has && p !in had;
    assert DeliveringPatterns(after, topic, reopened, after.Keys) == Protocol.Delivering(left, topic);
  }

  /** With the same patterns as before, which is what a client that reconnects has, the new
      stream is offered nothing at all. */
  lemma OvertakenReconnectIsSilent(table: Table, stale: Subscriber, reopened: Subscriber, topics: seq<Text>,
                                   topic: Text)
    requires WellFormed(table) && reopened.local && stale != reopened && stale.id == reopened.id
    requires forall t :: !Routes(table, t, reopened)
    ensures var after := Detached(Attached(Attached(table, stale, topics), reopened, topics), stale.id, topics);
      Delivery.Copies(after, topic, reopened) == 0
  {
    LateUnregisterTakesFromTheNew(table, stale, reopened, topics, topics, topic);
    assert (set p | p in topics && p !in topics) == {};
    assert Protocol.Delivering({}, topic) == {};
  }
}
