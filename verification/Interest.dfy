/** A node's subscription records and what its peers are told of them. */
module Interest {
  import opened Basics
  import opened TopicPattern
  import opened RoutingTable

  // client ID -> subscription ID -> topic pattern
  type Metadata = map<Text, map<Text, Text>>

  datatype InterestMessage =
    | Update(nodeId: Text, action: Action, topic: Text)
    | Snapshot(nodeId: Text, topics: seq<Text>)

  datatype Action = AddInterest | DropInterest | UnknownAction

  type Queues = map<Text, seq<InterestMessage>>

  function RecordsOf(m: Metadata, client: Text): map<Text, Text> {
    if client in m then m[client] else map[]
  }

  predicate Recorded(m: Metadata, client: Text, topic: Text) {
    exists id :: id in RecordsOf(m, client) && RecordsOf(m, client)[id] == topic
  }

  /** The patterns with at least one local subscription. */
  function Interests(m: Metadata): set<Text> {
    set client, id | client in m && id in m[client] :: m[client][id]
  }

  lemma InterestsAreRecorded(m: Metadata, topic: Text)
    ensures topic in Interests(m) <==> exists client :: Recorded(m, client, topic)
  {
    if topic in Interests(m) {
      var client, id :| client in m && id in m[client] && m[client][id] == topic;
      assert id in RecordsOf(m, client) && RecordsOf(m, client)[id] == topic;
      assert Recorded(m, client, topic);
    }
    if client :| Recorded(m, client, topic) {
      var id :| id in RecordsOf(m, client) && RecordsOf(m, client)[id] == topic;
      assert client in m && id in m[client];
    }
  }

  function WithRecord(m: Metadata, client: Text, id: Text, topic: Text): Metadata {
    m[client := RecordsOf(m, client)[id := topic]]
  }

  function WithoutTopic(m: Metadata, client: Text, topic: Text): Metadata {
    var rest := map id | id in RecordsOf(m, client) && RecordsOf(m, client)[id] != topic :: RecordsOf(m, client)[id];
    if rest == map[] then m - {client} else m[client := rest]
  }

  lemma RecordAdded(m: Metadata, client: Text, id: Text, topic: Text, c: Text, t: Text)
    requires id !in RecordsOf(m, client)
    ensures Recorded(WithRecord(m, client, id, topic), c, t) <==> Recorded(m, c, t) || (c, t) == (client, topic)
  {
    var m' := WithRecord(m, client, id, topic);
    if Recorded(m, c, t) {
      var i :| i in RecordsOf(m, c) && RecordsOf(m, c)[i] == t;
      assert i in RecordsOf(m', c) && RecordsOf(m', c)[i] == t;
    }
    if Recorded(m', c, t) && (c, t) != (client, topic) {
      var i :| i in RecordsOf(m', c) && RecordsOf(m', c)[i] == t;
      assert i in RecordsOf(m, c) && RecordsOf(m, c)[i] == t;
    }
    if (c, t) == (client, topic) {
      assert id in RecordsOf(m', c) && RecordsOf(m', c)[id] == t;
    }
  }

  lemma RecordsRemoved(m: Metadata, client: Text, topic: Text, c: Text, t: Text)
    ensures Recorded(WithoutTopic(m, client, topic), c, t) <==> Recorded(m, c, t) && (c, t) != (client, topic)
  {
    var m' := WithoutTopic(m, client, topic);
    if c == client {
      assert RecordsOf(m', c) == map id | id in RecordsOf(m, c) && RecordsOf(m, c)[id] != topic :: RecordsOf(m, c)[id];
    } else {
      assert RecordsOf(m', c) == RecordsOf(m, c);
    }
    if Recorded(m, c, t) && (c, t) != (client, topic) {
      var i :| i in RecordsOf(m, c) && RecordsOf(m, c)[i] == t;
      assert i in RecordsOf(m', c) && RecordsOf(m', c)[i] == t;
    }
    if Recorded(m', c, t) {
      var i :| i in RecordsOf(m', c) && RecordsOf(m', c)[i] == t;
      assert i in RecordsOf(m, c) && RecordsOf(m, c)[i] == t;
    }
  }

  lemma InterestAdded(m: Metadata, client: Text, id: Text, topic: Text)
    requires id !in RecordsOf(m, client)
    ensures Interests(WithRecord(m, client, id, topic)) == Interests(m) + {topic}
  {
    forall t
      ensures t in Interests(WithRecord(m, client, id, topic)) <==> t in Interests(m) + {topic}
    {
      InterestsAreRecorded(m, t);
      InterestsAreRecorded(WithRecord(m, client, id, topic), t);
      forall c {:trigger Recorded(m, c, t)}
        ensures Recorded(WithRecord(m, client, id, topic), c, t) <==> Recorded(m, c, t) || (c, t) == (client, topic)
      {
        RecordAdded(m, client, id, topic, c, t);
      }
      RecordAdded(m, client, id, topic, client, topic);
    }
  }

  /** Unsubscribing one client removes at most the one pattern. */
  lemma InterestRemoved(m: Metadata, client: Text, topic: Text)
    ensures var after := Interests(WithoutTopic(m, client, topic));
      after == if topic in after then Interests(m) else Interests(m) - {topic}
  {
    forall t
      ensures t in Interests(WithoutTopic(m, client, topic)) ==> t in Interests(m)
      ensures t in Interests(m) && t != topic ==> t in Interests(WithoutTopic(m, client, topic))
    {
      InterestsAreRecorded(m, t);
      InterestsAreRecorded(WithoutTopic(m, client, topic), t);
      forall c {:trigger Recorded(m, c, t)}
        ensures Recorded(WithoutTopic(m, client, topic), c, t) <==> Recorded(m, c, t) && (c, t) != (client, topic)
      {
        RecordsRemoved(m, client, topic, c, t);
      }
    }
  }

  // ---- messages ------------------------------------------------------------------

  /** What a peer's view of a node becomes when it processes one message. */
  function Applied(view: set<Text>, message: InterestMessage): set<Text> {
    match message
    case Update(_, AddInterest, topic) => view + {topic}
    case Update(_, DropInterest, topic) => view - {topic}
    case Update(_, UnknownAction, _) => view
    case Snapshot(_, topics) => Listed(topics)
  }

  function Listed(topics: seq<Text>): set<Text> {
    set t | t in topics && t != []
  }

  function Folded(view: set<Text>, queue: seq<InterestMessage>): set<Text>
    decreases |queue|
  {
    if queue == [] then view else Folded(Applied(view, queue[0]), queue[1..])
  }

  lemma {:induction false} FoldedLast(view: set<Text>, queue: seq<InterestMessage>, message: InterestMessage)
    ensures Folded(view, queue + [message]) == Applied(Folded(view, queue), message)
    decreases |queue|
  {
    if queue == [] {
      assert [] + [message] == [message] && [message][1..] == [];
    } else {
      assert (queue + [message])[1..] == queue[1..] + [message];
      FoldedLast(Applied(view, queue[0]), queue[1..], message);
    }
  }

  /** One message offered to every connected peer; a peer that refuses it (a full
      queue, an expired wait) goes without. */
  function Enqueued(queues: Queues, message: InterestMessage, connected: set<Text>, refusing: set<Text>): Queues {
    map peer | peer in queues ::
      if peer in connected && peer !in refusing then queues[peer] + [message] else queues[peer]
  }

  // ---- a node, as far as interest goes ---------------------------------------------

  datatype NodeState = NodeState(
    meta: Metadata,
    table: Table,
    connected: set<Text>,
    seen: set<Text>,               // peers that have had a snapshot, as the resync loop remembers
    queues: Queues,                // a queue can outlive its connection
    views: map<Text, set<Text>>)   // peer -> patterns it has told us of

  function Subscribe(s: NodeState, node: Text, client: Subscriber, id: Text, topic: Text,
                     refusing: set<Text>): NodeState {
    s.(meta := WithRecord(s.meta, client.id, id, topic),
       table := Subscribed(s.table, topic, client),
       queues := if topic in Interests(s.meta) then s.queues
                 else Enqueued(s.queues, Update(node, AddInterest, topic), s.connected, refusing))
  }

  function Unsubscribe(s: NodeState, node: Text, client: Text, topic: Text, refusing: set<Text>): NodeState {
    var meta := WithoutTopic(s.meta, client, topic);
    s.(meta := meta,
       table := Unsubscribed(s.table, topic, client),
       queues := if topic in Interests(meta) then s.queues
                 else Enqueued(s.queues, Update(node, DropInterest, topic), s.connected, refusing))
  }

  function ViewOf(s: NodeState, peer: Text): set<Text> {
    if peer in s.views then s.views[peer] else {}
  }

  function Received(s: NodeState, message: InterestMessage): NodeState {
    s.(views := s.views[message.nodeId := Applied(ViewOf(s, message.nodeId), message)])
  }

  predicate Chosen(views: map<Text, set<Text>>, peer: Text, topic: Text) {
    peer in views && exists p :: p in views[peer] && Matches(p, topic)
  }

  function InterestedPeers(views: map<Text, set<Text>>, topic: Text, peers: seq<Text>): seq<Text>
    decreases |peers|
  {
    if peers == [] then []
    else
      var front, last := peers[..|peers| - 1], peers[|peers| - 1];
      InterestedPeers(views, topic, front) + if Chosen(views, last, topic) then [last] else []
  }

  /** The peers chosen are those of the list with a matching pattern, each as often as listed. */
  lemma {:induction false} InterestedPeersExactly(views: map<Text, set<Text>>, topic: Text,
                                                  peers: seq<Text>, peer: Text)
    ensures multiset(InterestedPeers(views, topic, peers))[peer] ==
      if Chosen(views, peer, topic) then multiset(peers)[peer] else 0
    decreases |peers|
  {
    if peers != [] {
      InterestedPeersExactly(views, topic, peers[..|peers| - 1], peer);
      assert peers == peers[..|peers| - 1] + [peers[|peers| - 1]];
    }
  }

  // ---- records and routing ----------------------------------------------------------

  /** A client is routed on a pattern exactly when it has a record of it. */
  ghost predicate AgreeFor(m: Metadata, table: Table, c: Text) {
    forall t :: c in EntryOf(table, t) <==> Recorded(m, c, t)
  }

  ghost predicate RoutedIsRecorded(m: Metadata, table: Table) {
    forall c, t :: c in EntryOf(table, t) ==> Recorded(m, c, t)
  }

  /** A new subscription ID keeps a client's records and routing in agreement; a repeated
      one does so exactly when it does not overwrite the last record of a pattern. */
  lemma SubscribeAgreesExactly(s: NodeState, node: Text, client: Subscriber, id: Text, topic: Text, refusing: set<Text>)
    requires WellFormed(s.table) && AgreeFor(s.meta, s.table, client.id)
    ensures var s' := Subscribe(s, node, client, id, topic, refusing);
      AgreeFor(s'.meta, s'.table, client.id) <==>
        var records := RecordsOf(s.meta, client.id);
        id in records ==> records[id] == topic || exists i :: i in records && i != id && records[i] == records[id]
  {
    var s' := Subscribe(s, node, client, id, topic, refusing);
    var c, records := client.id, RecordsOf(s.meta, client.id);
    forall t
      ensures c in EntryOf(s'.table, t) <==> c in EntryOf(s.table, t) || t == topic
    {
      OneEntryChanges(s.table, topic, client, t, c);
    }
    if id !in records {
      forall t
        ensures Recorded(s'.meta, c, t) <==> Recorded(s.meta, c, t) || t == topic
      {
        RecordAdded(s.meta, client.id, id, topic, c, t);
      }
    } else {
      forall t
        ensures Recorded(s'.meta, c, t) <==> t == topic || exists i :: i in records && i != id && records[i] == t
      {
        RecordOverwritten(s.meta, client.id, id, topic, c, t);
      }
      assert Recorded(s.meta, c, records[id]);
    }
  }

  /** A new subscription keeps what is routed recorded, and every client's agreement. */
  lemma SubscribeKeepsRouted(s: NodeState, node: Text, client: Subscriber, id: Text, topic: Text, refusing: set<Text>)
    requires WellFormed(s.table) && RoutedIsRecorded(s.meta, s.table) && id !in RecordsOf(s.meta, client.id)
    ensures var s' := Subscribe(s, node, client, id, topic, refusing);
      && WellFormed(s'.table) && RoutedIsRecorded(s'.meta, s'.table)
      && forall c :: AgreeFor(s.meta, s.table, c) ==> AgreeFor(s'.meta, s'.table, c)
  {
    var s' := Subscribe(s, node, client, id, topic, refusing);
    OneEntryChanges(s.table, topic, client, [], []);
    forall c, t
      ensures c in EntryOf(s'.table, t) <==> c in EntryOf(s.table, t) || (c, t) == (client.id, topic)
      ensures Recorded(s'.meta, c, t) <==> Recorded(s.meta, c, t) || (c, t) == (client.id, topic)
    {
      OneEntryChanges(s.table, topic, client, t, c);
      RecordAdded(s.meta, client.id, id, topic, c, t);
    }
  }

  lemma RecordOverwritten(m: Metadata, client: Text, id: Text, topic: Text, c: Text, t: Text)
    ensures Recorded(WithRecord(m, client, id, topic), c, t) <==>
      || (c, t) == (client, topic)
      || (c != client && Recorded(m, c, t))
      || (c == client && exists i :: i in RecordsOf(m, client) && i != id && RecordsOf(m, client)[i] == t)
  {
    var m' := WithRecord(m, client, id, topic);
    assert RecordsOf(m', client) == RecordsOf(m, client)[id := topic];
    if c == client {
      assert id in RecordsOf(m', c) && RecordsOf(m', c)[id] == topic;
      if i :| i in RecordsOf(m, client) && i != id && RecordsOf(m, client)[i] == t {
        assert i in RecordsOf(m', c) && RecordsOf(m', c)[i] == t;
      }
    } else {
      assert RecordsOf(m', c) == RecordsOf(m, c);
      assert Recorded(m', c, t) <==> Recorded(m, c, t);
    }
  }

  lemma UnsubscribeKeepsRouted(s: NodeState, node: Text, client: Text, topic: Text, refusing: set<Text>)
    requires WellFormed(s.table) && RoutedIsRecorded(s.meta, s.table)
    ensures var s' := Unsubscribe(s, node, client, topic, refusing);
      && WellFormed(s'.table) && RoutedIsRecorded(s'.meta, s'.table)
      && forall c :: AgreeFor(s.meta, s.table, c) ==> AgreeFor(s'.meta, s'.table, c)
  {
    var s' := Unsubscribe(s, node, client, topic, refusing);
    OneEntryChanges(s.table, topic, Subscriber(client, true, 0), [], []);
    forall c, t
      ensures c in EntryOf(s'.table, t) <==> c in EntryOf(s.table, t) && (c, t) != (client, topic)
      ensures Recorded(s'.meta, c, t) <==> Recorded(s.meta, c, t) && (c, t) != (client, topic)
    {
      OneEntryChanges(s.table, topic, Subscriber(client, true, 0), t, c);
      RecordsRemoved(s.meta, client, topic, c, t);
    }
  }

  /** Subscribing routes the very subscriber given, under its ID and pattern, and leaves all
      other routing as it was; the record is kept under the subscription's ID. */
  lemma SubscribeChangesOne(s: NodeState, node: Text, client: Subscriber, id: Text, topic: Text, refusing: set<Text>)
    ensures var s' := Subscribe(s, node, client, id, topic, refusing);
      && Routes(s'.table, topic, client)
      && (forall t, x :: Routes(s'.table, t, x) <==>
            (t, x) == (topic, client) || (Routes(s.table, t, x) && (t, x.id) != (topic, client.id)))
      && (forall c, i :: i in RecordsOf(s'.meta, c) <==> i in RecordsOf(s.meta, c) || (c, i) == (client.id, id))
      && RecordsOf(s'.meta, client.id)[id] == topic
      && (forall c, i :: i in RecordsOf(s.meta, c) && (c, i) != (client.id, id) ==>
            RecordsOf(s'.meta, c)[i] == RecordsOf(s.meta, c)[i])
  {
  }

  /** Peers are told of a pattern when it gets its first subscription and when it loses its
      last: each connected peer that takes messages gets one, and nobody anything else. */
  lemma PeersAreTold(s: NodeState, node: Text, client: Subscriber, id: Text, topic: Text, refusing: set<Text>, p: Text)
    requires p in s.queues && id !in RecordsOf(s.meta, client.id)
    ensures
      var told := p in s.connected && p !in refusing;
      && Subscribe(s, node, client, id, topic, refusing).queues.Keys == s.queues.Keys
      && Subscribe(s, node, client, id, topic, refusing).queues[p] ==
           (if told && (forall c :: !Recorded(s.meta, c, topic)) then s.queues[p] + [Update(node, AddInterest, topic)]
            else s.queues[p])
      && Unsubscribe(s, node, client.id, topic, refusing).queues.Keys == s.queues.Keys
      && Unsubscribe(s, node, client.id, topic, refusing).queues[p] ==
           (if told && (forall c :: c != client.id ==> !Recorded(s.meta, c, topic))
            then s.queues[p] + [Update(node, DropInterest, topic)] else s.queues[p])
  {
    InterestsAreRecorded(s.meta, topic);
    var without := WithoutTopic(s.meta, client.id, topic);
    InterestsAreRecorded(without, topic);
    forall c
      ensures Recorded(without, c, topic) <==> Recorded(s.meta, c, topic) && c != client.id
    {
      RecordsRemoved(s.meta, client.id, topic, c, topic);
    }
  }

  /** Unsubscribing takes away what is routed under one ID and pattern and the client's
      records of that pattern, and nothing else. */
  lemma UnsubscribeChangesOne(s: NodeState, node: Text, client: Text, topic: Text, refusing: set<Text>)
    ensures var s' := Unsubscribe(s, node, client, topic, refusing);
      && (forall t, x :: Routes(s'.table, t, x) <==> Routes(s.table, t, x) && (t, x.id) != (topic, client))
      && (forall c, i :: i in RecordsOf(s'.meta, c) <==>
            i in RecordsOf(s.meta, c) && (c, RecordsOf(s.meta, c)[i]) != (client, topic))
      && (forall c, i :: i in RecordsOf(s'.meta, c) ==> RecordsOf(s'.meta, c)[i] == RecordsOf(s.meta, c)[i])
  {
    var s' := Unsubscribe(s, node, client, topic, refusing);
    UnsubscribedRoutes(s.table, topic, client);
    forall c
      ensures RecordsOf(s'.meta, c) == map i | i in RecordsOf(s.meta, c)
                && (c, RecordsOf(s.meta, c)[i]) != (client, topic) :: RecordsOf(s.meta, c)[i]
    {
    }
  }

  lemma UnsubscribedRoutes(table: Table, topic: Text, id: Text)
    ensures forall t, x :: Routes(Unsubscribed(table, topic, id), t, x) <==>
      Routes(table, t, x) && (t, x.id) != (topic, id)
  {
    assert EntryOf(Unsubscribed(table, topic, id), topic) == EntryOf(table, topic) - {id};
    assert forall t :: t != topic ==> EntryOf(Unsubscribed(table, topic, id), t) == EntryOf(table, t);
  }

  // ---- attaching a stream --------------------------------------------------------------

  // registerSSEClient and unregisterSSEClient touch the table and leave the records alone.
  function Attached(table: Table, client: Subscriber, topics: seq<Text>): Table
    decreases |topics|
  {
    if topics == [] then table else Attached(Subscribed(table, topics[0], client), client, topics[1..])
  }

  function Detached(table: Table, client: Text, topics: seq<Text>): Table
    decreases |topics|
  {
    if topics == [] then table else Detached(Unsubscribed(table, topics[0], client), client, topics[1..])
  }

  lemma {:induction false} AttachedEntries(table: Table, client: Subscriber, topics: seq<Text>, c: Text, t: Text)
    requires WellFormed(table)
    ensures WellFormed(Attached(table, client, topics))
    ensures c in EntryOf(Attached(table, client, topics), t) <==>
      c in EntryOf(table, t) || (c == client.id && t in topics)
    decreases |topics|
  {
    if topics != [] {
      OneEntryChanges(table, topics[0], client, t, c);
      AttachedEntries(Subscribed(table, topics[0], client), client, topics[1..], c, t);
      assert t in topics <==> t == topics[0] || t in topics[1..];
    }
  }

  lemma {:induction false} DetachedEntries(table: Table, client: Text, topics: seq<Text>, c: Text, t: Text)
    requires WellFormed(table)
    ensures WellFormed(Detached(table, client, topics))
    ensures c in EntryOf(Detached(table, client, topics), t) <==>
      c in EntryOf(table, t) && !(c == client && t in topics)
    decreases |topics|
  {
    if topics != [] {
      OneEntryChanges(table, topics[0], Subscriber(client, true, 0), t, c);
      DetachedEntries(Unsubscribed(table, topics[0], client), client, topics[1..], c, t);
      assert t in topics <==> t == topics[0] || t in topics[1..];
    }
  }

  ghost predicate ListsRecords(m: Metadata, client: Text, topics: seq<Text>) {
    forall t :: t in topics <==> Recorded(m, client, t)
  }

  /** Attaching a stream on recorded patterns keeps what is routed recorded and every
      client's agreement; on all of its client's patterns it restores that client's. */
  lemma AttachKeepsRouted(m: Metadata, table: Table, client: Subscriber, topics: seq<Text>)
    requires WellFormed(table) && RoutedIsRecorded(m, table)
    requires forall t :: t in topics ==> Recorded(m, client.id, t)
    ensures var during := Attached(table, client, topics);
      && WellFormed(during) && RoutedIsRecorded(m, during)
      && (forall c :: AgreeFor(m, table, c) ==> AgreeFor(m, during, c))
      && (ListsRecords(m, client.id, topics) ==> AgreeFor(m, during, client.id))
  {
    var during := Attached(table, client, topics);
    AttachedEntries(table, client, topics, [], []);
    forall c, t
      ensures c in EntryOf(during, t) <==> c in EntryOf(table, t) || (c == client.id && t in topics)
    {
      AttachedEntries(table, client, topics, c, t);
    }
  }

  /** A stream that ends takes its routing along but not the records: what is routed stays
      recorded, and its client's records and routing still agree exactly if it had no
      record of the patterns taken away. */
  lemma DetachAgreesExactly(m: Metadata, table: Table, client: Text, topics: seq<Text>)
    requires WellFormed(table) && RoutedIsRecorded(m, table)
    ensures var after := Detached(table, client, topics);
      && WellFormed(after) && RoutedIsRecorded(m, after)
      && (forall c :: c != client && AgreeFor(m, table, c) ==> AgreeFor(m, after, c))
      && (AgreeFor(m, table, client) ==>
           (AgreeFor(m, after, client) <==> forall t :: t in topics ==> !Recorded(m, client, t)))
  {
    var after := Detached(table, client, topics);
    DetachedEntries(table, client, topics, [], []);
    forall c, t
      ensures c in EntryOf(after, t) <==> c in EntryOf(table, t) && !(c == client && t in topics)
    {
      DetachedEntries(table, client, topics, c, t);
    }
  }

  // ---- removing one record by its ID -------------------------------------------------

  function WithoutRecord(m: Metadata, client: Text, id: Text): Metadata {
    var rest := RecordsOf(m, client) - {id};
    if rest == map[] then m - {client} else m[client := rest]
  }

  /** Unsubscribing the pattern of one record removes just that record exactly when the
      client has no other record of the pattern. */
  lemma OneRecordExactly(m: Metadata, client: Text, id: Text)
    requires id in RecordsOf(m, client)
    ensures var records := RecordsOf(m, client);
      WithoutTopic(m, client, records[id]) == WithoutRecord(m, client, id) <==>
        forall i :: i in records && i != id ==> records[i] != records[id]
  {
    var records := RecordsOf(m, client);
    var byTopic := map i | i in records && records[i] != records[id] :: records[i];
    var byId := records - {id};
    if forall i :: i in records && i != id ==> records[i] != records[id] {
      assert byTopic == byId;
    } else {
      var i :| i in records && i != id && records[i] == records[id];
      assert i in byId && i !in byTopic;
      assert i in RecordsOf(WithoutRecord(m, client, id), client);
      assert i !in RecordsOf(WithoutTopic(m, client, records[id]), client);
    }
  }

  /** Two subscriptions of one client to one pattern: removing the first takes both. */
  lemma SecondSubscriptionGoesToo(client: Text, topic: Text, first: Text, second: Text)
    requires first != second
    ensures var m := map[client := map[first := topic, second := topic]];
      && WithoutTopic(m, client, RecordsOf(m, client)[first]) == map[]
      && WithoutRecord(m, client, first) == map[client := map[second := topic]]
  {
    var m := map[client := map[first := topic, second := topic]];
    var rest := RecordsOf(m, client) - {first};
    assert rest == map[second := topic] && second in rest;
    assert m[client := rest] == map[client := rest];
    assert m - {client} == map[];
  }
}
