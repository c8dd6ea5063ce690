/** The mesh node: subscription records, interest messages, publishing and receiving. */
module MeshNode {
  import opened Basics
  import opened EventLogSpec
  import opened TopicPattern
  import opened RoutingTable
  import opened Interest
  import opened MeshDelivery
  import opened ByteOrder
  import Gossip = InterestGossip
  import InMemoryEventLog
  import Protocol = ResumeProtocol

  const MAX_EVENT_PAYLOAD_SIZE := 1024 * 1024

  // A client object is itself the subscriber, if its type is one.
  datatype Client = Client(id: Text, authenticated: bool, subscriber: Option<Subscriber>)

  datatype DeliveryResult = DeliveryResult(localSuccesses: nat, localFailures: nat, peerSuccesses: nat,
                                           peerFailures: nat) {
    predicate HasFailures() {
      localFailures > 0 || peerFailures > 0
    }
  }

  datatype NodeError =
    | ClosedNode | StoppedNode | NilClient | NoTopic | NotAuthenticated | NotASubscriber
    | NoEvent | PayloadTooLarge
    | RoutingFailed(table: TableError)
    | PersistFailed(log: LogError)
    | PartialDelivery
    | ContextDone
    | StartFailed
    | SubscriptionNotFound | ClientNotFound

  // ---- what the loops compute ------------------------------------------------

  function RecordsWith(m: Metadata, topic: Text): set<(Text, Text)> {
    set client, id | client in m && id in m[client] && m[client][id] == topic :: (client, id)
  }

  lemma CountIsInterest(m: Metadata, topic: Text)
    ensures |RecordsWith(m, topic)| > 0 <==> topic in Interests(m)
  {
    if topic in Interests(m) {
      var client, id :| client in m && id in m[client] && m[client][id] == topic;
      assert (client, id) in RecordsWith(m, topic);
    }
    if |RecordsWith(m, topic)| > 0 {
      var r :| r in RecordsWith(m, topic);
    }
  }

  lemma IsRecordWith(m: Metadata, r: (Text, Text), topic: Text)
    ensures r in RecordsWith(m, topic) <==> r.1 in RecordsOf(m, r.0) && RecordsOf(m, r.0)[r.1] == topic
  {
  }

  /** And every record counts once. */
  lemma EachRecordCounts(m: Metadata, client: Text, id: Text, topic: Text, t: Text)
    requires id !in RecordsOf(m, client)
    ensures |RecordsWith(WithRecord(m, client, id, topic), t)| == |RecordsWith(m, t)| + if t == topic then 1 else 0
  {
    hide RecordsWith, WithRecord, RecordsOf;
    var m' := WithRecord(m, client, id, topic);
    forall r
      ensures r in RecordsWith(m', t) <==> r in RecordsWith(m, t) || (t == topic && r == (client, id))
      ensures (client, id) !in RecordsWith(m, t)
    {
      OneRecordMore(m, client, id, topic, r, t);
    }
    if t == topic {
      assert RecordsWith(m', t) == RecordsWith(m, t) + {(client, id)};
    } else {
      assert RecordsWith(m', t) == RecordsWith(m, t);
    }
  }

  lemma OneRecordMore(m: Metadata, client: Text, id: Text, topic: Text, r: (Text, Text), t: Text)
    requires id !in RecordsOf(m, client)
    ensures r in RecordsWith(WithRecord(m, client, id, topic), t) <==>
      r in RecordsWith(m, t) || (t == topic && r == (client, id))
    ensures (client, id) !in RecordsWith(m, t)
  {
    hide RecordsWith;
    IsRecordWith(m, r, t);
    IsRecordWith(m, (client, id), t);
    IsRecordWith(WithRecord(m, client, id, topic), r, t);
  }

  predicate HasMatch(patterns: set<Text>, topic: Text) {
    exists p :: p in patterns && Matches(p, topic)
  }

  method FindMatch(patterns: set<Text>, topic: Text) returns (found: bool)
    ensures found <==> HasMatch(patterns, topic)
  {
    var rest := patterns;
    while rest != {}
      invariant rest <= patterns
      invariant forall p :: p in patterns - rest ==> !Matches(p, topic)
      decreases rest
    {
      var pattern :| pattern in rest;
      rest := rest - {pattern};
      var matches := MatchesPattern(pattern, topic);
      if matches {
        return true;
      }
    }
    return false;
  }

  method Elements(s: set<Text>) returns (elements: seq<Text>)
    ensures forall x :: x in elements <==> x in s
    ensures forall i, j :: 0 <= i < j < |elements| ==> elements[i] != elements[j]
  {
    elements := [];
    var rest := s;
    while rest != {}
      invariant rest <= s
      invariant forall x :: x in elements <==> x in s - rest
      invariant forall i, j :: 0 <= i < j < |elements| ==> elements[i] != elements[j]
      decreases rest
    {
      var x :| x in rest;
      rest := rest - {x};
      assert x !in elements;
      elements := elements + [x];
    }
  }

  lemma OfferCopiesLast(buffer: seq<Event>, e: Event, copies: nat)
    ensures Protocol.OfferCopies(buffer, e, copies + 1) == Protocol.Offer(Protocol.OfferCopies(buffer, e, copies), e)
    decreases copies
  {
    if copies > 0 {
      OfferCopiesLast(Protocol.Offer(buffer, e), e, copies - 1);
    }
  }

  lemma {:induction false} OfferCopiesFill(buffer: seq<Event>, e: Event, copies: nat)
    requires |buffer| <= Protocol.BUFFER_SIZE
    ensures |Protocol.OfferCopies(buffer, e, copies)| == Min(|buffer| + copies, Protocol.BUFFER_SIZE)
    decreases copies
  {
    if copies > 0 {
      OfferCopiesFill(Protocol.Offer(buffer, e), e, copies - 1);
    }
  }

  lemma NothingHanded(buffers: map<Subscriber, seq<Event>>, e: Event)
    ensures Handed(buffers, buffers, [], e) && RoomForAll(buffers, [])
  {
  }

  /** Each subscriber is listed as often as patterns route the topic to it. */
  ghost predicate Serves(subscribers: seq<Subscriber>, table: Table, topic: Text) {
    forall s :: multiset(subscribers)[s] == |DeliveringPatterns(table, topic, s, table.Keys)|
  }

  function LocalCount(subscribers: seq<Subscriber>): nat {
    if subscribers == [] then 0
    else LocalCount(subscribers[..|subscribers| - 1]) + if subscribers[|subscribers| - 1].local then 1 else 0
  }

  /** How many of the offers met a full channel. */
  function Refusals(before: map<Subscriber, seq<Event>>, subscribers: seq<Subscriber>): nat {
    if subscribers == [] then 0
    else
      var front, last := subscribers[..|subscribers| - 1], subscribers[|subscribers| - 1];
      Refusals(before, front)
      + if last.local && |BufferOf(before, last)| + Offered(front, last) >= Protocol.BUFFER_SIZE then 1 else 0
  }

  lemma RefusalsLast(before: map<Subscriber, seq<Event>>, subscribers: seq<Subscriber>, s: Subscriber)
    ensures Refusals(before, subscribers + [s]) == Refusals(before, subscribers)
      + if s.local && |BufferOf(before, s)| + Offered(subscribers, s) >= Protocol.BUFFER_SIZE then 1 else 0
  {
    assert (subscribers + [s])[..|subscribers|] == subscribers;
  }

  /** Part of the subscribers were reached: each has some of its copies. */
  lemma PartOfTheCopies(before: map<Subscriber, seq<Event>>, after: map<Subscriber, seq<Event>>,
                        reached: seq<Subscriber>, all: seq<Subscriber>, table: Table, e: Event)
    requires Handed(before, after, reached, e) && reached <= all
    requires forall s :: Offered(all, s) == Copies(table, e.topic, s)
    ensures PartlyDelivered(before, after, table, e)
  {
    hide Protocol.OfferCopies, Copies;
    assert all == reached + all[|reached|..];
    forall s
      ensures SomeCopies(BufferOf(before, s), BufferOf(after, s), e, Copies(table, e.topic, s))
    {
      assert Offered(reached, s) <= Offered(all, s);
    }
  }

  lemma UntouchedIsPart(buffers: map<Subscriber, seq<Event>>, table: Table, e: Event)
    ensures PartlyDelivered(buffers, buffers, table, e)
  {
    hide Copies;
    forall s
      ensures SomeCopies(BufferOf(buffers, s), BufferOf(buffers, s), e, Copies(table, e.topic, s))
    {
      assert BufferOf(buffers, s) == Protocol.OfferCopies(BufferOf(buffers, s), e, 0);
    }
  }

  lemma LocalCountLast(subscribers: seq<Subscriber>, s: Subscriber)
    ensures LocalCount(subscribers + [s]) == LocalCount(subscribers) + if s.local then 1 else 0
  {
    assert (subscribers + [s])[..|subscribers|] == subscribers;
  }

  lemma OfferedAreCopies(subscribers: seq<Subscriber>, table: Table, topic: Text)
    requires Serves(subscribers, table, topic)
    ensures forall s :: Offered(subscribers, s) == Copies(table, topic, s)
  {
  }

  lemma EachItsCopies(before: map<Subscriber, seq<Event>>, after: map<Subscriber, seq<Event>>,
                      subscribers: seq<Subscriber>, table: Table, e: Event)
    requires Handed(before, after, subscribers, e)
    requires forall s :: Offered(subscribers, s) == Copies(table, e.topic, s)
    ensures DeliveredLocally(before, after, table, e)
    ensures RoomForAll(before, subscribers) <==> RoomFor(before, table, e.topic)
  {
    hide Protocol.OfferCopies, Copies, Offered;
  }

  lemma InterestedOnce(views: map<Text, set<Text>>, topic: Text, peers: seq<Text>)
    requires forall i, j :: 0 <= i < j < |peers| ==> peers[i] != peers[j]
    ensures var chosen := InterestedPeers(views, topic, peers);
      && (forall p :: p in chosen <==> p in peers && Chosen(views, p, topic))
      && (forall i, j :: 0 <= i < j < |chosen| ==> chosen[i] != chosen[j])
    decreases |peers|
  {
    if peers != [] {
      InterestedOnce(views, topic, peers[..|peers| - 1]);
    }
  }

  /** What has been offered after walking part of the subscribers. */
  function Offered(subscribers: seq<Subscriber>, s: Subscriber): nat {
    if s.local then multiset(subscribers)[s] else 0
  }

  ghost predicate Handed(before: map<Subscriber, seq<Event>>, after: map<Subscriber, seq<Event>>,
                         subscribers: seq<Subscriber>, e: Event) {
    forall s :: BufferOf(after, s) == Protocol.OfferCopies(BufferOf(before, s), e, Offered(subscribers, s))
  }

  ghost predicate RoomForAll(before: map<Subscriber, seq<Event>>, subscribers: seq<Subscriber>) {
    forall s :: Offered(subscribers, s) > 0 ==> |BufferOf(before, s)| + Offered(subscribers, s) <= Protocol.BUFFER_SIZE
  }

  ghost predicate WithinCapacity(buffers: map<Subscriber, seq<Event>>) {
    forall s :: |BufferOf(buffers, s)| <= Protocol.BUFFER_SIZE
  }

  lemma HandOne(before: map<Subscriber, seq<Event>>, buffers: map<Subscriber, seq<Event>>,
                done: seq<Subscriber>, s: Subscriber, e: Event)
    requires Handed(before, buffers, done, e) && WithinCapacity(before)
    ensures var after := if s.local then buffers[s := Protocol.Offer(BufferOf(buffers, s), e)] else buffers;
      Handed(before, after, done + [s], e)
    ensures s.local ==>
      (RoomForAll(before, done + [s]) <==> RoomForAll(before, done) && |BufferOf(buffers, s)| < Protocol.BUFFER_SIZE)
    ensures |BufferOf(buffers, s)| < Protocol.BUFFER_SIZE <==>
      |BufferOf(before, s)| + Offered(done, s) < Protocol.BUFFER_SIZE
    ensures !s.local ==> (RoomForAll(before, done + [s]) <==> RoomForAll(before, done))
  {
    hide Protocol.OfferCopies;
    assert forall x :: Offered(done + [s], x) == Offered(done, x) + if x == s && s.local then 1 else 0;
    var k := Offered(done, s);
    OfferCopiesLast(BufferOf(before, s), e, k);
    OfferCopiesFill(BufferOf(before, s), e, k);
    if s.local && RoomForAll(before, done) && |BufferOf(buffers, s)| < Protocol.BUFFER_SIZE {
      assert |BufferOf(before, s)| + k < Protocol.BUFFER_SIZE;
    }
    if s.local && RoomForAll(before, done + [s]) {
      assert Offered(done + [s], s) == k + 1;
    }
  }

  lemma HandedWithinCapacity(before: map<Subscriber, seq<Event>>, after: map<Subscriber, seq<Event>>,
                             subscribers: seq<Subscriber>, e: Event)
    requires Handed(before, after, subscribers, e) && WithinCapacity(before)
    ensures WithinCapacity(after)
  {
    forall s
      ensures |BufferOf(after, s)| <= Protocol.BUFFER_SIZE
    {
      OfferCopiesFill(BufferOf(before, s), e, Offered(subscribers, s));
    }
  }

  // ---- what the counts of a delivery mean ------------------------------------------

  /** How many events the channels of some subscribers hold together. */
  ghost function HeldBy(buffers: map<Subscriber, seq<Event>>, among: set<Subscriber>): nat {
    if among == {} then 0
    else
      var s :| s in among;
      |BufferOf(buffers, s)| + HeldBy(buffers, among - {s})
  }

  lemma {:induction false} HeldByTakesAny(buffers: map<Subscriber, seq<Event>>, among: set<Subscriber>, s: Subscriber)
    requires s in among
    ensures HeldBy(buffers, among) == |BufferOf(buffers, s)| + HeldBy(buffers, among - {s})
    decreases among
  {
    var u :| u in among && HeldBy(buffers, among) == |BufferOf(buffers, u)| + HeldBy(buffers, among - {u});
    if u != s {
      HeldByTakesAny(buffers, among - {u}, s);
      HeldByTakesAny(buffers, among - {s}, u);
      assert among - {u} - {s} == among - {s} - {u};
    }
  }

  lemma {:induction false} HeldBySame(a: map<Subscriber, seq<Event>>, b: map<Subscriber, seq<Event>>,
                                      among: set<Subscriber>)
    requires forall s :: s in among ==> |BufferOf(a, s)| == |BufferOf(b, s)|
    ensures HeldBy(a, among) == HeldBy(b, among)
    decreases among
  {
    if among != {} {
      var s :| s in among;
      HeldByTakesAny(a, among, s);
      HeldByTakesAny(b, among, s);
      HeldBySame(a, b, among - {s});
    }
  }

  /** One offer more: to a local subscriber with room it adds an event, otherwise nothing. */
  lemma LastOffer(before: map<Subscriber, seq<Event>>, mid: map<Subscriber, seq<Event>>,
                  after: map<Subscriber, seq<Event>>, front: seq<Subscriber>, last: Subscriber, e: Event)
    requires WithinCapacity(before) && Handed(before, mid, front, e) && Handed(before, after, front + [last], e)
    ensures forall s :: s != last ==> |BufferOf(after, s)| == |BufferOf(mid, s)|
    ensures |BufferOf(after, last)| == |BufferOf(mid, last)| +
      if last.local && |BufferOf(before, last)| + Offered(front, last) < 100 then 1 else 0
  {
    hide Protocol.OfferCopies;
    forall s
      ensures |BufferOf(mid, s)| == Min(|BufferOf(before, s)| + Offered(front, s), 100)
      ensures |BufferOf(after, s)| == Min(|BufferOf(before, s)| + Offered(front + [last], s), 100)
    {
      OfferCopiesFill(BufferOf(before, s), e, Offered(front, s));
      OfferCopiesFill(BufferOf(before, s), e, Offered(front + [last], s));
    }
  }

  lemma OneMoreHeld(mid: map<Subscriber, seq<Event>>, after: map<Subscriber, seq<Event>>, among: set<Subscriber>,
                    last: Subscriber)
    requires last in among && forall s :: s != last ==> |BufferOf(after, s)| == |BufferOf(mid, s)|
    ensures HeldBy(after, among) - HeldBy(mid, among) == |BufferOf(after, last)| - |BufferOf(mid, last)|
  {
    HeldByTakesAny(mid, among, last);
    HeldByTakesAny(after, among, last);
    HeldBySame(mid, after, among - {last});
  }

  /** The channels of all that were reached have together grown by the number of offers made
      to local subscribers less those that met a full channel. */
  lemma {:induction false} CountsAreGrowth(before: map<Subscriber, seq<Event>>, after: map<Subscriber, seq<Event>>,
                                           subscribers: seq<Subscriber>, e: Event, among: set<Subscriber>)
    requires Handed(before, after, subscribers, e) && WithinCapacity(before)
    requires forall s :: s in subscribers ==> s in among
    ensures HeldBy(after, among) + Refusals(before, subscribers) == HeldBy(before, among) + LocalCount(subscribers)
    decreases |subscribers|
  {
    hide Protocol.OfferCopies, Offered, HeldBy, Handed, WithinCapacity, Refusals, LocalCount;
    if subscribers == [] {
      HandedNothing(before, after, e);
      HeldBySame(before, after, among);
      NoRefusals(before);
      LocalPlaces([]);
    } else {
      var front, last := subscribers[..|subscribers| - 1], subscribers[|subscribers| - 1];
      assert subscribers == front + [last];
      var mid := HandedTo(before, front, e);
      CountsAreGrowth(before, mid, front, e, among);
      LastOffer(before, mid, after, front, last, e);
      OneMoreHeld(mid, after, among, last);
      RefusalsLast(before, front, last);
      LocalCountLast(front, last);
    }
  }

  lemma HandedNothing(before: map<Subscriber, seq<Event>>, after: map<Subscriber, seq<Event>>, e: Event)
    requires Handed(before, after, [], e)
    ensures forall s :: |BufferOf(after, s)| == |BufferOf(before, s)|
  {
  }

  lemma HandedTo(before: map<Subscriber, seq<Event>>, subscribers: seq<Subscriber>, e: Event)
    returns (after: map<Subscriber, seq<Event>>)
    ensures Handed(before, after, subscribers, e)
  {
    var reached := before.Keys + set s | s in subscribers;
    after := map s | s in reached :: Protocol.OfferCopies(BufferOf(before, s), e, Offered(subscribers, s));
  }

  /** The offers made are those to the places in the list held by local subscribers. */
  lemma {:induction false} LocalPlaces(subscribers: seq<Subscriber>)
    ensures LocalCount(subscribers) == |set i | 0 <= i < |subscribers| && subscribers[i].local|
  {
    var places := set i | 0 <= i < |subscribers| && subscribers[i].local;
    if subscribers != [] {
      var k := |subscribers| - 1;
      LocalPlaces(subscribers[..k]);
      var fewer := set i | 0 <= i < |subscribers[..k]| && subscribers[..k][i].local;
      assert places == if subscribers[k].local then fewer + {k} else fewer;
    }
  }

  /** Every local subscriber's channel takes all its copies of the event. */
  ghost predicate RoomFor(buffers: map<Subscriber, seq<Event>>, table: Table, topic: Text) {
    forall s :: Copies(table, topic, s) > 0 ==> |BufferOf(buffers, s)| + Copies(table, topic, s) <= Protocol.BUFFER_SIZE
  }

  /** The peers the event has to go to. */
  function Targets(views: map<Text, set<Text>>, connected: set<Text>, topic: Text): set<Text> {
    set p | p in connected && Chosen(views, p, topic)
  }

  function Queued(out: map<Text, seq<Event>>, peers: seq<Text>, refusing: set<Text>, e: Event): map<Text, seq<Event>> {
    map p | p in out :: if p in peers && p !in refusing then out[p] + [e] else out[p]
  }

  function Members(peers: seq<Text>): set<Text> {
    set p | p in peers
  }

  lemma DisjointByCount(a: set<Text>, b: set<Text>)
    ensures |a * b| == 0 <==> a !! b
  {
    assert |a * b| == 0 <==> a * b == {};
    forall x | |a * b| == 0 && x in a
      ensures x !in b
    {
      assert x !in a * b;
    }
  }

  lemma EnqueuedNone(queues: Queues, message: InterestMessage, refusing: set<Text>)
    ensures Enqueued(queues, message, {}, refusing) == queues
  {
  }

  lemma EnqueuedOneMore(queues: Queues, message: InterestMessage, done: set<Text>, refusing: set<Text>, peer: Text)
    requires peer in queues && peer !in done
    ensures var before := Enqueued(queues, message, done, refusing);
      && before.Keys == queues.Keys
      && Enqueued(queues, message, done + {peer}, refusing) ==
          if peer in refusing then before else before[peer := before[peer] + [message]]
  {
  }

  lemma NoMembers(refusing: set<Text>)
    ensures |Members([]) - refusing| == 0 && |Members([]) * refusing| == 0
  {
  }

  lemma OneMoreMember(peers: seq<Text>, peer: Text, refusing: set<Text>)
    requires peer !in peers
    ensures |Members(peers + [peer]) - refusing| == |Members(peers) - refusing| + if peer in refusing then 0 else 1
    ensures |Members(peers + [peer]) * refusing| == |Members(peers) * refusing| + if peer in refusing then 1 else 0
  {
    assert Members(peers + [peer]) == Members(peers) + {peer};
    if peer in refusing {
      assert Members(peers + [peer]) - refusing == Members(peers) - refusing;
      assert Members(peers + [peer]) * refusing == Members(peers) * refusing + {peer};
    } else {
      assert Members(peers + [peer]) - refusing == Members(peers) - refusing + {peer};
      assert Members(peers + [peer]) * refusing == Members(peers) * refusing;
    }
  }

  lemma QueuedNone(out: map<Text, seq<Event>>, refusing: set<Text>, e: Event)
    ensures Queued(out, [], refusing, e) == out
  {
  }

  lemma QueuedOneMore(out: map<Text, seq<Event>>, peers: seq<Text>, peer: Text, refusing: set<Text>, e: Event)
    requires peer in out && peer !in peers
    ensures var queues := Queued(out, peers, refusing, e);
      && queues.Keys == out.Keys
      && Queued(out, peers + [peer], refusing, e) ==
          if peer in refusing then queues else queues[peer := queues[peer] + [e]]
  {
  }

  function QueuedTo(out: map<Text, seq<Event>>, peers: set<Text>, refusing: set<Text>,
                    e: Event): map<Text, seq<Event>> {
    map p | p in out :: if p in peers && p !in refusing then out[p] + [e] else out[p]
  }

  lemma QueuedForTargets(out: map<Text, seq<Event>>, part: seq<Text>, peers: seq<Text>, views: map<Text, set<Text>>,
                         connected: set<Text>, refusing: set<Text>, e: Event)
    requires part <= peers && forall p :: p in peers <==> p in connected && Chosen(views, p, e.topic)
    ensures Queued(out, part, refusing, e) == QueuedTo(out, Members(part), refusing, e)
    ensures Queued(out, part, refusing, e).Keys == out.Keys
    ensures Members(part) <= Targets(views, connected, e.topic)
    ensures |part| == |peers| ==>
      && Members(part) == Targets(views, connected, e.topic)
      && Queued(out, part, refusing, e) == Forwarded(out, views, connected, refusing, e)
  {
    assert forall p :: p in part ==> p in peers;
    if |part| == |peers| {
      assert part == peers;
      assert forall p :: p in peers <==> p in Targets(views, connected, e.topic);
    }
  }

  lemma NoRefusals(before: map<Subscriber, seq<Event>>)
    ensures Refusals(before, []) == 0
  {
  }

  ghost predicate Ascending(texts: seq<Text>) {
    forall i, j :: 0 <= i < j < |texts| ==> LexLt(texts[i], texts[j])
  }

  /** The standard library's sort, on distinct texts. */
  method SortStrings(texts: seq<Text>) returns (sorted: seq<Text>)
    ensures forall t :: t in sorted <==> t in texts
    ensures Ascending(sorted)
  {
    var all := set t | t in texts;
    var rest := all;
    sorted := [];
    while rest != {}
      invariant rest <= all
      invariant forall t :: t in sorted <==> t in all && t !in rest
      invariant Ascending(sorted)
      invariant forall t, u :: t in sorted && u in rest ==> LexLt(t, u)
      decreases rest
    {
      LeastExists(rest);
      var least :| least in rest && forall u :: u in rest ==> LexLe(least, u);
      rest := rest - {least};
      sorted := sorted + [least];
    }
  }

  datatype Record = Record(client: Text, id: Text, topic: Text)

  ghost predicate SnapshotQueued(before: Queues, after: Queues, node: Text, peer: Text, interests: set<Text>) {
    && peer in before && peer in after
    && exists topics :: Listed(topics) == interests && after[peer] == before[peer] + [Snapshot(node, topics)]
  }

  /** Part of a tick: of the connected peers some have been seen to. */
  ghost predicate Resynced(before: NodeState, after: NodeState, n: Text, done: set<Text>, refusing: set<Text>) {
    && after == before.(seen := before.seen + (done - refusing), queues := after.queues)
    && after.queues.Keys == before.queues.Keys
    && forall p :: p in before.queues ==>
      if p in done && p !in before.seen && p !in refusing
      then SnapshotQueued(before.queues, after.queues, n, p, Interests(before.meta) - {[]})
      else after.queues[p] == before.queues[p]
  }

  lemma ResyncedOneMore(before: NodeState, s: NodeState, n: Text, done: set<Text>, refusing: set<Text>, peer: Text,
                        topics: seq<Text>)
    requires Resynced(before, s, n, done, refusing) && peer in before.queues && peer !in done
    requires Listed(topics) == Interests(before.meta) - {[]}
    ensures peer in s.seen || peer in refusing ==> Resynced(before, s, n, done + {peer}, refusing)
    ensures peer !in s.seen && peer !in refusing ==>
      Resynced(before, Gossip.Stepped(s, Gossip.Resync(n, peer, topics)), n, done + {peer}, refusing)
  {
    hide Interests;
    var after := Gossip.Stepped(s, Gossip.Resync(n, peer, topics));
    if peer !in s.seen && peer !in refusing {
      assert after.queues[peer] == before.queues[peer] + [Snapshot(n, topics)];
    }
  }

  lemma ResyncedSeen(before: NodeState, s: NodeState, n: Text, done: set<Text>, refusing: set<Text>, peer: Text)
    requires Resynced(before, s, n, done, refusing) && peer !in done && peer in s.seen
    ensures Resynced(before, s, n, done + {peer}, refusing)
  {
    hide SnapshotQueued;
    assert before.seen + (done + {peer} - refusing) == before.seen + (done - refusing);
  }

  lemma TickStarts(n: Text, s: NodeState, refusing: set<Text>)
    ensures Resynced(s, s, n, {}, refusing) && Gossip.Ticked(n, s, [], s)
  {
  }

  lemma ResyncedAll(before: NodeState, s: NodeState, n: Text, refusing: set<Text>)
    requires Resynced(before, s, n, before.connected, refusing)
    ensures s.seen * before.connected == set p | p in before.connected && (p in before.seen || p !in refusing)
    ensures s.queues.Keys == before.queues.Keys
    ensures forall p :: p in s.queues ==>
      if p in before.connected && p !in before.seen && p !in refusing
      then SnapshotQueued(before.queues, s.queues, n, p, Interests(before.meta) - {[]})
      else s.queues[p] == before.queues[p]
  {
    hide SnapshotQueued;
  }

  class MeshNode {
    const nodeId: Text
    const table: InMemoryRoutingTable
    const eventLog: InMemoryEventLog.InMemoryEventLog
    var started: bool
    var closed: bool
    var clients: map<Text, Client>
    var subscriptions: Metadata
    var connected: set<Text>
    var seenPeers: set<Text>
    var controlQueues: Queues
    var dataQueues: map<Text, seq<Event>>
    var peerSubscriptions: map<Text, set<Text>>
    var buffers: map<Subscriber, seq<Event>>   // the channel of each client object
    ghost var origins: map<Text, seq<Origin>>

    ghost predicate Valid()
      reads this, table, eventLog
    {
      && table.Valid() && eventLog.Valid()
      && connected <= controlQueues.Keys && connected <= dataQueues.Keys
      && WithinCapacity(buffers)
    }

    ghost function View(): NodeState
      reads this, table
    {
      NodeState(subscriptions, table.subscriptions, connected, seenPeers, controlQueues, peerSubscriptions)
    }

    ghost function Events(): Delivery
      reads this, eventLog
    {
      Delivery(eventLog.eventsByTopic, origins, buffers, dataQueues)
    }

    constructor (nodeId: Text)
      ensures Valid() && fresh(table) && fresh(eventLog) && this.nodeId == nodeId && !started && !closed
      ensures View() == NodeState(map[], map[], {}, {}, map[], map[])
      ensures Events() == Delivery(map[], map[], map[], map[])
    {
      this.nodeId := nodeId;
      table := new InMemoryRoutingTable();
      eventLog := new InMemoryEventLog.InMemoryEventLog();
      started, closed, clients, subscriptions := false, false, map[], map[];
      connected, seenPeers, controlQueues, dataQueues := {}, {}, map[], map[];
      peerSubscriptions, buffers, origins := map[], map[], map[];
    }

    // ---- starting, stopping and connections --------------------------------------

    /** Starting also starts the resync loop, which has seen no peer yet. */
    method Start(failing: bool) returns (error: Option<NodeError>)
      requires Valid()
      modifies this`started, this`seenPeers
      ensures Valid() && Events() == old(Events())
      ensures error == if closed then Some(ClosedNode) else if !old(started) && failing then Some(StartFailed) else None
      ensures started == (old(started) || error == None)
      ensures View() == if started && !old(started) then old(View()).(seen := {}) else old(View())
    {
      if closed {
        return Some(ClosedNode);
      }
      if started {
        return None;
      }
      if failing {
        return Some(StartFailed);
      }
      seenPeers := {};
      started := true;
      return None;
    }

    method Stop()
      requires Valid()
      modifies this`started
      ensures Valid() && !started && View() == old(View()) && Events() == old(Events())
    {
      started := false;
    }

    method Close()
      requires Valid()
      modifies this`started, this`closed, table, eventLog
      ensures Valid() && closed && (started ==> old(started && closed))
      ensures !old(closed) ==> table.closed && eventLog.closed && View() == old(View()).(table := map[])
      ensures old(closed) ==> View() == old(View())
      ensures Events() == old(Events())
    {
      if closed {
        return;
      }
      eventLog.Close();
      table.Close();
      started, closed := false, true;
    }

    /** A stream with a peer is up: the peer counts as connected and has its queues. */
    method PeerConnected(peer: Text)
      requires Valid()
      modifies this`connected, this`controlQueues, this`dataQueues
      ensures Valid() && View() == Gossip.Stepped(old(View()), Gossip.Link(nodeId, peer))
      ensures dataQueues == if peer in old(dataQueues) then old(dataQueues) else old(dataQueues)[peer := []]
    {
      if peer !in controlQueues {
        controlQueues := controlQueues[peer := []];
      } else {
        assert controlQueues[peer := controlQueues[peer]] == controlQueues;
      }
      if peer !in dataQueues {
        dataQueues := dataQueues[peer := []];
      }
      connected := connected + {peer};
    }

    /** An inbound stream has ended: its queues stay for the next one. */
    method StreamEnded(peer: Text)
      requires Valid()
      modifies this`connected
      ensures Valid() && View() == Gossip.Stepped(old(View()), Gossip.Unlink(nodeId, peer))
    {
      connected := connected - {peer};
    }

    method PeerDisconnected(peer: Text)
      requires Valid()
      modifies this`connected, this`controlQueues, this`dataQueues
      ensures Valid() && View() == Gossip.Stepped(old(View()), Gossip.Disconnect(nodeId, peer))
      ensures dataQueues == old(dataQueues) - {peer}
    {
      connected := connected - {peer};
      dataQueues := dataQueues - {peer};
      controlQueues := controlQueues - {peer};
    }

    // ---- subscription records ----------------------------------------------

    method LocalTopicInterestCount(topic: Text) returns (count: nat)
      ensures count == |RecordsWith(subscriptions, topic)|
    {
      count := 0;
      ghost var counted: set<(Text, Text)> := {};
      var clientIds := subscriptions.Keys;
      while clientIds != {}
        invariant clientIds <= subscriptions.Keys && count == |counted|
        invariant forall r :: r in counted <==> r in RecordsWith(subscriptions, topic) && r.0 !in clientIds
        decreases clientIds
      {
        var client :| client in clientIds;
        clientIds := clientIds - {client};
        var ids := subscriptions[client].Keys;
        while ids != {}
          invariant ids <= subscriptions[client].Keys && count == |counted|
          invariant forall r :: r in counted <==>
            r in RecordsWith(subscriptions, topic) && r.0 !in clientIds && (r.0 == client ==> r.1 !in ids)
          decreases ids
        {
          var id :| id in ids;
          ids := ids - {id};
          if subscriptions[client][id] == topic {
            count := count + 1;
            counted := counted + {(client, id)};
          }
        }
      }
      assert counted == RecordsWith(subscriptions, topic);
    }

    method AddSubscriptionMetadata(client: Text, id: Text, topic: Text)
      modifies this`subscriptions
      ensures subscriptions == WithRecord(old(subscriptions), client, id, topic)
    {
      if client !in subscriptions {
        subscriptions := subscriptions[client := map[]];
      }
      subscriptions := subscriptions[client := subscriptions[client][id := topic]];
    }

    method RemoveSubscriptionMetadataByTopic(client: Text, topic: Text)
      modifies this`subscriptions
      ensures subscriptions == WithoutTopic(old(subscriptions), client, topic)
    {
      if client !in subscriptions {
        assert subscriptions - {client} == subscriptions;
        return;
      }
      var records := subscriptions[client];
      var kept := records;
      var ids := records.Keys;
      while ids != {}
        invariant ids <= records.Keys
        invariant kept == map id | id in records && (id in ids || records[id] != topic) :: records[id]
        decreases ids
      {
        var id :| id in ids;
        ids := ids - {id};
        if records[id] == topic {
          kept := kept - {id};
        }
      }
      assert kept == map id | id in RecordsOf(subscriptions, client) && RecordsOf(subscriptions, client)[id] != topic
        :: RecordsOf(subscriptions, client)[id];
      if |kept| == 0 {
        subscriptions := subscriptions - {client};
      } else {
        subscriptions := subscriptions[client := kept];
      }
    }

    method LocalSubscriptionSnapshot() returns (records: seq<Record>)
      ensures forall c, id, t :: Record(c, id, t) in records <==>
        id in RecordsOf(subscriptions, c) && subscriptions[c][id] == t
    {
      records := [];
      var clientIds := subscriptions.Keys;
      while clientIds != {}
        invariant clientIds <= subscriptions.Keys
        invariant forall c, id, t :: Record(c, id, t) in records <==>
          c !in clientIds && id in RecordsOf(subscriptions, c) && subscriptions[c][id] == t
        decreases clientIds
      {
        var client :| client in clientIds;
        clientIds := clientIds - {client};
        var ids := subscriptions[client].Keys;
        while ids != {}
          invariant ids <= subscriptions[client].Keys
          invariant forall c, id, t :: Record(c, id, t) in records <==>
            c !in clientIds && (c == client ==> id !in ids) && id in RecordsOf(subscriptions, c) &&
                subscriptions[c][id] == t
          decreases ids
        {
          var id :| id in ids;
          ids := ids - {id};
          records := records + [Record(client, id, subscriptions[client][id])];
        }
      }
    }

    /** The distinct patterns of the node's clients, in order. */
    method LocalInterestSnapshot() returns (topics: seq<Text>)
      ensures forall t :: t in topics <==> t in Interests(subscriptions)
      ensures Ascending(topics)
    {
      var records := LocalSubscriptionSnapshot();
      var seen: set<Text> := {};
      topics := [];
      for i := 0 to |records|
        invariant forall t :: t in topics <==> t in seen
        invariant forall t :: t in seen <==> exists r :: r in records[..i] && r.topic == t
        invariant forall i, j :: 0 <= i < j < |topics| ==> topics[i] != topics[j]
      {
        var topic := records[i].topic;
        assert records[..i + 1] == records[..i] + [records[i]];
        if topic !in seen {
          seen := seen + {topic};
          topics := topics + [topic];
        }
      }
      assert records[..|records|] == records;
      forall t
        ensures t in topics <==> t in Interests(subscriptions)
      {
        if t in topics {
          var r :| r in records && r.topic == t;
          assert Record(r.client, r.id, r.topic) in records;
        }
        if t in Interests(subscriptions) {
          var c, id :| c in subscriptions && id in subscriptions[c] && subscriptions[c][id] == t;
          assert Record(c, id, t) in records;
        }
      }
      topics := SortStrings(topics);
    }

    // ---- telling the peers -----------------------------------------------------

    /** Offers an update to every connected peer; it is an error only when all refuse. */
    method PropagateInterestUpdate(action: Action, topic: Text, refusing: set<Text>) returns (failed: bool)
      requires Valid()
      modifies this`controlQueues
      ensures Valid()
      ensures controlQueues == Enqueued(old(controlQueues), Update(nodeId, action, topic), connected, refusing)
      ensures failed <==> connected != {} && connected <= refusing
    {
      hide WithinCapacity, InMemoryRoutingTable.Valid, InMemoryEventLog.InMemoryEventLog.Valid, Enqueued;
      var message := Update(nodeId, action, topic);
      var successCount, failureCount := 0, 0;
      var rest := connected;
      EnqueuedNone(controlQueues, message, refusing);
      assert connected - rest == {};
      while rest != {}
        invariant Valid() && rest <= connected && successCount >= 0 && failureCount >= 0
        invariant controlQueues == Enqueued(old(controlQueues), message, connected - rest, refusing)
        invariant successCount == 0 <==> connected - rest <= refusing
        invariant failureCount == 0 <==> (connected - rest) !! refusing
        decreases rest
      {
        var peer :| peer in rest;
        EnqueuedOneMore(old(controlQueues), message, connected - rest, refusing, peer);
        assert connected - (rest - {peer}) == connected - rest + {peer};
        rest := rest - {peer};
        if peer in refusing {
          failureCount := failureCount + 1;
        } else {
          controlQueues := controlQueues[peer := controlQueues[peer] + [message]];
          successCount := successCount + 1;
        }
      }
      assert connected - rest == connected;
      return failureCount > 0 && successCount == 0;
    }

    /** Queues a snapshot of the node's interest for a peer that takes it. */
    method SyncLocalSubscriptionsToPeer(peer: Text, refusing: set<Text>) returns (failed: bool, topics: seq<Text>)
      requires Valid() && peer in connected
      modifies this`controlQueues
      ensures Valid() && Listed(topics) == Interests(subscriptions) - {[]}
      ensures failed <==> peer in refusing
      ensures controlQueues == if failed then old(controlQueues)
                               else old(controlQueues)[peer := old(controlQueues)[peer] + [Snapshot(nodeId, topics)]]
    {
      hide WithinCapacity, InMemoryRoutingTable.Valid, InMemoryEventLog.InMemoryEventLog.Valid, Interests;
      topics := LocalInterestSnapshot();
      if peer in refusing {
        return true, topics;
      }
      controlQueues := controlQueues[peer := controlQueues[peer] + [Snapshot(nodeId, topics)]];
      return false, topics;
    }

    /** One tick of the resync loop: a snapshot for each connected peer not seen before. The
        steps say it as a run of the gossip model. */
    method ResyncTick(refusing: set<Text>) returns (ghost steps: seq<Gossip.Step>)
      requires Valid()
      modifies this`controlQueues, this`seenPeers
      ensures Valid()
      ensures seenPeers == set p | p in connected && (p in old(seenPeers) || p !in refusing)
      ensures controlQueues.Keys == old(controlQueues).Keys
      ensures forall p :: p in controlQueues ==>
        if p in connected && p !in old(seenPeers) && p !in refusing
        then SnapshotQueued(old(controlQueues), controlQueues, nodeId, p, Interests(subscriptions) - {[]})
        else controlQueues[p] == old(controlQueues)[p]
      ensures Gossip.Ticked(nodeId, old(View()), steps, View())
    {
      hide WithinCapacity, InMemoryRoutingTable.Valid, InMemoryEventLog.InMemoryEventLog.Valid, Interests;
      hide Gossip.Ticked, SnapshotQueued, Resynced;
      steps := [];
      TickStarts(nodeId, View(), refusing);
      ghost var before := View();
      var rest := connected;
      assert connected - rest == {};
      while rest != {}
        invariant Valid() && rest <= connected
        invariant Resynced(before, View(), nodeId, connected - rest, refusing)
        invariant Gossip.Ticked(nodeId, before, steps, View())
        decreases rest
      {
        var peer :| peer in rest;
        assert connected - (rest - {peer}) == connected - rest + {peer};
        rest := rest - {peer};
        ghost var s := View();
        if peer !in seenPeers {
          var failed, topics := SyncLocalSubscriptionsToPeer(peer, refusing);
          ResyncedOneMore(before, s, nodeId, connected - rest - {peer}, refusing, peer, topics);
          if !failed {
            seenPeers := seenPeers + {peer};
            Gossip.TickGoesOn(nodeId, before, steps, s, Gossip.Resync(nodeId, peer, topics));
            steps := steps + [Gossip.Resync(nodeId, peer, topics)];
          }
        } else {
          ResyncedSeen(before, s, nodeId, connected - rest - {peer}, refusing, peer);
        }
      }
      assert connected - rest == connected;
      ResyncedAll(before, View(), nodeId, refusing);
      Gossip.TickGoesOn(nodeId, before, steps, View(), Gossip.EndOfTick(nodeId, connected));
      steps := steps + [Gossip.EndOfTick(nodeId, connected)];
      seenPeers := seenPeers * connected;
    }

    // ---- Subscribe and Unsubscribe ------------------------------------------------

    ghost function Refused(client: Option<Client>, topic: Text): Option<NodeError>
      reads this
    {
      if closed then Some(ClosedNode)
      else if !started then Some(StoppedNode)
      else if client == None then Some(NilClient)
      else if topic == [] then Some(NoTopic)
      else if !client.value.authenticated then Some(NotAuthenticated)
      else None
    }

    method Subscribe(client: Option<Client>, topic: Text, id: Text,
                     refusing: set<Text>) returns (error: Option<NodeError>)
      requires Valid()
      requires client.Some? && client.value.subscriber.Some? ==> client.value.subscriber.value.id == client.value.id
      modifies this`clients, this`subscriptions, this`controlQueues, table
      ensures Valid() && table.closed == old(table.closed)
      ensures error == if old(Refused(client, topic)).Some? then old(Refused(client, topic))
                       else if client.value.subscriber == None then Some(NotASubscriber)
                       else if table.closed then Some(RoutingFailed(ClosedTable))
                       else None
      ensures error.Some? ==> View() == old(View()) && clients == old(clients)
      ensures error == None ==>
        && View() == Interest.Subscribe(old(View()), nodeId, client.value.subscriber.value, id, topic, refusing)
        && clients == old(clients)[client.value.id := client.value]
      ensures error == None <==>
        && !closed && started && client.Some? && client.value.authenticated && client.value.subscriber.Some?
        && topic != [] && !table.closed
      ensures error == Some(ClosedNode) <==> closed
      ensures error == Some(StoppedNode) <==> !closed && !started
      ensures error == Some(NilClient) <==> !closed && started && client == None
      ensures error == Some(NoTopic) <==> !closed && started && client.Some? && topic == []
      ensures error == Some(NotAuthenticated) <==>
        !closed && started && client.Some? && topic != [] && !client.value.authenticated
      ensures error == None ==>
        var s := client.value.subscriber.value;
        && (forall t, x :: Routes(table.subscriptions, t, x) <==>
              (t, x) == (topic, s) || (Routes(old(table.subscriptions), t, x) && (t, x.id) != (topic, s.id)))
        && (forall c, i :: i in RecordsOf(subscriptions, c) <==>
              i in RecordsOf(old(subscriptions), c) || (c, i) == (s.id, id))
        && RecordsOf(subscriptions, s.id)[id] == topic
    {
      hide WithinCapacity, InMemoryRoutingTable.Valid, Subscribed, WithRecord, Interests, Enqueued, RecordsWith;
      hide InMemoryEventLog.InMemoryEventLog.Valid;
      if closed {
        return Some(ClosedNode);
      }
      if !started {
        return Some(StoppedNode);
      }
      if client == None {
        return Some(NilClient);
      }
      if topic == [] {
        return Some(NoTopic);
      }
      if !client.value.authenticated {
        return Some(NotAuthenticated);
      }
      if client.value.subscriber == None {
        return Some(NotASubscriber);
      }
      var interestCount := LocalTopicInterestCount(topic);
      CountIsInterest(subscriptions, topic);
      var refusal := table.Subscribe(topic, client.value.subscriber);
      if refusal.Some? {
        return Some(RoutingFailed(refusal.value));
      }
      clients := clients[client.value.id := client.value];
      AddSubscriptionMetadata(client.value.id, id, topic);
      if interestCount == 0 {
        var _ := PropagateInterestUpdate(AddInterest, topic, refusing);
      }
      SubscribeChangesOne(old(View()), nodeId, client.value.subscriber.value, id, topic, refusing);
      return None;
    }

    method Unsubscribe(client: Option<Client>, topic: Text, refusing: set<Text>) returns (error: Option<NodeError>)
      requires Valid()
      modifies this`subscriptions, this`controlQueues, table
      ensures Valid() && table.closed == old(table.closed)
      ensures error == if old(Refused(client, topic)).Some? then old(Refused(client, topic))
                       else if table.closed then Some(RoutingFailed(ClosedTable))
                       else None
      ensures error.Some? ==> View() == old(View())
      ensures error == None ==> View() == Interest.Unsubscribe(old(View()), nodeId, client.value.id, topic, refusing)
      ensures error == None <==>
        !closed && started && client.Some? && client.value.authenticated && topic != [] && !table.closed
      ensures error == Some(ClosedNode) <==> closed
      ensures error == Some(StoppedNode) <==> !closed && !started
      ensures error == Some(NilClient) <==> !closed && started && client == None
      ensures error == Some(NoTopic) <==> !closed && started && client.Some? && topic == []
      ensures error == Some(NotAuthenticated) <==>
        !closed && started && client.Some? && topic != [] && !client.value.authenticated
      ensures error == None ==>
        var c := client.value.id;
        && (forall t, x :: Routes(table.subscriptions, t, x) <==>
              Routes(old(table.subscriptions), t, x) && (t, x.id) != (topic, c))
        && (forall d, i :: i in RecordsOf(subscriptions, d) <==>
              i in RecordsOf(old(subscriptions), d) && (d, RecordsOf(old(subscriptions), d)[i]) != (c, topic))
    {
      if closed {
        return Some(ClosedNode);
      }
      if !started {
        return Some(StoppedNode);
      }
      if client == None {
        return Some(NilClient);
      }
      if topic == [] {
        return Some(NoTopic);
      }
      if !client.value.authenticated {
        return Some(NotAuthenticated);
      }
      var refusal := table.Unsubscribe(topic, client.value.id);
      if refusal.Some? {
        return Some(RoutingFailed(refusal.value));
      }
      RemoveSubscriptionMetadataByTopic(client.value.id, topic);
      var interestCount := LocalTopicInterestCount(topic);
      CountIsInterest(subscriptions, topic);
      if interestCount == 0 {
        var _ := PropagateInterestUpdate(DropInterest, topic, refusing);
      }
      UnsubscribeChangesOne(old(View()), nodeId, client.value.id, topic, refusing);
      return None;
    }

    /** Removing one subscription by its ID removes all of the client's subscriptions to
        the same pattern. */
    method UnsubscribeByID(clientId: Text, id: Text, refusing: set<Text>) returns (error: Option<NodeError>)
      requires Valid()
      modifies this`subscriptions, this`controlQueues, table
      ensures Valid()
      ensures id !in RecordsOf(old(subscriptions), clientId) ==>
        error == Some(SubscriptionNotFound) && View() == old(View())
      ensures id in RecordsOf(old(subscriptions), clientId) && clientId !in clients ==>
        error == Some(ClientNotFound) && View() == old(View())
      ensures id in RecordsOf(old(subscriptions), clientId) && clientId in clients ==>
        var refusal := old(Refused(Some(clients[clientId]), subscriptions[clientId][id]));
        error == if refusal.Some? then refusal else if table.closed then Some(RoutingFailed(ClosedTable)) else None
      ensures error.Some? ==> View() == old(View())
      ensures error == None ==>
        && id in RecordsOf(old(subscriptions), clientId) && clientId in clients
        && View() == Interest.Unsubscribe(old(View()), nodeId, clients[clientId].id,
            old(subscriptions)[clientId][id], refusing)
    {
      if clientId !in subscriptions {
        return Some(SubscriptionNotFound);
      }
      if id !in subscriptions[clientId] {
        return Some(SubscriptionNotFound);
      }
      var topic := subscriptions[clientId][id];
      if clientId !in clients {
        return Some(ClientNotFound);
      }
      error := Unsubscribe(Some(clients[clientId]), topic, refusing);
    }

    // ---- what peers say ---------------------------------------------------------------

    method ProcessIncomingInterestMessage(message: InterestMessage)
      requires Valid()
      modifies this`peerSubscriptions
      ensures Valid() && View() == Received(old(View()), message)
      ensures forall p :: p != message.nodeId ==> ViewOf(View(), p) == ViewOf(old(View()), p)
      ensures var told, known := ViewOf(View(), message.nodeId), ViewOf(old(View()), message.nodeId);
        && (message.Snapshot? ==> forall t :: t in told <==> t in message.topics && t != [])
        && (message.Update? && message.action == AddInterest ==> told == known + {message.topic})
        && (message.Update? && message.action == DropInterest ==> told == known - {message.topic})
        && (message.Update? && message.action == UnknownAction ==> told == known)
    {
      match message
      case Update(peer, action, topic) =>
        if peer !in peerSubscriptions {
          peerSubscriptions := peerSubscriptions[peer := {}];
        }
        match action {
          case AddInterest => peerSubscriptions := peerSubscriptions[peer := peerSubscriptions[peer] + {topic}];
          case DropInterest => peerSubscriptions := peerSubscriptions[peer := peerSubscriptions[peer] - {topic}];
          case UnknownAction =>
        }
      case Snapshot(peer, topics) =>
        var patterns: set<Text> := {};
        for i := 0 to |topics|
          invariant patterns == Listed(topics[..i])
        {
          assert topics[..i + 1] == topics[..i] + [topics[i]];
          if topics[i] != [] {
            patterns := patterns + {topics[i]};
          }
        }
        assert topics[..|topics|] == topics;
        peerSubscriptions := peerSubscriptions[peer := patterns];
    }

    method GetInterestedPeers(topic: Text, allPeers: seq<Text>) returns (interested: seq<Text>)
      ensures interested == InterestedPeers(peerSubscriptions, topic, allPeers)
    {
      interested := [];
      for i := 0 to |allPeers|
        invariant interested == InterestedPeers(peerSubscriptions, topic, allPeers[..i])
      {
        assert allPeers[..i + 1][..i] == allPeers[..i];
        var peer := allPeers[i];
        if peer in peerSubscriptions {
          var found := FindMatch(peerSubscriptions[peer], topic);
          if found {
            interested := interested + [peer];
          }
        }
      }
      assert allPeers[..|allPeers|] == allPeers;
    }

    // ---- publishing ---------------------------------------------------------------------

    /** The non-blocking send into a client's channel. */
    method DeliverEvent(s: Subscriber, e: Event) returns (delivered: bool)
      modifies this`buffers
      ensures buffers == old(buffers)[s := Protocol.Offer(BufferOf(old(buffers), s), e)]
      ensures delivered <==> |BufferOf(old(buffers), s)| < Protocol.BUFFER_SIZE
    {
      var channel := BufferOf(buffers, s);
      delivered := |channel| < Protocol.BUFFER_SIZE;
      buffers := buffers[s := if delivered then channel + [e] else channel];
    }

    /** Walks the subscribers until the context is done. Checks of the context are numbered
        from check on; next is the number of the check that comes after. */
    method DeliverToLocalSubscribers(ctx: Context, check: nat, e: Event)
      returns (result: DeliveryResult, next: nat, ghost reached: seq<Subscriber>)
      requires Valid()
      modifies this`buffers
      ensures Valid() && result.peerSuccesses == result.peerFailures == 0 && next >= check
      ensures table.closed ==> buffers == old(buffers) && !result.HasFailures()
      ensures !table.closed ==>
        && Handed(old(buffers), buffers, reached, e)
        && result.localFailures == Refusals(old(buffers), reached)
        && result.localSuccesses + result.localFailures == LocalCount(reached)
        && PartlyDelivered(old(buffers), buffers, table.subscriptions, e)
      ensures !table.closed && !ctx.Done(next) ==>
        && Serves(reached, table.subscriptions, e.topic)
        && DeliveredLocally(old(buffers), buffers, table.subscriptions, e)
        && (result.localFailures == 0 <==> RoomFor(old(buffers), table.subscriptions, e.topic))
    {
      hide Protocol.OfferCopies, DeliveringPatterns, Handed, RoomForAll, Offered, WellFormed, WithinCapacity;
      hide DeliveredLocally, PartlyDelivered, RoomFor, Copies, Refusals;
      result, next, reached := DeliveryResult(0, 0, 0, 0), check, [];
      var localSubscribers := table.GetSubscribers(e.topic);
      if localSubscribers.Failure? {
        return;
      }
      var subscribers := localSubscribers.value;
      result, next := WalkSubscribers(ctx, check, e, subscribers);
      reached := subscribers[..next - check];
      assert Serves(subscribers, table.subscriptions, e.topic);
      OfferedAreCopies(subscribers, table.subscriptions, e.topic);
      PartOfTheCopies(old(buffers), buffers, reached, subscribers, table.subscriptions, e);
      if !ctx.Done(next) {
        assert reached == subscribers;
        EachItsCopies(old(buffers), buffers, subscribers, table.subscriptions, e);
      }
    }

    method WalkSubscribers(ctx: Context, check: nat, e: Event, subscribers: seq<Subscriber>)
      returns (result: DeliveryResult, next: nat)
      requires WithinCapacity(buffers)
      modifies this`buffers
      ensures WithinCapacity(buffers)
      ensures check <= next <= check + |subscribers| && (next - check < |subscribers| ==> ctx.Done(next))
      ensures var reached := subscribers[..next - check];
        && Handed(old(buffers), buffers, reached, e)
        && result.localFailures == Refusals(old(buffers), reached)
        && result.localSuccesses + result.localFailures == LocalCount(reached)
        && result.peerSuccesses == result.peerFailures == 0
        && (result.localFailures == 0 <==> RoomForAll(old(buffers), reached))
    {
      hide Protocol.OfferCopies, Handed, RoomForAll, Offered, WithinCapacity, Refusals;
      result := DeliveryResult(0, 0, 0, 0);
      NothingHanded(buffers, e);
      NoRefusals(buffers);
      for i := 0 to |subscribers|
        invariant Handed(old(buffers), buffers, subscribers[..i], e)
        invariant result.localFailures == Refusals(old(buffers), subscribers[..i])
        invariant result.localSuccesses + result.localFailures == LocalCount(subscribers[..i])
        invariant result.peerSuccesses == result.peerFailures == 0
        invariant result.localFailures == 0 <==> RoomForAll(old(buffers), subscribers[..i])
      {
        if ctx.Done(check + i) {
          next := check + i;
          HandedWithinCapacity(old(buffers), buffers, subscribers[..i], e);
          return;
        }
        assert subscribers[..i + 1] == subscribers[..i] + [subscribers[i]];
        HandOne(old(buffers), buffers, subscribers[..i], subscribers[i], e);
        LocalCountLast(subscribers[..i], subscribers[i]);
        RefusalsLast(old(buffers), subscribers[..i], subscribers[i]);
        if subscribers[i].local {
          var delivered := DeliverEvent(subscribers[i], e);
          if delivered {
            result := result.(localSuccesses := result.localSuccesses + 1);
          } else {
            result := result.(localFailures := result.localFailures + 1);
          }
        }
      }
      next := check + |subscribers|;
      HandedWithinCapacity(old(buffers), buffers, subscribers[..|subscribers|], e);
    }

    method SendToEach(ctx: Context, check: nat, e: Event, peers: seq<Text>, refusing: set<Text>)
      returns (successes: nat, failures: nat, next: nat)
      requires forall p :: p in peers ==> p in dataQueues
      requires forall i, j :: 0 <= i < j < |peers| ==> peers[i] != peers[j]
      modifies this`dataQueues
      ensures check <= next <= check + |peers| && (next - check < |peers| ==> ctx.Done(next))
      ensures var reached := peers[..next - check];
        && dataQueues == Queued(old(dataQueues), reached, refusing, e)
        && successes == |Members(reached) - refusing| && failures == |Members(reached) * refusing|
    {
      hide Queued, Members;
      successes, failures := 0, 0;
      QueuedNone(dataQueues, refusing, e);
      NoMembers(refusing);
      for i := 0 to |peers|
        invariant dataQueues == Queued(old(dataQueues), peers[..i], refusing, e)
        invariant successes == |Members(peers[..i]) - refusing| && failures == |Members(peers[..i]) * refusing|
      {
        if ctx.Done(check + i) {
          return successes, failures, check + i;
        }
        var peer := peers[i];
        assert peers[..i + 1] == peers[..i] + [peer];
        QueuedOneMore(old(dataQueues), peers[..i], peer, refusing, e);
        OneMoreMember(peers[..i], peer, refusing);
        if peer in refusing {
          failures := failures + 1;
        } else {
          dataQueues := dataQueues[peer := dataQueues[peer] + [e]];
          successes := successes + 1;
        }
      }
      next := check + |peers|;
    }

    /** Queues the event for the interested peers, until the context is done. */
    method ForwardToPeers(ctx: Context, check: nat, e: Event, result: DeliveryResult, refusing: set<Text>)
      returns (after: DeliveryResult, next: nat, ghost reached: set<Text>)
      requires Valid()
      modifies this`dataQueues
      ensures Valid() && next >= check
      ensures reached <= Targets(peerSubscriptions, connected, e.topic)
      ensures dataQueues == QueuedTo(old(dataQueues), reached, refusing, e)
      ensures after == result.(
        peerSuccesses := result.peerSuccesses + |reached - refusing|,
        peerFailures := result.peerFailures + |reached * refusing|)
      ensures !ctx.Done(next) ==>
        && reached == Targets(peerSubscriptions, connected, e.topic)
        && dataQueues == Forwarded(old(dataQueues), peerSubscriptions, connected, refusing, e)
    {
      hide InterestedPeers, Chosen, WithinCapacity, InMemoryRoutingTable.Valid, InMemoryEventLog.InMemoryEventLog.Valid;
      hide Queued, QueuedTo, Forwarded, Targets, Members;
      var connectedPeers := Elements(connected);
      var interestedPeers := GetInterestedPeers(e.topic, connectedPeers);
      InterestedOnce(peerSubscriptions, e.topic, connectedPeers);
      var successes, failures;
      successes, failures, next := SendToEach(ctx, check, e, interestedPeers, refusing);
      ghost var part := interestedPeers[..next - check];
      reached := Members(part);
      QueuedForTargets(old(dataQueues), part, interestedPeers, peerSubscriptions, connected, refusing, e);
      after := result.(peerSuccesses := result.peerSuccesses + successes,
          peerFailures := result.peerFailures + failures);
    }

    ghost function Rejected(client: Option<Client>, event: Option<Event>): Option<NodeError>
      reads this
    {
      if closed then Some(ClosedNode)
      else if !started then Some(StoppedNode)
      else if client == None then Some(NilClient)
      else if event == None then Some(NoEvent)
      else if !client.value.authenticated then Some(NotAuthenticated)
      else if |event.value.payload| > MAX_EVENT_PAYLOAD_SIZE then Some(PayloadTooLarge)
      else None
    }

    method ValidatePublishRequest(client: Option<Client>, event: Option<Event>) returns (error: Option<NodeError>)
      ensures error == Rejected(client, event)
    {
      if closed {
        return Some(ClosedNode);
      }
      if !started {
        return Some(StoppedNode);
      }
      if client == None {
        return Some(NilClient);
      }
      if event == None {
        return Some(NoEvent);
      }
      if !client.value.authenticated {
        return Some(NotAuthenticated);
      }
      if |event.value.payload| > MAX_EVENT_PAYLOAD_SIZE {
        return Some(PayloadTooLarge);
      }
      return None;
    }

    /** Local delivery, then forwarding, unless the context is done in between. */
    method Spread(ctx: Context, e: Event, refusing: set<Text>) returns (result: DeliveryResult, cut: bool)
      requires Valid()
      modifies this`buffers, this`dataQueues
      ensures Valid() && (cut ==> ctx.doneAfter.Some?)
      ensures cut ==>
        && PartlyDelivered(old(buffers), buffers, table.subscriptions, e)
        && PartlyQueued(old(dataQueues), dataQueues, peerSubscriptions, connected, refusing, e)
      ensures !cut ==>
        && (if table.closed then buffers == old(buffers)
            else DeliveredLocally(old(buffers), buffers, table.subscriptions, e))
        && dataQueues == Forwarded(old(dataQueues), peerSubscriptions, connected, refusing, e)
        && (!result.HasFailures() <==>
             && (table.closed || RoomFor(old(buffers), table.subscriptions, e.topic))
             && Targets(peerSubscriptions, connected, e.topic) !! refusing)
    {
      hide DeliveredLocally, PartlyDelivered, PartlyQueued, RoomFor, Forwarded, QueuedTo, Targets, WithinCapacity;
      hide Handed, Serves, Refusals, LocalCount, InMemoryRoutingTable.Valid, InMemoryEventLog.InMemoryEventLog.Valid;
      UntouchedIsPart(buffers, table.subscriptions, e);
      NothingQueuedIsPart(dataQueues, peerSubscriptions, connected, refusing, e);
      var next: nat;
      ghost var served;
      result, next, served := DeliverToLocalSubscribers(ctx, 1, e);
      if ctx.Done(next) {
        return result, true;
      }
      ghost var reached;
      result, next, reached := ForwardToPeers(ctx, next + 1, e, result, refusing);
      if ctx.Done(next) {
        QueuedInPart(old(dataQueues), reached, peerSubscriptions, connected, refusing, e);
        return result, true;
      }
      DisjointByCount(Targets(peerSubscriptions, connected, e.topic), refusing);
      return result, false;
    }

    /** A valid event is persisted, offered to every local subscriber and queued for every
        interested peer, in that order. The answer is an error when any of them refuses it
        or the context is done half-way, although the event then is persisted all the same.
        With the routing table closed nobody is offered it and nothing fails for that. */
    method PublishEventWithResult(ctx: Context, client: Option<Client>, event: Option<Event>,
                                  refusing: set<Text>) returns (r: Result<Event, NodeError>)
      requires Valid()
      modifies this`buffers, this`dataQueues, this`origins, eventLog
      ensures Valid()
      ensures Rejected(client, event).Some? ==> r == Failure(Rejected(client, event).value) && Events() == old(Events())
      ensures r.Failure? && r.error.PersistFailed? ==> Events() == old(Events())
      ensures r.Failure? && r.error.PersistFailed? <==>
        Rejected(client, event) == None && (ctx.Done(0) || event.value.topic == [] || old(eventLog.closed))
      ensures r.Success? || r.error == PartialDelivery || r.error == ContextDone || r.error.PersistFailed? ||
        (Rejected(client, event).Some? && r.error == Rejected(client, event).value)
      ensures r.Failure? && r.error == ContextDone ==>
        && ctx.doneAfter.Some? && Rejected(client, event) == None
        && var e := WithNextOffset(old(eventLog.eventsByTopic), event.value);
           Interrupted(old(Events()), Events(), table.subscriptions, peerSubscriptions, connected, refusing, e)
      ensures r.Success? || r.error == PartialDelivery ==>
        && Rejected(client, event) == None
        && var e := WithNextOffset(old(eventLog.eventsByTopic), event.value);
           && (r.Success? ==> r.value == e)
           && (r.Success? <==>
                && (table.closed || RoomFor(old(buffers), table.subscriptions, e.topic))
                && Targets(peerSubscriptions, connected, e.topic) !! refusing)
           && (!table.closed ==>
                Published(old(Events()), Events(), table.subscriptions, peerSubscriptions, connected, refusing, e))
           && (table.closed ==>
                && Stored(old(Events()), Events(), e, Local) && buffers == old(buffers)
                && dataQueues == Forwarded(old(dataQueues), peerSubscriptions, connected, refusing, e))
      ensures
        var accepted :=
          && !closed && started && client.Some? && client.value.authenticated
          && event.Some? && event.value.topic != [] && |event.value.payload| <= 1048576
          && !old(eventLog.closed) && !ctx.Done(0);
        && (!accepted ==> r.Failure? && Events() == old(Events()))
        && (accepted ==>
             var log, topic := old(eventLog.eventsByTopic), event.value.topic;
             eventLog.eventsByTopic ==
               log[topic := EventLogSpec.Events(log, topic)
                 + [event.value.(offset := Wrap64(EndOffset(log, topic)))]])
      ensures r == Failure(ClosedNode) <==> closed
      ensures r == Failure(StoppedNode) <==> !closed && !started
      ensures r == Failure(NilClient) <==> !closed && started && client == None
      ensures r == Failure(NoEvent) <==> !closed && started && client.Some? && event == None
      ensures r == Failure(NotAuthenticated) <==>
        !closed && started && client.Some? && event.Some? && !client.value.authenticated
      ensures r == Failure(PayloadTooLarge) <==>
        && !closed && started && client.Some? && event.Some? && client.value.authenticated
        && |event.value.payload| > 1048576
    {
      hide Wrap64, DeliveredLocally, PartlyDelivered, PartlyQueued, RoomFor, Forwarded, Targets, WithinCapacity;
      hide Append, EndOffset, OriginsOf, InMemoryRoutingTable.Valid, InMemoryEventLog.InMemoryEventLog.Valid;
      var error := ValidatePublishRequest(client, event);
      if error.Some? {
        return Failure(error.value);
      }
      var appended := eventLog.AppendEvent(ctx, event.value.topic, event);
      if appended.Failure? {
        return Failure(PersistFailed(appended.error));
      }
      var persisted := appended.value;
      AppendsAtTheEnd(old(eventLog.eventsByTopic), event.value.topic, persisted);
      origins := origins[persisted.topic := OriginsOf(old(Events()), persisted.topic) + [Local]];
      var result, cut := Spread(ctx, persisted, refusing);
      if cut {
        return Failure(ContextDone);
      }
      if result.HasFailures() {
        return Failure(PartialDelivery);
      }
      return Success(persisted);
    }

    /** An event from a peer is persisted and offered to local subscribers, and to no peer. */
    method ProcessIncomingUserEvent(ctx: Context, event: Event, ghost from: Text) returns (ghost persisted: bool)
      requires Valid()
      modifies this`buffers, this`origins, eventLog
      ensures Valid() && dataQueues == old(dataQueues)
      ensures persisted <==> !closed && started && !ctx.Done(0) && event.topic != [] && !old(eventLog.closed)
      ensures !persisted ==> Events() == old(Events())
      ensures persisted ==>
        var e := WithNextOffset(old(eventLog.eventsByTopic), event);
        && SameContent(event, e)
        && (!table.closed ==> Relayed(old(Events()), Events(), table.subscriptions, e, from))
        && (table.closed ==> Stored(old(Events()), Events(), e, From(from)) && buffers == old(buffers))
      ensures persisted && !table.closed ==>
        var e := event.(offset := Wrap64(EndOffset(old(eventLog.eventsByTopic), event.topic)));
        forall p: Text, s: Subscriber |
          Routes(table.subscriptions, p, s) && s.local && Matches(p, event.topic) && |BufferOf(old(buffers), s)| < 100
          :: |BufferOf(buffers, s)| > |BufferOf(old(buffers), s)| && e in BufferOf(buffers, s)
    {
      hide Wrap64, DeliveredLocally, PartlyDelivered, WithinCapacity, Append, EndOffset, OriginsOf, RoomFor, Handed,
          Serves;
      hide Refusals, LocalCount, InMemoryRoutingTable.Valid, InMemoryEventLog.InMemoryEventLog.Valid, Routes, Matches;
      if closed || !started {
        return false;
      }
      var appended := eventLog.AppendEvent(ctx, event.topic, Some(event));
      if appended.Failure? {
        return false;
      }
      var e := appended.value;
      origins := origins[e.topic := OriginsOf(old(Events()), e.topic) + [From(from)]];
      var _, _, _ := DeliverToLocalSubscribers(BACKGROUND, 0, e);   // this loop does not look at the context
      if !table.closed {
        EveryoneRoutedIsOffered(old(buffers), buffers, table.subscriptions, e);
      }
      return true;
    }
  }

  /** A local client that subscribes and then an event that its pattern matches and whose
      publishing succeeds: the event is in that very client's channel. */
  method SubscribeThenPublish(node: MeshNode, client: Client, pattern: Text, id: Text, unreached: set<Text>,
                              ctx: Context, publisher: Client, event: Event, refusing: set<Text>)
    returns (error: Option<NodeError>, r: Result<Event, NodeError>)
    requires node.Valid()
    requires client.subscriber.Some? ==> client.subscriber.value.id == client.id
    modifies node, node.table, node.eventLog
    ensures error == None && client.subscriber.Some? && client.subscriber.value.local && r.Success?
            && Matches(pattern, event.topic) ==>
      var channel, before := BufferOf(node.buffers, client.subscriber.value),
                             BufferOf(old(node.buffers), client.subscriber.value);
      r.value == event.(offset := r.value.offset) && r.value in channel && |channel| > |before|
  {
    hide MeshNode.Valid, MeshNode.View, Matches, Routes, DeliveredLocally, Forwarded, Targets, Stored, Copies;
    hide Interrupted, Wrap64;
    error := node.Subscribe(Some(client), pattern, id, unreached);
    ghost var table := node.table.subscriptions;
    r := node.PublishEventWithResult(ctx, Some(publisher), Some(event), refusing);
    if error == None && client.subscriber.value.local && r.Success? && Matches(pattern, event.topic) {
      var s := client.subscriber.value;
      assert Routes(table, pattern, s);
      RoutedIsOffered(old(node.buffers), node.buffers, table, r.value, pattern, s);
    }
  }

  function WithNextOffset(log: Log, e: Event): Event {
    e.(offset := Wrap64(EndOffset(log, e.topic)))
  }

  lemma EveryoneRoutedIsOffered(before: map<Subscriber, seq<Event>>, after: map<Subscriber, seq<Event>>, table: Table,
                                e: Event)
    requires DeliveredLocally(before, after, table, e)
    ensures
      forall p: Text, s: Subscriber |
        Routes(table, p, s) && s.local && Matches(p, e.topic) && |BufferOf(before, s)| < 100
        :: |BufferOf(after, s)| > |BufferOf(before, s)| && e in BufferOf(after, s)
  {
    hide DeliveredLocally, Routes, Matches;
    forall p: Text, s: Subscriber |
      Routes(table, p, s) && s.local && Matches(p, e.topic) && |BufferOf(before, s)| < 100
      ensures |BufferOf(after, s)| > |BufferOf(before, s)| && e in BufferOf(after, s)
    {
      RoutedIsOffered(before, after, table, e, p, s);
    }
  }

  lemma AppendsAtTheEnd(log: Log, topic: Text, e: Event)
    ensures Append(log, topic, e) == log[topic := EventLogSpec.Events(log, topic) + [e]]
  {
  }

  lemma QueuedInPart(out: map<Text, seq<Event>>, reached: set<Text>, views: map<Text, set<Text>>,
                     connected: set<Text>, refusing: set<Text>, e: Event)
    requires reached <= Targets(views, connected, e.topic)
    ensures PartlyQueued(out, QueuedTo(out, reached, refusing, e), views, connected, refusing, e)
  {
  }

  lemma NothingQueuedIsPart(out: map<Text, seq<Event>>, views: map<Text, set<Text>>,
                            connected: set<Text>, refusing: set<Text>, e: Event)
    ensures PartlyQueued(out, out, views, connected, refusing, e)
  {
  }
}
