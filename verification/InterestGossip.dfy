/** Interest gossip between nodes: every interleaving of subscribing, linking,
    resyncing, delivering and losing. */
module InterestGossip {
  import opened Basics
  import opened TopicPattern
  import opened RoutingTable
  import opened Interest

  type Network = map<Text, NodeState>

  const FRESH_NODE := NodeState(map[], map[], {}, {}, map[], map[])

  datatype Step =
    | LocalSubscribe(node: Text, client: Subscriber, id: Text, topic: Text, refusing: set<Text>)
    | LocalUnsubscribe(node: Text, clientId: Text, topic: Text, refusing: set<Text>)
    | AttachStream(node: Text, client: Subscriber, topics: seq<Text>)
    | DetachStream(node: Text, clientId: Text, topics: seq<Text>)
    | Link(node: Text, peer: Text)
    | Unlink(node: Text, peer: Text)                      // an inbound stream ends: the queue stays
    | Disconnect(node: Text, peer: Text)                  // the queue goes with the connection
    | Resync(node: Text, peer: Text, topics: seq<Text>)   // the snapshot may have been taken earlier
    | EndOfTick(node: Text, listed: set<Text>)            // the loop forgets peers that were not listed
    | Deliver(node: Text, peer: Text)
    | Fault(node: Text, peer: Text, queue: seq<InterestMessage>)   // loses, repeats or reorders
    | Restart(node: Text)

  ghost predicate Enabled(net: Network, step: Step) {
    && step.node in net
    && match step
       case LocalSubscribe(n, client, id, topic, _) => topic != [] && id !in RecordsOf(net[n].meta, client.id)
       case LocalUnsubscribe(_, _, topic, _) => topic != []
       case AttachStream(n, client, topics) => forall t :: t in topics ==> Recorded(net[n].meta, client.id, t)
       case Resync(n, peer, _) => peer in net[n].connected && peer !in net[n].seen
       case Deliver(n, peer) => peer in net && peer in net[n].queues && net[n].queues[peer] != []
       case Fault(n, peer, queue) => peer in net[n].queues && forall msg :: msg in queue ==> msg.nodeId == n
       case _ => true
  }

  function QueueTo(s: NodeState, peer: Text): seq<InterestMessage> {
    if peer in s.queues then s.queues[peer] else []
  }

  function Popped(queue: seq<InterestMessage>): seq<InterestMessage> {
    if queue == [] then [] else queue[1..]
  }

  function Stepped(s: NodeState, step: Step): NodeState {
    match step
    case LocalSubscribe(n, client, id, topic, refusing) => Interest.Subscribe(s, n, client, id, topic, refusing)
    case LocalUnsubscribe(n, client, topic, refusing) => Interest.Unsubscribe(s, n, client, topic, refusing)
    case AttachStream(_, client, topics) => s.(table := Attached(s.table, client, topics))
    case DetachStream(_, client, topics) => s.(table := Detached(s.table, client, topics))
    case Link(_, peer) => s.(connected := s.connected + {peer}, queues := s.queues[peer := QueueTo(s, peer)])
    case Unlink(_, peer) => s.(connected := s.connected - {peer})
    case Disconnect(_, peer) => s.(connected := s.connected - {peer}, queues := s.queues - {peer})
    case Resync(n, peer, topics) =>
      s.(seen := s.seen + {peer}, queues := s.queues[peer := QueueTo(s, peer) + [Snapshot(n, topics)]])
    case EndOfTick(_, listed) => s.(seen := s.seen * listed)
    case Deliver(_, peer) => s.(queues := s.queues[peer := Popped(QueueTo(s, peer))])
    case Fault(_, peer, queue) => s.(queues := s.queues[peer := queue])
    case Restart(_) => FRESH_NODE
  }

  ghost function After(net: Network, step: Step): Network
    requires Enabled(net, step)
  {
    var next := net[step.node := Stepped(net[step.node], step)];
    if step.Deliver? then next[step.peer := Received(next[step.peer], net[step.node].queues[step.peer][0])] else next
  }

  ghost predicate Possible(net: Network, steps: seq<Step>)
    decreases |steps|
  {
    steps == [] || (Enabled(net, steps[0]) && Possible(After(net, steps[0]), steps[1..]))
  }

  ghost function Ran(net: Network, steps: seq<Step>): Network
    requires Possible(net, steps)
    decreases |steps|
  {
    if steps == [] then net else Ran(After(net, steps[0]), steps[1..])
  }

  // ---- what always holds -----------------------------------------------------

  ghost predicate NodeSound(n: Text, s: NodeState) {
    && WellFormed(s.table)
    && RoutedIsRecorded(s.meta, s.table)
    && (forall c :: !Recorded(s.meta, c, []))
    && s.connected <= s.queues.Keys
    && (forall p, msg :: p in s.queues && msg in s.queues[p] ==> msg.nodeId == n)
  }

  ghost predicate Sound(net: Network) {
    forall n :: n in net ==> NodeSound(n, net[n])
  }

  lemma EnqueuedSound(n: Text, s: NodeState, message: InterestMessage, refusing: set<Text>)
    requires NodeSound(n, s) && message.nodeId == n
    ensures var queues := Enqueued(s.queues, message, s.connected, refusing);
      && queues.Keys == s.queues.Keys
      && forall p, msg :: p in queues && msg in queues[p] ==> msg.nodeId == n
  {
  }

  lemma SubscribeKeepsNodeSound(n: Text, s: NodeState, client: Subscriber, id: Text, topic: Text, refusing: set<Text>)
    requires NodeSound(n, s) && topic != [] && id !in RecordsOf(s.meta, client.id)
    ensures NodeSound(n, Interest.Subscribe(s, n, client, id, topic, refusing))
  {
    SubscribeKeepsRouted(s, n, client, id, topic, refusing);
    EnqueuedSound(n, s, Update(n, AddInterest, topic), refusing);
    hide WellFormed, Subscribed, RoutedIsRecorded, AgreeFor, Enqueued, WithRecord, Recorded;
    forall c
      ensures !Recorded(WithRecord(s.meta, client.id, id, topic), c, [])
    {
      RecordAdded(s.meta, client.id, id, topic, c, []);
    }
  }

  lemma UnsubscribeKeepsNodeSound(n: Text, s: NodeState, client: Text, topic: Text, refusing: set<Text>)
    requires NodeSound(n, s)
    ensures NodeSound(n, Interest.Unsubscribe(s, n, client, topic, refusing))
  {
    UnsubscribeKeepsRouted(s, n, client, topic, refusing);
    EnqueuedSound(n, s, Update(n, DropInterest, topic), refusing);
    hide WellFormed, Unsubscribed, RoutedIsRecorded, AgreeFor, Enqueued, WithoutTopic, Recorded;
    forall c
      ensures !Recorded(WithoutTopic(s.meta, client, topic), c, [])
    {
      RecordsRemoved(s.meta, client, topic, c, []);
    }
  }

  lemma StepKeepsNodeSound(net: Network, step: Step)
    requires Sound(net) && Enabled(net, step)
    ensures NodeSound(step.node, Stepped(net[step.node], step))
  {
    var n := step.node;
    var s := net[n];
    assert NodeSound(n, s);
    if step.LocalSubscribe? {
      SubscribeKeepsNodeSound(n, s, step.client, step.id, step.topic, step.refusing);
    } else if step.LocalUnsubscribe? {
      UnsubscribeKeepsNodeSound(n, s, step.clientId, step.topic, step.refusing);
    } else if step.AttachStream? {
      AttachKeepsRouted(s.meta, s.table, step.client, step.topics);
      hide WellFormed, RoutedIsRecorded, Recorded, AgreeFor;
    } else if step.DetachStream? {
      DetachAgreesExactly(s.meta, s.table, step.clientId, step.topics);
      hide WellFormed, RoutedIsRecorded, Recorded, AgreeFor;
    } else if !step.Restart? {
      hide WellFormed, RoutedIsRecorded, Recorded;
    }
  }

  lemma StepKeepsSound(net: Network, step: Step)
    requires Sound(net) && Enabled(net, step)
    ensures Sound(After(net, step))
  {
    StepKeepsNodeSound(net, step);
  }

  // ---- in sync ------------------------------------------------------------------

  /** What the peer would know of a node once the control queue has drained. */
  ghost function Expected(net: Network, n: Text, m: Text): set<Text>
    requires n in net && m in net
  {
    Folded(ViewOf(net[m], n), QueueTo(net[n], m))
  }

  ghost predicate InSync(net: Network, n: Text, m: Text) {
    && n in net && m in net && m in net[n].connected
    && Expected(net, n, m) == Interests(net[n].meta)
  }

  /** The steps that leave a peer out of step with a node. */
  ghost predicate Disturbs(net: Network, step: Step, n: Text, m: Text)
    requires n in net
  {
    match step
    case LocalSubscribe(a, _, _, topic, refusing) => a == n && m in refusing && topic !in Interests(net[n].meta)
    case LocalUnsubscribe(a, client, topic, refusing) =>
      a == n && m in refusing && topic in Interests(net[n].meta) &&
          topic !in Interests(WithoutTopic(net[n].meta, client, topic))
    case Unlink(a, b) => a == n && b == m
    case Disconnect(a, b) => a == n && b == m
    case Resync(a, b, topics) => a == n && b == m && Listed(topics) != Interests(net[n].meta)
    case Fault(a, b, _) => a == n && b == m
    case Restart(a) => a == n || a == m
    case _ => false
  }

  /** Short of faults and restarts, the named steps are exactly the ones that break sync. */
  lemma InSyncExactly(net: Network, step: Step, n: Text, m: Text)
    requires Sound(net) && Enabled(net, step) && InSync(net, n, m)
    ensures !Disturbs(net, step, n, m) ==> InSync(After(net, step), n, m)
    ensures Disturbs(net, step, n, m) && !step.Fault? && !step.Restart? ==> !InSync(After(net, step), n, m)
  {
    assert NodeSound(n, net[n]);
    match step
    case LocalSubscribe(a, client, id, topic, refusing) => if a == n { SubscribeInSync(net, step, n, m); }
    case LocalUnsubscribe(a, client, topic, refusing) => if a == n { UnsubscribeInSync(net, step, n, m); }
    case Deliver(a, b) => DeliverInSync(net, step, n, m);
    case Resync(a, b, topics) =>
      if a == n && b == m {
        FoldedLast(ViewOf(net[m], n), QueueTo(net[n], m), Snapshot(n, topics));
      }
    case _ =>
  }

  lemma SubscribeInSync(net: Network, step: Step, n: Text, m: Text)
    requires step.LocalSubscribe? && step.node == n
    requires Sound(net) && Enabled(net, step) && InSync(net, n, m)
    ensures InSync(After(net, step), n, m) <==> !Disturbs(net, step, n, m)
  {
    assert NodeSound(n, net[n]);
    InterestAdded(net[n].meta, step.client.id, step.id, step.topic);
    FoldedLast(ViewOf(net[m], n), QueueTo(net[n], m), Update(n, AddInterest, step.topic));
  }

  lemma UnsubscribeInSync(net: Network, step: Step, n: Text, m: Text)
    requires step.LocalUnsubscribe? && step.node == n
    requires Sound(net) && Enabled(net, step) && InSync(net, n, m)
    ensures InSync(After(net, step), n, m) <==> !Disturbs(net, step, n, m)
  {
    assert NodeSound(n, net[n]);
    InterestRemoved(net[n].meta, step.clientId, step.topic);
    FoldedLast(ViewOf(net[m], n), QueueTo(net[n], m), Update(n, DropInterest, step.topic));
  }

  lemma DeliverInSync(net: Network, step: Step, n: Text, m: Text)
    requires step.Deliver?
    requires Sound(net) && Enabled(net, step) && InSync(net, n, m)
    ensures InSync(After(net, step), n, m)
  {
    assert NodeSound(n, net[n]) && NodeSound(step.node, net[step.node]);
    hide NodeSound, Applied;
    var message := net[step.node].queues[step.peer][0];
    assert message.nodeId == step.node by { MessagesNameTheirNode(net, step); }
    var net' := After(net, step);
    if (step.node, step.peer) == (n, m) {
      assert QueueTo(net'[n], m) == QueueTo(net[n], m)[1..];
      assert ViewOf(net'[m], n) == Applied(ViewOf(net[m], n), message);
    } else {
      assert QueueTo(net'[n], m) == QueueTo(net[n], m);
      assert ViewOf(net'[m], n) == ViewOf(net[m], n);
    }
  }

  lemma MessagesNameTheirNode(net: Network, step: Step)
    requires step.Deliver? && Sound(net) && Enabled(net, step)
    ensures net[step.node].queues[step.peer][0].nodeId == step.node
  {
    assert NodeSound(step.node, net[step.node]);
  }

  // ---- runs -------------------------------------------------------------------------

  ghost predicate Undisturbed(net: Network, steps: seq<Step>, n: Text, m: Text)
    requires Possible(net, steps)
    decreases |steps|
  {
    steps == [] || (n in net && !Disturbs(net, steps[0], n, m) && Undisturbed(After(net, steps[0]), steps[1..], n, m))
  }

  lemma {:induction false} RunKeepsSound(net: Network, steps: seq<Step>)
    requires Sound(net) && Possible(net, steps)
    ensures Sound(Ran(net, steps))
    decreases |steps|
  {
    if steps != [] {
      StepKeepsSound(net, steps[0]);
      RunKeepsSound(After(net, steps[0]), steps[1..]);
    }
  }

  lemma {:induction false} RunKeepsInSync(net: Network, steps: seq<Step>, n: Text, m: Text)
    requires Sound(net) && InSync(net, n, m) && Possible(net, steps) && Undisturbed(net, steps, n, m)
    ensures InSync(Ran(net, steps), n, m)
    decreases |steps|
  {
    if steps != [] {
      StepKeepsSound(net, steps[0]);
      InSyncExactly(net, steps[0], n, m);
      RunKeepsInSync(After(net, steps[0]), steps[1..], n, m);
    }
  }

  /** Whatever a peer has been told before and whatever is still queued for it, one
      snapshot brings it in sync exactly when it lists the node's interest of that moment. */
  lemma SnapshotHealsExactly(net: Network, n: Text, m: Text, topics: seq<Text>)
    requires Sound(net) && m in net && Enabled(net, Resync(n, m, topics))
    ensures InSync(After(net, Resync(n, m, topics)), n, m) <==> Listed(topics) == Interests(net[n].meta)
  {
    assert NodeSound(n, net[n]);
    FoldedLast(ViewOf(net[m], n), QueueTo(net[n], m), Snapshot(n, topics));
  }

  /** From a current snapshot on, as long as nothing disturbs the pair, draining the
      control queue leaves the peer with exactly the node's interest. */
  lemma GossipConverges(net: Network, n: Text, m: Text, topics: seq<Text>, steps: seq<Step>)
    requires Sound(net) && m in net && Enabled(net, Resync(n, m, topics))
    requires Listed(topics) == Interests(net[n].meta)
    requires var start := After(net, Resync(n, m, topics));
      Possible(start, steps) && Undisturbed(start, steps, n, m)
    ensures var end := Ran(After(net, Resync(n, m, topics)), steps);
      InSync(end, n, m) && (QueueTo(end[n], m) == [] ==> ViewOf(end[m], n) == Interests(end[n].meta))
  {
    SnapshotHealsExactly(net, n, m, topics);
    StepKeepsSound(net, Resync(n, m, topics));
    RunKeepsInSync(After(net, Resync(n, m, topics)), steps, n, m);
  }

  // ---- records and routing over runs ---------------------------------------------------

  /** Whose stream a step ends on a node. */
  predicate EndsStreamOf(step: Step, n: Text, c: Text) {
    step.DetachStream? && step.node == n && step.clientId == c
  }

  lemma StepKeepsAgreement(net: Network, step: Step, n: Text, c: Text)
    requires Sound(net) && Enabled(net, step) && n in net
    requires AgreeFor(net[n].meta, net[n].table, c) && !EndsStreamOf(step, n, c)
    ensures AgreeFor(After(net, step)[n].meta, After(net, step)[n].table, c)
  {
    var s := net[n];
    assert NodeSound(n, s);
    if step.node == n {
      match step
      case LocalSubscribe(_, client, id, topic, refusing) => SubscribeKeepsRouted(s, n, client, id, topic, refusing);
      case LocalUnsubscribe(_, client, topic, refusing) => UnsubscribeKeepsRouted(s, n, client, topic, refusing);
      case AttachStream(_, client, topics) => AttachKeepsRouted(s.meta, s.table, client, topics);
      case DetachStream(_, client, topics) => DetachAgreesExactly(s.meta, s.table, client, topics);
      case _ =>
    }
  }

  /** From when a client's records and routing agree, such as from a fresh node or from a
      stream attached on all its patterns, they agree until a stream of that client ends. */
  lemma {:induction false} RunKeepsAgreement(net: Network, steps: seq<Step>, n: Text, c: Text)
    requires Sound(net) && Possible(net, steps) && n in net && AgreeFor(net[n].meta, net[n].table, c)
    requires forall i :: 0 <= i < |steps| ==> !EndsStreamOf(steps[i], n, c)
    ensures n in Ran(net, steps) && AgreeFor(Ran(net, steps)[n].meta, Ran(net, steps)[n].table, c)
    decreases |steps|
  {
    if steps != [] {
      StepKeepsSound(net, steps[0]);
      StepKeepsAgreement(net, steps[0], n, c);
      RunKeepsAgreement(After(net, steps[0]), steps[1..], n, c);
    }
  }

  // ---- routing ------------------------------------------------------------------------

  ghost predicate HasMatchingRecord(s: NodeState, topic: Text) {
    exists p, c :: Recorded(s.meta, c, p) && Matches(p, topic)
  }

  ghost predicate HasLocalSubscriber(s: NodeState, topic: Text) {
    exists p, c :: c in EntryOf(s.table, p) && Matches(p, topic)
  }

  /** With the control queue drained, a publisher chooses a peer for a topic exactly when
      the peer has a subscription that matches, and so whenever it routes the topic. */
  lemma RoutingIsExact(net: Network, n: Text, m: Text, topic: Text)
    requires Sound(net) && InSync(net, n, m) && QueueTo(net[n], m) == []
    ensures Chosen(net[m].views, n, topic) <==> HasMatchingRecord(net[n], topic)
    ensures HasLocalSubscriber(net[n], topic) ==> Chosen(net[m].views, n, topic)
  {
    var s := net[n];
    assert NodeSound(n, s);
    assert ViewOf(net[m], n) == Interests(s.meta);
    if Chosen(net[m].views, n, topic) {
      var p :| p in net[m].views[n] && Matches(p, topic);
      InterestsAreRecorded(s.meta, p);
    }
    if HasMatchingRecord(s, topic) {
      var p, c :| Recorded(s.meta, c, p) && Matches(p, topic);
      InterestsAreRecorded(s.meta, p);
      assert p in ViewOf(net[m], n);
    }
    if HasLocalSubscriber(s, topic) {
      var p, c :| c in EntryOf(s.table, p) && Matches(p, topic);
      assert Recorded(s.meta, c, p);
    }
  }

  /** Forwarding picks, out of the connected peers, each subscribed one and no other, once. */
  lemma ForwardingIsExact(net: Network, m: Text, peers: seq<Text>, topic: Text, n: Text)
    requires Sound(net) && m in net
    requires forall p :: p in peers ==> InSync(net, p, m) && QueueTo(net[p], m) == []
    requires forall i, j :: 0 <= i < j < |peers| ==> peers[i] != peers[j]
    ensures multiset(InterestedPeers(net[m].views, topic, peers))[n]
         == if n in peers && n in net && HasMatchingRecord(net[n], topic) then 1 else 0
  {
    InterestedPeersExactly(net[m].views, topic, peers, n);
    AtMostOnce(peers, n);
    if n in peers {
      RoutingIsExact(net, n, m, topic);
    }
  }

  lemma {:induction false} AtMostOnce(peers: seq<Text>, n: Text)
    requires forall i, j :: 0 <= i < j < |peers| ==> peers[i] != peers[j]
    ensures multiset(peers)[n] == if n in peers then 1 else 0
    decreases |peers|
  {
    if peers != [] {
      AtMostOnce(peers[1..], n);
      assert peers == [peers[0]] + peers[1..];
      assert peers[0] !in peers[1..];
    }
  }

  // ---- from the start -------------------------------------------------------------------

  /** Whether the latest of a client's subscribing to a pattern, unsubscribing from it and
      attaching or ending a stream on it was the end of a stream, given how it was before. */
  function Ended(before: bool, step: Step, n: Text, c: Text, p: Text): bool {
    if step.node != n then before
    else match step
      case LocalSubscribe(_, client, _, topic, _) => before && (client.id, topic) != (c, p)
      case LocalUnsubscribe(_, client, topic, _) => before && (client, topic) != (c, p)
      case AttachStream(_, client, topics) => before && !(client.id == c && p in topics)
      case DetachStream(_, client, topics) => before || (client == c && p in topics)
      case Restart(_) => false
      case _ => before
  }

  function LastEnded(before: bool, steps: seq<Step>, n: Text, c: Text, p: Text): bool
    decreases |steps|
  {
    if steps == [] then before else LastEnded(Ended(before, steps[0], n, c, p), steps[1..], n, c, p)
  }

  /** A client is routed on a pattern unless it has no record of it or its stream on it was
      the last to go. */
  ghost predicate RoutedAs(s: NodeState, c: Text, p: Text, ended: bool) {
    c in EntryOf(s.table, p) <==> Recorded(s.meta, c, p) && !ended
  }

  lemma StepRoutes(net: Network, step: Step, n: Text, c: Text, p: Text, ended: bool)
    requires Sound(net) && Enabled(net, step) && n in net && RoutedAs(net[n], c, p, ended)
    ensures RoutedAs(After(net, step)[n], c, p, Ended(ended, step, n, c, p))
  {
    var s := net[n];
    assert NodeSound(n, s);
    if step.node == n {
      match step
      case LocalSubscribe(_, client, id, topic, _) =>
        OneEntryChanges(s.table, topic, client, p, c);
        RecordAdded(s.meta, client.id, id, topic, c, p);
      case LocalUnsubscribe(_, client, topic, _) =>
        OneEntryChanges(s.table, topic, Subscriber(client, true, 0), p, c);
        RecordsRemoved(s.meta, client, topic, c, p);
      case AttachStream(_, client, topics) => AttachedEntries(s.table, client, topics, c, p);
      case DetachStream(_, client, topics) => DetachedEntries(s.table, client, topics, c, p);
      case _ =>
    }
  }

  lemma {:induction false} RunRoutes(net: Network, steps: seq<Step>, n: Text, c: Text, p: Text, ended: bool)
    requires Sound(net) && Possible(net, steps) && n in net && RoutedAs(net[n], c, p, ended)
    ensures n in Ran(net, steps) && RoutedAs(Ran(net, steps)[n], c, p, LastEnded(ended, steps, n, c, p))
    decreases |steps|
  {
    if steps != [] {
      StepKeepsSound(net, steps[0]);
      StepRoutes(net, steps[0], n, c, p, ended);
      RunRoutes(After(net, steps[0]), steps[1..], n, c, p, Ended(ended, steps[0], n, c, p));
    }
  }

  ghost predicate Fresh(net: Network) {
    forall k :: k in net ==> net[k] == FRESH_NODE
  }

  /** In every run from fresh nodes, a client is routed on a pattern exactly when it has a
      record of it and the last that happened to the two was not the end of a stream. */
  lemma RoutedExactlyOverRuns(start: Network, steps: seq<Step>, n: Text, c: Text, p: Text)
    requires Fresh(start) && n in start && Possible(start, steps)
    ensures n in Ran(start, steps)
    ensures var s := Ran(start, steps)[n];
      c in EntryOf(s.table, p) <==> Recorded(s.meta, c, p) && !LastEnded(false, steps, n, c, p)
  {
    RunRoutes(start, steps, n, c, p, false);
  }

  /** Every matching subscription on the node lost its stream last. */
  ghost predicate OnlyEndedMatch(s: NodeState, steps: seq<Step>, n: Text, topic: Text) {
    forall c, p :: Recorded(s.meta, c, p) && Matches(p, topic) ==> LastEnded(false, steps, n, c, p)
  }

  /** In every run from fresh nodes, nobody is routed for a topic exactly when all that
      subscribe to it lost their streams last. */
  lemma UnroutedExactlyOverRuns(start: Network, steps: seq<Step>, n: Text, topic: Text)
    requires Fresh(start) && n in start && Possible(start, steps)
    ensures n in Ran(start, steps)
    ensures var s := Ran(start, steps)[n];
      !HasLocalSubscriber(s, topic) <==> OnlyEndedMatch(s, steps, n, topic)
  {
    RoutedExactlyOverRuns(start, steps, n, [], []);
    var s := Ran(start, steps)[n];
    hide Matches, LastEnded, Ran, Possible;
    if OnlyEndedMatch(s, steps, n, topic) && HasLocalSubscriber(s, topic) {
      var p, c :| c in EntryOf(s.table, p) && Matches(p, topic);
      RoutedExactlyOverRuns(start, steps, n, c, p);
      assert false;
    }
    if !HasLocalSubscriber(s, topic) {
      forall c, p | Recorded(s.meta, c, p) && Matches(p, topic)
        ensures LastEnded(false, steps, n, c, p)
      {
        RoutedExactlyOverRuns(start, steps, n, c, p);
        assert c !in EntryOf(s.table, p);
      }
    }
  }

  lemma {:induction false} NeverEnded(steps: seq<Step>, n: Text, c: Text, p: Text)
    requires forall i :: 0 <= i < |steps| ==> !EndsStreamOf(steps[i], n, c)
    ensures !LastEnded(false, steps, n, c, p)
    decreases |steps|
  {
    if steps != [] {
      assert !EndsStreamOf(steps[0], n, c);
      NeverEnded(steps[1..], n, c, p);
    }
  }

  /** So a client none of whose streams has ended is routed on each of its patterns. */
  lemma ServedFromFreshNodes(start: Network, steps: seq<Step>, n: Text, c: Text, p: Text)
    requires Fresh(start) && n in start && Possible(start, steps)
    requires forall i :: 0 <= i < |steps| ==> !EndsStreamOf(steps[i], n, c)
    ensures n in Ran(start, steps)
    ensures var s := Ran(start, steps)[n]; c in EntryOf(s.table, p) <==> Recorded(s.meta, c, p)
  {
    RoutedExactlyOverRuns(start, steps, n, c, p);
    NeverEnded(steps, n, c, p);
  }

  lemma {:induction false} RunInTwo(net: Network, first: seq<Step>, rest: seq<Step>)
    requires Possible(net, first) && Possible(Ran(net, first), rest)
    ensures Possible(net, first + rest) && Ran(net, first + rest) == Ran(Ran(net, first), rest)
    decreases |first|
  {
    if first == [] {
      assert first + rest == rest;
    } else {
      assert (first + rest)[1..] == first[1..] + rest;
      RunInTwo(After(net, first[0]), first[1..], rest);
    }
  }

  /** Whatever nodes that start afresh have gone through, one current snapshot followed by
      an undisturbed run that drains the queue makes the choice of the peer exact: the peer
      is chosen exactly when it has a matching subscription, and in vain exactly when all of
      them lost their streams last. */
  lemma ExactFromFreshNodes(start: Network, history: seq<Step>, n: Text, m: Text, topics: seq<Text>,
                            steps: seq<Step>, topic: Text)
    requires Fresh(start) && Possible(start, history)
    requires var net := Ran(start, history);
      && n in start && m in net && Enabled(net, Resync(n, m, topics)) && Listed(topics) == Interests(net[n].meta)
      && var synced := After(net, Resync(n, m, topics));
         Possible(synced, steps) && Undisturbed(synced, steps, n, m)
    ensures var run := history + ([Resync(n, m, topics)] + steps);
      && Possible(start, run)
      && var end := Ran(start, run);
         && InSync(end, n, m)
         && (QueueTo(end[n], m) == [] ==>
              && (Chosen(end[m].views, n, topic) <==> HasMatchingRecord(end[n], topic))
              && (Chosen(end[m].views, n, topic) && !HasLocalSubscriber(end[n], topic) <==>
                   HasMatchingRecord(end[n], topic) && OnlyEndedMatch(end[n], run, n, topic)))
  {
    hide Interests, Listed, Stepped, Chosen, HasMatchingRecord, HasLocalSubscriber, OnlyEndedMatch, Undisturbed;
    RunKeepsSound(start, history);
    var net := Ran(start, history);
    var resync := Resync(n, m, topics);
    var synced := After(net, resync);
    GossipConverges(net, n, m, topics, steps);
    OneMoreStep(net, resync, steps);
    RunInTwo(start, history, [resync] + steps);
    var run := history + ([resync] + steps);
    RunKeepsSound(start, run);
    var end := Ran(start, run);
    UnroutedExactlyOverRuns(start, run, n, topic);
    if QueueTo(end[n], m) == [] {
      RoutingIsExact(end, n, m, topic);
    }
  }

  lemma OneMoreStep(net: Network, step: Step, rest: seq<Step>)
    requires Enabled(net, step) && Possible(After(net, step), rest)
    ensures Possible(net, [step] + rest) && Ran(net, [step] + rest) == Ran(After(net, step), rest)
  {
    assert ([step] + rest)[1..] == rest;
  }

  // ---- who is routed ---------------------------------------------------------------------------

  /** The subscriber routed under a client ID and a pattern. */
  function RoutedUnder(table: Table, c: Text, p: Text): Option<Subscriber> {
    if c in EntryOf(table, p) then Some(EntryOf(table, p)[c]) else None
  }

  /** Of a client ID and a pattern: who was last subscribed or attached, if nothing has been
      unsubscribed or detached since. */
  function LastSubscribed(before: Option<Subscriber>, step: Step, n: Text, c: Text, p: Text): Option<Subscriber> {
    match step
    case LocalSubscribe(a, client, _, topic, _) => if (a, client.id, topic) == (n, c, p) then Some(client) else before
    case AttachStream(a, client, topics) => if (a, client.id) == (n, c) && p in topics then Some(client) else before
    case LocalUnsubscribe(a, client, topic, _) => if (a, client, topic) == (n, c, p) then None else before
    case DetachStream(a, client, topics) => if (a, client) == (n, c) && p in topics then None else before
    case Restart(a) => if a == n then None else before
    case _ => before
  }

  function LastSubscribedOver(before: Option<Subscriber>, steps: seq<Step>, n: Text, c: Text,
                              p: Text): Option<Subscriber>
    decreases |steps|
  {
    if steps == [] then before
    else LastSubscribedOver(LastSubscribed(before, steps[0], n, c, p), steps[1..], n, c, p)
  }

  lemma {:induction false} AttachedUnder(table: Table, client: Subscriber, topics: seq<Text>, c: Text, p: Text)
    ensures RoutedUnder(Attached(table, client, topics), c, p) ==
      if c == client.id && p in topics then Some(client) else RoutedUnder(table, c, p)
    decreases |topics|
  {
    if topics != [] {
      AttachedUnder(Subscribed(table, topics[0], client), client, topics[1..], c, p);
      assert p in topics <==> p == topics[0] || p in topics[1..];
    }
  }

  lemma {:induction false} DetachedUnder(table: Table, client: Text, topics: seq<Text>, c: Text, p: Text)
    ensures RoutedUnder(Detached(table, client, topics), c, p) ==
      if c == client && p in topics then None else RoutedUnder(table, c, p)
    decreases |topics|
  {
    if topics != [] {
      DetachedUnder(Unsubscribed(table, topics[0], client), client, topics[1..], c, p);
      UnsubscribedUnder(table, topics[0], client, c, p);
      assert p in topics <==> p == topics[0] || p in topics[1..];
    }
  }

  lemma UnsubscribedUnder(table: Table, topic: Text, id: Text, c: Text, p: Text)
    ensures RoutedUnder(Unsubscribed(table, topic, id), c, p) ==
      if (c, p) == (id, topic) then None else RoutedUnder(table, c, p)
  {
    assert EntryOf(Unsubscribed(table, topic, id), topic) == EntryOf(table, topic) - {id};
  }

  lemma StepRoutesTheLast(net: Network, step: Step, n: Text, c: Text, p: Text)
    requires Enabled(net, step) && n in net
    ensures RoutedUnder(After(net, step)[n].table, c, p)
         == LastSubscribed(RoutedUnder(net[n].table, c, p), step, n, c, p)
  {
    if step.node == n {
      match step
      case LocalUnsubscribe(_, client, topic, _) => UnsubscribedUnder(net[n].table, topic, client, c, p);
      case AttachStream(_, client, topics) => AttachedUnder(net[n].table, client, topics, c, p);
      case DetachStream(_, client, topics) => DetachedUnder(net[n].table, client, topics, c, p);
      case _ =>
    }
  }

  /** In every run, the subscriber routed under a client ID and a pattern is the one last
      subscribed or attached there, with the channel it brought along, and none if it has
      been unsubscribed or detached since. */
  lemma {:induction false} RoutedIsTheLastSubscribed(net: Network, steps: seq<Step>, n: Text, c: Text, p: Text)
    requires Possible(net, steps) && n in net
    ensures n in Ran(net, steps)
    ensures RoutedUnder(Ran(net, steps)[n].table, c, p)
         == LastSubscribedOver(RoutedUnder(net[n].table, c, p), steps, n, c, p)
    decreases |steps|
  {
    hide LastSubscribed, RoutedUnder, Enabled;
    if steps != [] {
      StepRoutesTheLast(net, steps[0], n, c, p);
      RoutedIsTheLastSubscribed(After(net, steps[0]), steps[1..], n, c, p);
    }
  }

  // ---- a tick of the resync loop ------------------------------------------------------------

  predicate InTick(n: Text, s: NodeState, step: Step) {
    step.node == n && (step.EndOfTick? || (step.Resync? && step.peer in s.connected && step.peer !in s.seen))
  }

  /** Steps of the resync loop of one node that take it from one state to another. */
  ghost predicate Ticked(n: Text, before: NodeState, steps: seq<Step>, after: NodeState)
    decreases |steps|
  {
    if steps == [] then after == before
    else InTick(n, before, steps[0]) && Ticked(n, Stepped(before, steps[0]), steps[1..], after)
  }

  lemma {:induction false} TickGoesOn(n: Text, before: NodeState, steps: seq<Step>, s: NodeState, step: Step)
    requires Ticked(n, before, steps, s) && InTick(n, s, step)
    ensures Ticked(n, before, steps + [step], Stepped(s, step))
    decreases |steps|
  {
    hide Stepped, InTick;
    if steps == [] {
      assert [step][0] == step && [step][1..] == [];
      assert [] + [step] == [step];
    } else {
      TickGoesOn(n, Stepped(before, steps[0]), steps[1..], s, step);
      assert (steps + [step])[1..] == steps[1..] + [step];
    }
  }

  /** They are a run of the network in which the other nodes stand still. */
  lemma {:induction false} TickIsRun(net: Network, n: Text, steps: seq<Step>, after: NodeState)
    requires n in net && Ticked(n, net[n], steps, after)
    ensures Possible(net, steps) && Ran(net, steps) == net[n := after]
    decreases |steps|
  {
    if steps == [] {
      assert net[n := after] == net;
    } else {
      var next := After(net, steps[0]);
      TickIsRun(next, n, steps[1..], after);
      assert next[n := after] == net[n := after];
    }
  }
}
