/** What the gossip of interest leaves out: how long a peer that was not informed stays
    uninformed, what a short loss of the connection costs, and runs in which it happens. */
module GossipGaps {
  import opened Basics
  import opened TopicPattern
  import opened RoutingTable
  import opened Interest
  import opened InterestGossip

  // ---- not informed ----------------------------------------------------------------

  /** A message that tells of no pattern matching a topic. */
  predicate Silent(message: InterestMessage, topic: Text) {
    match message
    case Update(_, AddInterest, p) => !Matches(p, topic)
    case Update(_, _, _) => true
    case Snapshot(_, topics) => forall p :: p in topics ==> !Matches(p, topic)
  }

  /** A peer that knows of no interest in a topic, is about to hear of none, and counts as
      having had its snapshot. */
  ghost predicate Uninformed(net: Network, n: Text, m: Text, topic: Text) {
    && n in net && m in net && m in net[n].seen
    && (forall p :: p in ViewOf(net[m], n) ==> !Matches(p, topic))
    && (forall msg :: msg in QueueTo(net[n], m) ==> Silent(msg, topic))
  }

  /** The steps that can inform it: a first subscription to a matching pattern that reaches
      its queue, a tick that did not list it, a restart of the node, or a fault. */
  ghost predicate Informs(net: Network, step: Step, n: Text, m: Text, topic: Text)
    requires n in net
  {
    match step
    case LocalSubscribe(a, _, _, p, refusing) =>
      a == n && Matches(p, topic) && p !in Interests(net[n].meta) && m in net[n].connected && m !in refusing
    case EndOfTick(a, listed) => a == n && m !in listed
    case Restart(a) => a == n
    case Fault(a, b, _) => a == n && b == m
    case _ => false
  }

  lemma AppliedSilent(view: set<Text>, message: InterestMessage, topic: Text)
    requires Silent(message, topic) && forall p :: p in view ==> !Matches(p, topic)
    ensures forall p :: p in Applied(view, message) ==> !Matches(p, topic)
  {
  }

  /** Any other step leaves it as it is. A pending queue of its own does not matter, nor
      do losing the connection and getting it back. */
  lemma DeliverKeepsUninformed(net: Network, step: Step, n: Text, m: Text, topic: Text)
    requires Sound(net) && Enabled(net, step) && Uninformed(net, n, m, topic) && step.Deliver?
    ensures Uninformed(After(net, step), n, m, topic)
  {
    hide Matches, Applied;
    assert NodeSound(n, net[n]) && NodeSound(step.node, net[step.node]);
    hide NodeSound;
    var net' := After(net, step);
    MessagesNameTheirNode(net, step);
    var message := net[step.node].queues[step.peer][0];
    if (step.node, step.peer) == (n, m) {
      assert message in QueueTo(net[n], m);
      AppliedSilent(ViewOf(net[m], n), message, topic);
      assert ViewOf(net'[m], n) == Applied(ViewOf(net[m], n), message);
      assert QueueTo(net'[n], m) == QueueTo(net[n], m)[1..];
    } else {
      assert ViewOf(net'[m], n) == ViewOf(net[m], n) && QueueTo(net'[n], m) == QueueTo(net[n], m);
    }
  }

  lemma StepKeepsUninformed(net: Network, step: Step, n: Text, m: Text, topic: Text)
    requires Sound(net) && Enabled(net, step) && Uninformed(net, n, m, topic) && !Informs(net, step, n, m, topic)
    ensures Uninformed(After(net, step), n, m, topic)
  {
    hide Matches, Applied, Sound;
    var net' := After(net, step);
    if step.Deliver? {
      DeliverKeepsUninformed(net, step, n, m, topic);
    } else if step.node == n {
      QueueStaysSilent(net, step, n, m, topic);
      hide Stepped, Informs;
      assert ViewOf(net'[m], n) == ViewOf(net[m], n);
    } else {
      assert QueueTo(net'[n], m) == QueueTo(net[n], m);
      assert ViewOf(net'[m], n) == ViewOf(net[m], n) || ViewOf(net'[m], n) == {};
    }
  }

  lemma QueueStaysSilent(net: Network, step: Step, n: Text, m: Text, topic: Text)
    requires Enabled(net, step) && Uninformed(net, n, m, topic) && !Informs(net, step, n, m, topic)
    requires step.node == n && !step.Deliver?
    ensures forall msg :: msg in QueueTo(Stepped(net[n], step), m) ==> Silent(msg, topic)
    ensures m in Stepped(net[n], step).seen && Stepped(net[n], step).views == net[n].views
  {
    hide Matches;
  }

  ghost predicate NoneInforms(net: Network, steps: seq<Step>, n: Text, m: Text, topic: Text)
    requires Possible(net, steps)
    decreases |steps|
  {
    steps == [] ||
      (n in net && !Informs(net, steps[0], n, m, topic) && NoneInforms(After(net, steps[0]), steps[1..], n, m, topic))
  }

  /** Over every run without an informing step, the peer's publishers never choose the node. */
  lemma {:induction false} UninformedIsNeverChosen(net: Network, steps: seq<Step>, n: Text, m: Text, topic: Text)
    requires Sound(net) && Uninformed(net, n, m, topic)
    requires Possible(net, steps) && NoneInforms(net, steps, n, m, topic)
    ensures Uninformed(Ran(net, steps), n, m, topic) && !Chosen(Ran(net, steps)[m].views, n, topic)
    decreases |steps|
  {
    if steps != [] {
      StepKeepsSound(net, steps[0]);
      StepKeepsUninformed(net, steps[0], n, m, topic);
      UninformedIsNeverChosen(After(net, steps[0]), steps[1..], n, m, topic);
    }
  }

  /** Interest that a connected peer with a drained queue does not know of. */
  ghost predicate Missing(net: Network, n: Text, m: Text, topic: Text) {
    && Uninformed(net, n, m, topic)
    && m in net[n].connected && QueueTo(net[n], m) == [] && HasLocalSubscriber(net[n], topic)
  }

  lemma MissingStays(net: Network, n: Text, m: Text, topic: Text)
    requires Sound(net) && Missing(net, n, m, topic)
    ensures forall rest :: Possible(net, rest) && NoneInforms(net, rest, n, m, topic) ==>
      m in Ran(net, rest) && !Chosen(Ran(net, rest)[m].views, n, topic)
  {
    forall rest | Possible(net, rest) && NoneInforms(net, rest, n, m, topic)
      ensures m in Ran(net, rest) && !Chosen(Ran(net, rest)[m].views, n, topic)
    {
      UninformedIsNeverChosen(net, rest, n, m, topic);
    }
  }

  // ---- a connection lost and found -------------------------------------------------------

  /** The steps that touch neither the pair's connection nor its queue by force. */
  predicate LeavesPairAlone(step: Step, n: Text, m: Text) {
    match step
    case Link(a, b) => (a, b) != (n, m)
    case Disconnect(a, b) => (a, b) != (n, m)
    case Fault(a, b, _) => (a, b) != (n, m)
    case Restart(a) => a != n && a != m
    case _ => true
  }

  lemma FoldedHead(view: set<Text>, queue: seq<InterestMessage>)
    requires queue != []
    ensures Folded(view, queue) == Folded(Applied(view, queue[0]), queue[1..])
  {
  }

  lemma AwayDeliver(net: Network, step: Step, n: Text, m: Text)
    requires Sound(net) && Enabled(net, step) && step.Deliver? && n in net && m in net
    ensures var net' := After(net, step);
      net'[n].connected == net[n].connected && Expected(net', n, m) == Expected(net, n, m)
  {
    hide Applied, Folded;
    var net' := After(net, step);
    MessagesNameTheirNode(net, step);
    var message := net[step.node].queues[step.peer][0];
    if (step.node, step.peer) == (n, m) {
      FoldedHead(ViewOf(net[m], n), QueueTo(net[n], m));
      assert QueueTo(net'[n], m) == QueueTo(net[n], m)[1..];
      assert ViewOf(net'[m], n) == Applied(ViewOf(net[m], n), message);
    } else {
      assert ViewOf(net'[m], n) == ViewOf(net[m], n) && QueueTo(net'[n], m) == QueueTo(net[n], m);
    }
  }

  lemma AwayStep(net: Network, step: Step, n: Text, m: Text)
    requires Sound(net) && Enabled(net, step) && LeavesPairAlone(step, n, m)
    requires n in net && m in net && m !in net[n].connected
    ensures var net' := After(net, step);
      n in net' && m in net' && m !in net'[n].connected && Expected(net', n, m) == Expected(net, n, m)
  {
    hide Folded, Stepped, Sound;
    if step.Deliver? {
      AwayDeliver(net, step, n, m);
    } else {
      ViewsStay(net, step, m);
      if step.node == n {
        AwayQueue(net, step, n, m);
      }
    }
  }

  lemma ViewsStay(net: Network, step: Step, m: Text)
    requires Enabled(net, step) && m in net && !step.Deliver? && (step.Restart? ==> step.node != m)
    ensures m in After(net, step) && After(net, step)[m].views == net[m].views
  {
  }

  lemma AwayQueue(net: Network, step: Step, n: Text, m: Text)
    requires Enabled(net, step) && step.node == n && !step.Deliver? && LeavesPairAlone(step, n, m)
    requires m !in net[n].connected
    ensures var s := Stepped(net[n], step);
      QueueTo(s, m) == QueueTo(net[n], m) && m !in s.connected && s.views == net[n].views
  {
  }

  lemma {:induction false} AwayRun(net: Network, steps: seq<Step>, n: Text, m: Text)
    requires Sound(net) && Possible(net, steps) && forall i :: 0 <= i < |steps| ==> LeavesPairAlone(steps[i], n, m)
    requires n in net && m in net && m !in net[n].connected
    ensures var end := Ran(net, steps);
      n in end && m in end && m !in end[n].connected && Expected(end, n, m) == Expected(net, n, m)
    decreases |steps|
  {
    if steps != [] {
      StepKeepsSound(net, steps[0]);
      AwayStep(net, steps[0], n, m);
      AwayRun(After(net, steps[0]), steps[1..], n, m);
    }
  }

  lemma UnlinkThenLink(net: Network, n: Text, m: Text)
    requires n in net && m in net
    ensures var lost := After(net, Unlink(n, m));
      && n in lost && m in lost && m !in lost[n].connected && lost[n].meta == net[n].meta
      && Expected(lost, n, m) == Expected(net, n, m)
    ensures var found := After(net, Link(n, m));
      && n in found && m in found && m in found[n].connected && found[n].meta == net[n].meta
      && found[n].seen == net[n].seen && Expected(found, n, m) == Expected(net, n, m)
  {
    hide Folded;
    var lost, found := After(net, Unlink(n, m)), After(net, Link(n, m));
    assert ViewOf(lost[m], n) == ViewOf(net[m], n) && QueueTo(lost[n], m) == QueueTo(net[n], m);
    assert ViewOf(found[m], n) == ViewOf(net[m], n) && QueueTo(found[n], m) == QueueTo(net[n], m);
  }

  lemma AwayKeepsExpected(net: Network, n: Text, m: Text, away: seq<Step>)
    requires Sound(net) && n in net && m in net && Possible(After(net, Unlink(n, m)), away)
    requires forall i :: 0 <= i < |away| ==> LeavesPairAlone(away[i], n, m)
    ensures var back := Ran(After(net, Unlink(n, m)), away);
      n in back && m in back && Expected(back, n, m) == Expected(net, n, m)
  {
    UnlinkThenLink(net, n, m);
    StepKeepsSound(net, Unlink(n, m));
    hide Sound, LeavesPairAlone, Expected, After;
    AwayRun(After(net, Unlink(n, m)), away, n, m);
  }

  /** A pair in sync whose connection drops and returns is in sync again exactly when the
      node's interest is what it was at the loss. */
  lemma ReconnectInSyncExactly(net: Network, n: Text, m: Text, away: seq<Step>)
    requires Sound(net) && InSync(net, n, m)
    requires Possible(After(net, Unlink(n, m)), away)
    requires forall i :: 0 <= i < |away| ==> LeavesPairAlone(away[i], n, m)
    ensures var back := Ran(After(net, Unlink(n, m)), away);
      && n in back
      && (InSync(After(back, Link(n, m)), n, m) <==> Interests(back[n].meta) == Interests(net[n].meta))
  {
    AwayKeepsExpected(net, n, m, away);
    hide Sound, LeavesPairAlone, Possible, Ran, After, Expected;
    UnlinkThenLink(Ran(After(net, Unlink(n, m)), away), n, m);
  }

  /** The same when the node disconnects, which drops the queue: in sync again exactly when
      the interest is what the peer knew of at the loss. */
  lemma RelinkAfterDisconnectExactly(net: Network, n: Text, m: Text, away: seq<Step>)
    requires Sound(net) && n in net && m in net && Possible(After(net, Disconnect(n, m)), away)
    requires forall i :: 0 <= i < |away| ==> LeavesPairAlone(away[i], n, m)
    ensures var back := Ran(After(net, Disconnect(n, m)), away);
      && n in back
      && (InSync(After(back, Link(n, m)), n, m) <==> Interests(back[n].meta) == ViewOf(net[m], n))
  {
    StepKeepsSound(net, Disconnect(n, m));
    DisconnectLeavesTheView(net, n, m);
    hide Sound, LeavesPairAlone, Expected, After;
    AwayRun(After(net, Disconnect(n, m)), away, n, m);
    hide Possible, Ran;
    UnlinkThenLink(Ran(After(net, Disconnect(n, m)), away), n, m);
  }

  lemma DisconnectLeavesTheView(net: Network, n: Text, m: Text)
    requires n in net && m in net
    ensures var lost := After(net, Disconnect(n, m));
      n in lost && m in lost && m !in lost[n].connected && Expected(lost, n, m) == ViewOf(net[m], n)
  {
  }

  // ---- runs the code allows ------------------------------------------------------------

  const NODE_A: Text := [65]
  const NODE_B: Text := [66]
  const TOPIC: Text := [120]
  const CLIENT := Subscriber([99], true, 0)

  const TWO_NODES: Network := map[NODE_A := FRESH_NODE, NODE_B := FRESH_NODE]

  /** A snapshot taken before a subscription and queued behind its update. */
  const STALE_SNAPSHOT_RUN := [
    Link(NODE_A, NODE_B),
    LocalSubscribe(NODE_A, CLIENT, [1], TOPIC, {}),
    Resync(NODE_A, NODE_B, []),
    Deliver(NODE_A, NODE_B),
    Deliver(NODE_A, NODE_B)]

  /** A stream that ends and returns between two ticks of the resync loop. */
  const QUICK_RECONNECT_RUN := [
    Link(NODE_A, NODE_B),
    Resync(NODE_A, NODE_B, []),
    Deliver(NODE_A, NODE_B),
    Unlink(NODE_A, NODE_B),
    LocalSubscribe(NODE_A, CLIENT, [1], TOPIC, {}),
    Link(NODE_A, NODE_B)]

  /** The pair of nodes along the runs: node A's side of the link, node B's view. */
  ghost function Pair(subscribed: bool, connected: set<Text>, seen: set<Text>, queue: seq<InterestMessage>,
                      views: map<Text, set<Text>>): Network
  {
    var meta := if subscribed then WithRecord(map[], CLIENT.id, [1], TOPIC) else map[];
    var table := if subscribed then Subscribed(map[], TOPIC, CLIENT) else map[];
    map[NODE_A := NodeState(meta, table, connected, seen, map[NODE_B := queue], map[]),
        NODE_B := FRESH_NODE.(views := views)]
  }

  lemma PairLinks(subscribed: bool, seen: set<Text>, queue: seq<InterestMessage>, views: map<Text, set<Text>>)
    ensures Enabled(TWO_NODES, Link(NODE_A, NODE_B)) && After(TWO_NODES, Link(NODE_A, NODE_B)) ==
      Pair(false, {NODE_B}, {}, [], map[])
    ensures var net, step := Pair(subscribed, {NODE_B}, seen, queue, views), Unlink(NODE_A, NODE_B);
      Enabled(net, step) && After(net, step) == Pair(subscribed, {}, seen, queue, views)
    ensures var net, step := Pair(subscribed, {}, seen, queue, views), Link(NODE_A, NODE_B);
      Enabled(net, step) && After(net, step) == Pair(subscribed, {NODE_B}, seen, queue, views)
  {
    assert {NODE_B} - {NODE_B} == {} && {} + {NODE_B} == {NODE_B};
    assert map[NODE_B := queue][NODE_B := queue] == map[NODE_B := queue];
    assert FRESH_NODE.queues[NODE_B := []] == map[NODE_B := []];
  }

  lemma PairSubscribes(connected: set<Text>, seen: set<Text>, queue: seq<InterestMessage>, views: map<Text, set<Text>>)
    ensures var net, step := Pair(false, connected, seen, queue, views), LocalSubscribe(NODE_A, CLIENT, [1], TOPIC, {});
      && Enabled(net, step)
      && After(net, step)
         == Pair(true, connected, seen, if NODE_B in connected then queue + [Update(NODE_A, AddInterest, TOPIC)]
             else queue, views)
  {
    var update := Update(NODE_A, AddInterest, TOPIC);
    assert TOPIC !in Interests(map[]);
    assert Enqueued(map[NODE_B := queue], update, connected, {})
        == map[NODE_B := if NODE_B in connected then queue + [update] else queue];
  }

  lemma PairResyncs(subscribed: bool, queue: seq<InterestMessage>, views: map<Text, set<Text>>)
    ensures var net, step := Pair(subscribed, {NODE_B}, {}, queue, views), Resync(NODE_A, NODE_B, []);
      && Enabled(net, step)
      && After(net, step) == Pair(subscribed, {NODE_B}, {NODE_B}, queue + [Snapshot(NODE_A, [])], views)
  {
    var longer := queue + [Snapshot(NODE_A, [])];
    assert {} + {NODE_B} == {NODE_B};
    assert map[NODE_B := queue][NODE_B := longer] == map[NODE_B := longer];
  }

  lemma PairDelivers(subscribed: bool, seen: set<Text>, message: InterestMessage,
                     rest: seq<InterestMessage>, views: map<Text, set<Text>>)
    requires message.nodeId == NODE_A
    ensures var net, step := Pair(subscribed, {NODE_B}, seen, [message] + rest, views), Deliver(NODE_A, NODE_B);
      && Enabled(net, step)
      && After(net, step)
         == Pair(subscribed, {NODE_B}, seen, rest, views[NODE_A := Applied(if NODE_A in views then views[NODE_A]
             else {}, message)])
  {
    assert ([message] + rest)[1..] == rest;
    assert map[NODE_B := [message] + rest][NODE_B := rest] == map[NODE_B := rest];
  }

  lemma PairUninformed(views: map<Text, set<Text>>)
    requires NODE_A in views && views[NODE_A] == {}
    ensures var net := Pair(true, {NODE_B}, {NODE_B}, [], views);
      Missing(net, NODE_A, NODE_B, TOPIC) && Sound(net)
  {
    var net := Pair(true, {NODE_B}, {NODE_B}, [], views);
    assert CLIENT.id in EntryOf(net[NODE_A].table, TOPIC);
    SubscribeKeepsNodeSound(NODE_A, FRESH_NODE, CLIENT, [1], TOPIC, {});
    assert NodeSound(NODE_B, net[NODE_B]);
    var a := Interest.Subscribe(FRESH_NODE, NODE_A, CLIENT, [1], TOPIC, {});
    assert (net[NODE_A].meta, net[NODE_A].table) == (a.meta, a.table);
  }

  /** A snapshot that is not taken together with its queueing can undo the update of a
      subscription made in between; then, until an informing step, the peer is not chosen. */
  lemma StaleSnapshotLosesInterest()
    ensures Possible(TWO_NODES, STALE_SNAPSHOT_RUN)
    ensures var net := Ran(TWO_NODES, STALE_SNAPSHOT_RUN);
      && Missing(net, NODE_A, NODE_B, TOPIC)
      && forall rest :: Possible(net, rest) && NoneInforms(net, rest, NODE_A, NODE_B, TOPIC) ==>
           NODE_B in Ran(net, rest) && !Chosen(Ran(net, rest)[NODE_B].views, NODE_A, TOPIC)
  {
    hide After, Pair, Missing, Applied;
    var run := STALE_SNAPSHOT_RUN;
    var update, snapshot := Update(NODE_A, AddInterest, TOPIC), Snapshot(NODE_A, []);
    var told := Applied({}, update);
    var overruled := Applied(told, snapshot);
    PairLinks(false, {}, [], map[]);
    var n1 := Pair(false, {NODE_B}, {}, [], map[]);
    PairSubscribes({NODE_B}, {}, [], map[]);
    assert [] + [update] == [update];
    var n2 := Pair(true, {NODE_B}, {}, [update], map[]);
    PairResyncs(true, [update], map[]);
    var n3 := Pair(true, {NODE_B}, {NODE_B}, [update] + [snapshot], map[]);
    PairDelivers(true, {NODE_B}, update, [snapshot], map[]);
    var n4 := Pair(true, {NODE_B}, {NODE_B}, [snapshot], map[NODE_A := told]);
    assert [snapshot] + [] == [snapshot];
    PairDelivers(true, {NODE_B}, snapshot, [], map[NODE_A := told]);
    var n5 := Pair(true, {NODE_B}, {NODE_B}, [], map[NODE_A := overruled]);
    EmptySnapshotClears(told);
    assert map[NODE_A := told][NODE_A := overruled] == map[NODE_A := overruled];
    PairUninformed(map[NODE_A := overruled]);
    OneMoreStep(n4, run[4], []);
    OneMoreStep(n3, run[3], [run[4]]);
    OneMoreStep(n2, run[2], [run[3], run[4]]);
    OneMoreStep(n1, run[1], [run[2], run[3], run[4]]);
    OneMoreStep(TWO_NODES, run[0], [run[1], run[2], run[3], run[4]]);
    MissingStays(n5, NODE_A, NODE_B, TOPIC);
  }

  lemma EmptySnapshotClears(view: set<Text>)
    ensures Applied(view, Snapshot(NODE_A, [])) == {}
  {
  }

  /** A peer whose connection drops and returns between two ticks is still remembered as
      seen: it misses what changed meanwhile, and until an informing step is not chosen. */
  lemma QuickReconnectLosesInterest()
    ensures Possible(TWO_NODES, QUICK_RECONNECT_RUN)
    ensures var net := Ran(TWO_NODES, QUICK_RECONNECT_RUN);
      && Missing(net, NODE_A, NODE_B, TOPIC)
      && forall rest :: Possible(net, rest) && NoneInforms(net, rest, NODE_A, NODE_B, TOPIC) ==>
           NODE_B in Ran(net, rest) && !Chosen(Ran(net, rest)[NODE_B].views, NODE_A, TOPIC)
  {
    hide After, Pair, Missing, Applied;
    var run := QUICK_RECONNECT_RUN;
    var snapshot := Snapshot(NODE_A, []);
    EmptySnapshotClears({});
    PairLinks(false, {NODE_B}, [], map[NODE_A := {}]);
    var n1 := Pair(false, {NODE_B}, {}, [], map[]);
    PairResyncs(false, [], map[]);
    assert [] + [snapshot] == [snapshot] == [snapshot] + [];
    var n2 := Pair(false, {NODE_B}, {NODE_B}, [snapshot], map[]);
    PairDelivers(false, {NODE_B}, snapshot, [], map[]);
    var n3 := Pair(false, {NODE_B}, {NODE_B}, [], map[NODE_A := {}]);
    var n4 := Pair(false, {}, {NODE_B}, [], map[NODE_A := {}]);
    PairSubscribes({}, {NODE_B}, [], map[NODE_A := {}]);
    var n5 := Pair(true, {}, {NODE_B}, [], map[NODE_A := {}]);
    PairLinks(true, {NODE_B}, [], map[NODE_A := {}]);
    PairUninformed(map[NODE_A := {}]);
    OneMoreStep(n5, run[5], []);
    OneMoreStep(n4, run[4], [run[5]]);
    OneMoreStep(n3, run[3], [run[4], run[5]]);
    OneMoreStep(n2, run[2], [run[3], run[4], run[5]]);
    OneMoreStep(n1, run[1], [run[2], run[3], run[4], run[5]]);
    OneMoreStep(TWO_NODES, run[0], [run[1], run[2], run[3], run[4], run[5]]);
    var n6 := Pair(true, {NODE_B}, {NODE_B}, [], map[NODE_A := {}]);
    MissingStays(n6, NODE_A, NODE_B, TOPIC);
  }

  const STREAM := Subscriber([99], true, 1)

  /** A stream attached on a subscription, and its end. */
  const ENDED_STREAM_RUN := [
    Link(NODE_A, NODE_B),
    LocalSubscribe(NODE_A, CLIENT, [1], TOPIC, {}),
    Deliver(NODE_A, NODE_B),
    AttachStream(NODE_A, STREAM, [TOPIC]),
    DetachStream(NODE_A, STREAM.id, [TOPIC])]

  lemma StreamLifts(net: Network)
    requires NODE_A in net && WellFormed(net[NODE_A].table) && Recorded(net[NODE_A].meta, STREAM.id, TOPIC)
    requires forall c, t :: c in EntryOf(net[NODE_A].table, t) ==> (c, t) == (STREAM.id, TOPIC)
    ensures var attach, detach := AttachStream(NODE_A, STREAM, [TOPIC]), DetachStream(NODE_A, STREAM.id, [TOPIC]);
      && Enabled(net, attach) && Enabled(After(net, attach), detach)
      && var end := After(After(net, attach), detach);
         && end.Keys == net.Keys && end[NODE_A].meta == net[NODE_A].meta && end[NODE_A].queues == net[NODE_A].queues
         && (forall n :: n in net ==> end[n].views == net[n].views)
         && forall c, t :: c !in EntryOf(end[NODE_A].table, t)
  {
    var table := net[NODE_A].table;
    var during := Attached(table, STREAM, [TOPIC]);
    forall c, t
      ensures c !in EntryOf(Detached(during, STREAM.id, [TOPIC]), t)
    {
      AttachedEntries(table, STREAM, [TOPIC], c, t);
      DetachedEntries(during, STREAM.id, [TOPIC], c, t);
    }
  }

  /** Once the only subscriber's stream has ended, its node is still chosen, and in vain. */
  lemma EndedStreamIsStillChosen()
    ensures Possible(TWO_NODES, ENDED_STREAM_RUN)
    ensures var net := Ran(TWO_NODES, ENDED_STREAM_RUN);
      && NODE_A in net && NODE_B in net && QueueTo(net[NODE_A], NODE_B) == []
      && Chosen(net[NODE_B].views, NODE_A, TOPIC)
      && HasMatchingRecord(net[NODE_A], TOPIC) && OnlyEndedMatch(net[NODE_A], ENDED_STREAM_RUN, NODE_A, TOPIC)
      && !HasLocalSubscriber(net[NODE_A], TOPIC)
  {
    var run := ENDED_STREAM_RUN;
    var update := Update(NODE_A, AddInterest, TOPIC);
    PairLinks(false, {}, [], map[]);
    var n1 := Pair(false, {NODE_B}, {}, [], map[]);
    PairSubscribes({NODE_B}, {}, [], map[]);
    assert [] + [update] == [update] == [update] + [];
    var n2 := Pair(true, {NODE_B}, {}, [update], map[]);
    PairDelivers(true, {}, update, [], map[]);
    var views := map[NODE_A := Applied({}, update)];
    var n3 := Pair(true, {NODE_B}, {}, [], views);
    PairIsServedNoMore(views);
    hide Pair, HasMatchingRecord, OnlyEndedMatch, Chosen, Stepped, HasLocalSubscriber, Applied, After;
    var n4 := After(n3, run[3]);
    var n5 := After(n4, run[4]);
    OneMoreStep(n4, run[4], []);
    OneMoreStep(n3, run[3], [run[4]]);
    OneMoreStep(n2, run[2], [run[3], run[4]]);
    OneMoreStep(n1, run[1], [run[2], run[3], run[4]]);
    OneMoreStep(TWO_NODES, run[0], [run[1], run[2], run[3], run[4]]);
    assert Fresh(TWO_NODES);
    UnroutedExactlyOverRuns(TWO_NODES, run, NODE_A, TOPIC);
  }

  lemma PairIsServedNoMore(views: map<Text, set<Text>>)
    requires views == map[NODE_A := Applied({}, Update(NODE_A, AddInterest, TOPIC))]
    ensures var net := Pair(true, {NODE_B}, {}, [], views);
      var attach, detach := AttachStream(NODE_A, STREAM, [TOPIC]), DetachStream(NODE_A, STREAM.id, [TOPIC]);
      && Enabled(net, attach) && Enabled(After(net, attach), detach)
      && var end := After(After(net, attach), detach);
         && NODE_A in end && NODE_B in end && QueueTo(end[NODE_A], NODE_B) == []
         && Chosen(end[NODE_B].views, NODE_A, TOPIC)
         && HasMatchingRecord(end[NODE_A], TOPIC) && !HasLocalSubscriber(end[NODE_A], TOPIC)
  {
    var net := Pair(true, {NODE_B}, {}, [], views);
    OneEntryChanges(map[], TOPIC, CLIENT, TOPIC, CLIENT.id);
    forall c, t
      ensures c in EntryOf(net[NODE_A].table, t) ==> (c, t) == (STREAM.id, TOPIC)
    {
      OneEntryChanges(map[], TOPIC, CLIENT, t, c);
    }
    RecordAdded(map[], CLIENT.id, [1], TOPIC, CLIENT.id, TOPIC);
    StreamLifts(net);
    assert TOPIC in views[NODE_A] && Matches(TOPIC, TOPIC);
  }
}
