/** Publishing and forwarding between nodes: what is delivered was persisted first, and
    what came from a peer stays. */
module MeshDelivery {
  import opened Basics
  import opened EventLogSpec
  import opened TopicPattern
  import opened RoutingTable
  import opened Interest
  import Gossip = InterestGossip
  import Protocol = ResumeProtocol

  datatype Origin = Local | From(node: Text)

  /** A node, as far as events go. Origins are history: where each log entry came from. */
  datatype Delivery = Delivery(
    log: Log,
    origins: map<Text, seq<Origin>>,
    buffers: map<Subscriber, seq<Event>>,   // a channel for each local client
    out: map<Text, seq<Event>>)             // peer -> data queue

  function OriginsOf(d: Delivery, topic: Text): seq<Origin> {
    if topic in d.origins then d.origins[topic] else []
  }

  function BufferOf(buffers: map<Subscriber, seq<Event>>, s: Subscriber): seq<Event> {
    if s in buffers then buffers[s] else []
  }

  // ---- what one publish or one arrival does ------------------------------------

  /** How often the routing table hands an event of a topic to a subscriber. */
  ghost function Copies(table: Table, topic: Text, s: Subscriber): nat {
    if s.local then |DeliveringPatterns(table, topic, s, table.Keys)| else 0
  }

  ghost predicate Stored(before: Delivery, after: Delivery, e: Event, origin: Origin) {
    && e.offset == Wrap64(EndOffset(before.log, e.topic))
    && after.log == Append(before.log, e.topic, e)
    && after.origins == before.origins[e.topic := OriginsOf(before, e.topic) + [origin]]
  }

  ghost predicate DeliveredLocally(before: map<Subscriber, seq<Event>>, after: map<Subscriber, seq<Event>>,
                                   table: Table, e: Event) {
    forall s :: BufferOf(after, s) == Protocol.OfferCopies(BufferOf(before, s), e, Copies(table, e.topic, s))
  }

  function Forwarded(out: map<Text, seq<Event>>, views: map<Text, set<Text>>, connected: set<Text>,
                     refusing: set<Text>, e: Event): map<Text, seq<Event>> {
    map peer | peer in out ::
      if peer in connected && Chosen(views, peer, e.topic) && peer !in refusing then out[peer] + [e] else out[peer]
  }

  ghost predicate Published(before: Delivery, after: Delivery, table: Table, views: map<Text, set<Text>>,
                            connected: set<Text>, refusing: set<Text>, e: Event)
  {
    && Stored(before, after, e, Local)
    && DeliveredLocally(before.buffers, after.buffers, table, e)
    && after.out == Forwarded(before.out, views, connected, refusing, e)
  }

  ghost predicate Relayed(before: Delivery, after: Delivery, table: Table, e: Event, from: Text) {
    && Stored(before, after, e, From(from))
    && DeliveredLocally(before.buffers, after.buffers, table, e)
    && after.out == before.out
  }

  /** A publish whose context is done half-way: stored, but offered and queued in part. */
  ghost predicate Interrupted(before: Delivery, after: Delivery, table: Table, views: map<Text, set<Text>>,
                              connected: set<Text>, refusing: set<Text>, e: Event)
  {
    && Stored(before, after, e, Local)
    && PartlyDelivered(before.buffers, after.buffers, table, e)
    && PartlyQueued(before.out, after.out, views, connected, refusing, e)
  }

  predicate PartlyQueued(before: map<Text, seq<Event>>, after: map<Text, seq<Event>>, views: map<Text, set<Text>>,
                         connected: set<Text>, refusing: set<Text>, e: Event)
  {
    && after.Keys == before.Keys
    && forall p :: p in before ==>
         || after[p] == before[p]
         || (p in connected && Chosen(views, p, e.topic) && p !in refusing && after[p] == before[p] + [e])
  }

  ghost predicate PartlyDelivered(before: map<Subscriber, seq<Event>>, after: map<Subscriber, seq<Event>>,
                                  table: Table, e: Event) {
    forall s :: SomeCopies(BufferOf(before, s), BufferOf(after, s), e, Copies(table, e.topic, s))
  }

  ghost predicate SomeCopies(before: seq<Event>, after: seq<Event>, e: Event, most: nat) {
    exists k :: 0 <= k <= most && after == Protocol.OfferCopies(before, e, k)
  }

  // ---- the mesh ---------------------------------------------------------------------

  type Mesh = map<Text, Delivery>

  datatype Step =
    | Publish(node: Text, table: Table, views: map<Text, set<Text>>, connected: set<Text>, refusing: set<Text>,
              event: Event)
    | Interrupt(node: Text, table: Table, views: map<Text, set<Text>>, connected: set<Text>, refusing: set<Text>,
                event: Event)
    | Arrive(node: Text, to: Text, table: Table, event: Event)   // event as the receiver stores it
    | Consume(node: Text, subscriber: Subscriber)
    | Link(node: Text, peer: Text)      // a known peer keeps its data queue
    | Disconnect(node: Text, peer: Text)
    | Fault(node: Text, peer: Text)     // a data queue loses, repeats or reorders events
    | Crash(node: Text)                 // channels and queues are gone; the log, a durable one, stays

  function QueueFor(d: Delivery, peer: Text): seq<Event> {
    if peer in d.out then d.out[peer] else []
  }

  predicate SameContent(a: Event, b: Event) {
    a.topic == b.topic && a.payload == b.payload && a.headers == b.headers
  }

  predicate HasRoom(d: Delivery, topic: Text) {
    EndOffset(d.log, topic) <= MAX_INT64
  }

  ghost predicate Next(mesh: Mesh, step: Step, mesh': Mesh) {
    && step.node in mesh && mesh'.Keys == mesh.Keys
    && var before, after := mesh[step.node], mesh'[step.node];
       match step
       case Publish(n, table, views, connected, refusing, e) =>
         && OnlyChanges(mesh, mesh', {n}) && HasRoom(before, e.topic)
         && Published(before, after, table, views, connected, refusing, e)
       case Interrupt(n, table, views, connected, refusing, e) =>
         && OnlyChanges(mesh, mesh', {n}) && HasRoom(before, e.topic)
         && Interrupted(before, after, table, views, connected, refusing, e)
       case Arrive(n, m, table, e) =>
         && m in mesh && m != n && OnlyChanges(mesh, mesh', {n, m}) && HasRoom(mesh[m], e.topic)
         && m in before.out && before.out[m] != [] && SameContent(before.out[m][0], e)
         && after == before.(out := before.out[m := before.out[m][1..]])
         && Relayed(mesh[m], mesh'[m], table, e, n)
       case Consume(n, s) =>
         && OnlyChanges(mesh, mesh', {n})
         && s in before.buffers && before.buffers[s] != []
         && after == before.(buffers := before.buffers[s := before.buffers[s][1..]])
       case Link(n, peer) =>
         OnlyChanges(mesh, mesh', {n}) && after == before.(out := before.out[peer := QueueFor(before, peer)])
       case Disconnect(n, peer) =>
         OnlyChanges(mesh, mesh', {n}) && after == before.(out := before.out - {peer})
       case Fault(n, peer) =>
         && OnlyChanges(mesh, mesh', {n})
         && peer in before.out && peer in after.out
         && (forall x :: x in after.out[peer] ==> x in before.out[peer])
         && after == before.(out := before.out[peer := after.out[peer]])
       case Crash(n) =>
         && OnlyChanges(mesh, mesh', {n})
         && after == before.(buffers := map[], out := map[])
  }

  ghost predicate OnlyChanges(mesh: Mesh, mesh': Mesh, nodes: set<Text>)
    requires mesh.Keys == mesh'.Keys
  {
    forall n :: n in mesh && n !in nodes ==> mesh'[n] == mesh[n]
  }

  ghost predicate Run(meshes: seq<Mesh>, steps: seq<Step>) {
    && |meshes| == |steps| + 1
    && forall i :: 0 <= i < |steps| ==> Next(meshes[i], steps[i], meshes[i + 1])
  }

  // ---- persist before deliver, and one hop -----------------------------------------------

  predicate IsLocal(d: Delivery, topic: Text, offset: int) {
    0 <= offset < |OriginsOf(d, topic)| && OriginsOf(d, topic)[offset] == Local
  }

  /** Every event waiting for a local client or a peer is the log entry at its topic and
      offset; what waits for a peer was moreover published here. */
  ghost predicate Persisted(d: Delivery) {
    && (forall t :: |OriginsOf(d, t)| == EndOffset(d.log, t))
    && (forall s, x :: x in BufferOf(d.buffers, s) ==> Protocol.InLog(d.log, x))
    && (forall p, x :: p in d.out && x in d.out[p] ==> Protocol.InLog(d.log, x) && IsLocal(d, x.topic, x.offset))
  }

  /** An entry that came from a node repeats one published on that very node. */
  ghost predicate Traced(mesh: Mesh, n: Text, t: Text, i: nat)
    requires n in mesh && i < |OriginsOf(mesh[n], t)| && |OriginsOf(mesh[n], t)| == EndOffset(mesh[n].log, t)
  {
    match OriginsOf(mesh[n], t)[i]
    case Local => true
    case From(p) =>
      && p in mesh
      && exists j ::
        && IsLocal(mesh[p], t, j) && j < EndOffset(mesh[p].log, t)
        && SameContent(Events(mesh[p].log, t)[j], Events(mesh[n].log, t)[i])
  }

  ghost predicate Sound(mesh: Mesh) {
    && (forall n :: n in mesh ==> Persisted(mesh[n]))
    && (forall n, t, i | n in mesh && 0 <= i < |OriginsOf(mesh[n], t)| :: Traced(mesh, n, t, i))
  }

  /** Entries stay where and as they are. */
  ghost predicate Extends(before: Delivery, after: Delivery) {
    && (forall t :: OriginsOf(before, t) <= OriginsOf(after, t))
    && (forall t :: Events(before.log, t) <= Events(after.log, t))
  }

  lemma {:induction false} OfferedFrom(buffer: seq<Event>, e: Event, copies: nat)
    ensures forall x :: x in Protocol.OfferCopies(buffer, e, copies) ==> x in buffer || x == e
    decreases copies
  {
    if copies > 0 {
      OfferedFrom(Protocol.Offer(buffer, e), e, copies - 1);
    }
  }

  lemma StoredExtends(before: Delivery, after: Delivery, e: Event, origin: Origin)
    requires Stored(before, after, e, origin) && HasRoom(before, e.topic) && Persisted(before)
    ensures Extends(before, after)
    ensures forall t :: |OriginsOf(after, t)| == EndOffset(after.log, t)
    ensures Protocol.InLog(after.log, e) && OriginsOf(after, e.topic)[e.offset] == origin
    ensures forall t, i :: 0 <= i < |OriginsOf(after, t)| ==>
      i < |OriginsOf(before, t)| || (t, i) == (e.topic, e.offset as int)
  {
    forall t
      ensures |OriginsOf(after, t)| == EndOffset(after.log, t)
      ensures OriginsOf(before, t) <= OriginsOf(after, t) && Events(before.log, t) <= Events(after.log, t)
    {
      assert |OriginsOf(before, t)| == EndOffset(before.log, t);
    }
  }

  lemma StaysInLog(before: Delivery, after: Delivery, x: Event)
    requires Extends(before, after) && Protocol.InLog(before.log, x)
    ensures Protocol.InLog(after.log, x)
    ensures IsLocal(before, x.topic, x.offset) ==> IsLocal(after, x.topic, x.offset)
  {
    assert Events(before.log, x.topic) <= Events(after.log, x.topic);
    assert OriginsOf(before, x.topic) <= OriginsOf(after, x.topic);
  }

  ghost predicate NothingNewBut(before: map<Subscriber, seq<Event>>, after: map<Subscriber, seq<Event>>, e: Event) {
    forall s, x :: x in BufferOf(after, s) ==> x in BufferOf(before, s) || x == e
  }

  lemma OffersNothingElse(before: map<Subscriber, seq<Event>>, after: map<Subscriber, seq<Event>>, table: Table,
                          e: Event)
    requires DeliveredLocally(before, after, table, e) || PartlyDelivered(before, after, table, e)
    ensures NothingNewBut(before, after, e)
  {
    hide Copies, Protocol.OfferCopies;
    forall s, x | x in BufferOf(after, s)
      ensures x in BufferOf(before, s) || x == e
    {
      var most := Copies(table, e.topic, s);
      if DeliveredLocally(before, after, table, e) {
        OfferedFrom(BufferOf(before, s), e, most);
        assert BufferOf(after, s) == Protocol.OfferCopies(BufferOf(before, s), e, most);
      } else {
        assert SomeCopies(BufferOf(before, s), BufferOf(after, s), e, most);
        var k :| 0 <= k <= most && BufferOf(after, s) == Protocol.OfferCopies(BufferOf(before, s), e, k);
        OfferedFrom(BufferOf(before, s), e, k);
      }
    }
  }

  lemma StoredKeepsPersisted(before: Delivery, after: Delivery, e: Event, origin: Origin)
    requires Persisted(before) && HasRoom(before, e.topic) && Stored(before, after, e, origin)
    requires NothingNewBut(before.buffers, after.buffers, e)
    requires forall p, x :: p in after.out && x in after.out[p] ==>
      (p in before.out && x in before.out[p]) || (x == e && origin == Local)
    ensures Persisted(after)
  {
    hide Wrap64, Stored;
    StoredExtends(before, after, e, origin);
    hide Extends, Protocol.InLog;
    forall p, x | p in after.out && x in after.out[p]
      ensures Protocol.InLog(after.log, x) && IsLocal(after, x.topic, x.offset)
    {
      if p in before.out && x in before.out[p] {
        StaysInLog(before, after, x);
      }
    }
    forall s, x | x in BufferOf(after.buffers, s)
      ensures Protocol.InLog(after.log, x)
    {
      if x in BufferOf(before.buffers, s) {
        StaysInLog(before, after, x);
      }
    }
  }

  /** Consuming, losing and crashing leave the log alone and put nothing new anywhere. */
  lemma FewerKeepsPersisted(before: Delivery, after: Delivery)
    requires Persisted(before) && after.log == before.log && after.origins == before.origins
    requires forall s, x :: x in BufferOf(after.buffers, s) ==> x in BufferOf(before.buffers, s)
    requires forall p, x :: p in after.out && x in after.out[p] ==> p in before.out && x in before.out[p]
    ensures Persisted(after) && Extends(before, after)
  {
    hide Protocol.InLog, IsLocal;
    assert forall t :: OriginsOf(after, t) == OriginsOf(before, t);
    assert forall t, o :: IsLocal(after, t, o) == IsLocal(before, t, o) by { SameOrigins(before, after); }
  }

  lemma SameOrigins(before: Delivery, after: Delivery)
    requires after.origins == before.origins
    ensures forall t, o :: IsLocal(after, t, o) == IsLocal(before, t, o)
  {
  }

  lemma PublishKeepsPersisted(mesh: Mesh, step: Step, mesh': Mesh)
    requires (step.Publish? || step.Interrupt?) && Next(mesh, step, mesh') && Persisted(mesh[step.node])
    ensures Persisted(mesh'[step.node]) && Extends(mesh[step.node], mesh'[step.node])
  {
    hide Wrap64, Persisted, Stored, DeliveredLocally, PartlyDelivered, Extends, Chosen;
    var before, after := mesh[step.node], mesh'[step.node];
    StoredExtends(before, after, step.event, Local);
    OffersNothingElse(before.buffers, after.buffers, step.table, step.event);
    StoredKeepsPersisted(before, after, step.event, Local);
  }

  lemma ArriveKeepsPersisted(mesh: Mesh, step: Step, mesh': Mesh)
    requires step.Arrive? && Next(mesh, step, mesh') && Persisted(mesh[step.node]) && Persisted(mesh[step.to])
    ensures Persisted(mesh'[step.node]) && Extends(mesh[step.node], mesh'[step.node])
    ensures Persisted(mesh'[step.to]) && Extends(mesh[step.to], mesh'[step.to])
  {
    hide Protocol.OfferCopies, Wrap64, Persisted, Stored, DeliveredLocally, Extends;
    var before, after := mesh[step.to], mesh'[step.to];
    StoredExtends(before, after, step.event, From(step.node));
    OffersNothingElse(before.buffers, after.buffers, step.table, step.event);
    StoredKeepsPersisted(before, after, step.event, From(step.node));
    FewerKeepsPersisted(mesh[step.node], mesh'[step.node]);
  }

  lemma StepKeepsPersisted(mesh: Mesh, step: Step, mesh': Mesh)
    requires Sound(mesh) && Next(mesh, step, mesh')
    ensures forall n :: n in mesh' ==> Persisted(mesh'[n]) && Extends(mesh[n], mesh'[n])
  {
    hide Persisted, Extends, Traced, Published, Interrupted, Relayed;
    if step.Publish? || step.Interrupt? {
      PublishKeepsPersisted(mesh, step, mesh');
    } else if step.Arrive? {
      ArriveKeepsPersisted(mesh, step, mesh');
    } else {
      FewerKeepsPersisted(mesh[step.node], mesh'[step.node]);
    }
    forall n | n in mesh' && mesh'[n] == mesh[n]
      ensures Persisted(mesh'[n]) && Extends(mesh[n], mesh'[n])
    {
      FewerKeepsPersisted(mesh[n], mesh'[n]);
    }
  }

  lemma StillTraced(mesh: Mesh, mesh': Mesh, n: Text, t: Text, i: nat)
    requires mesh.Keys == mesh'.Keys && n in mesh
    requires forall m :: m in mesh ==> Extends(mesh[m], mesh'[m]) && Persisted(mesh[m]) && Persisted(mesh'[m])
    requires Persisted(mesh[n]) && Persisted(mesh'[n])
    requires i < |OriginsOf(mesh[n], t)| && Traced(mesh, n, t, i)
    ensures i < |OriginsOf(mesh'[n], t)| && Traced(mesh', n, t, i)
  {
    assert OriginsOf(mesh[n], t)[i] == OriginsOf(mesh'[n], t)[i];
    assert Events(mesh[n].log, t)[i] == Events(mesh'[n].log, t)[i];
    if OriginsOf(mesh[n], t)[i].From? {
      var p := OriginsOf(mesh[n], t)[i].node;
      var j :| IsLocal(mesh[p], t, j) && j < EndOffset(mesh[p].log, t)
        && SameContent(Events(mesh[p].log, t)[j], Events(mesh[n].log, t)[i]);
      assert IsLocal(mesh'[p], t, j) && Events(mesh'[p].log, t)[j] == Events(mesh[p].log, t)[j];
    }
  }

  lemma StepKeepsSound(mesh: Mesh, step: Step, mesh': Mesh)
    requires Sound(mesh) && Next(mesh, step, mesh')
    ensures Sound(mesh')
  {
    StepKeepsPersisted(mesh, step, mesh');
    forall n, t, i | n in mesh' && 0 <= i < |OriginsOf(mesh'[n], t)|
      ensures Traced(mesh', n, t, i)
    {
      assert Persisted(mesh[n]);
      if i < |OriginsOf(mesh[n], t)| {
        StillTraced(mesh, mesh', n, t, i);
      } else {
        NewEntryTraced(mesh, step, mesh', n, t, i);
      }
    }
  }

  lemma ArrivalTraced(mesh: Mesh, step: Step, mesh': Mesh)
    requires step.Arrive? && Next(mesh, step, mesh')
    requires Persisted(mesh[step.node]) && Persisted(mesh[step.to])
    requires Persisted(mesh'[step.node]) && Extends(mesh[step.node], mesh'[step.node])
    ensures var after, e := mesh'[step.to], step.event;
      && |OriginsOf(after, e.topic)| == EndOffset(after.log, e.topic)
      && 0 <= e.offset < |OriginsOf(after, e.topic)| && Traced(mesh', step.to, e.topic, e.offset)
  {
    hide Protocol.OfferCopies, DeliveredLocally, Wrap64;
    var before, after, e := mesh[step.to], mesh'[step.to], step.event;
    StoredExtends(before, after, e, From(step.node));
    var sent := mesh[step.node].out[step.to][0];
    assert sent in mesh[step.node].out[step.to];
    StaysInLog(mesh[step.node], mesh'[step.node], sent);
    assert IsLocal(mesh'[step.node], e.topic, sent.offset);
  }

  lemma NewEntryTraced(mesh: Mesh, step: Step, mesh': Mesh, n: Text, t: Text, i: nat)
    requires Sound(mesh) && Next(mesh, step, mesh')
    requires forall m :: m in mesh' ==> Persisted(mesh'[m]) && Extends(mesh[m], mesh'[m])
    requires n in mesh && |OriginsOf(mesh[n], t)| <= i < |OriginsOf(mesh'[n], t)|
    ensures |OriginsOf(mesh'[n], t)| == EndOffset(mesh'[n].log, t) && Traced(mesh', n, t, i)
  {
    hide Protocol.OfferCopies, DeliveredLocally, PartlyDelivered, Wrap64, Extends, Traced, Stored, Forwarded;
    assert Persisted(mesh[n]) && Persisted(mesh'[n]);
    hide Persisted;
    if (step.Publish? || step.Interrupt?) && n == step.node {
      StoredExtends(mesh[n], mesh'[n], step.event, Local);
      assert (t, i) == (step.event.topic, step.event.offset as int);
      LocalTraced(mesh', n, t, i);
    } else if step.Arrive? && n == step.to {
      ArrivalTraced(mesh, step, mesh');
      StoredExtends(mesh[n], mesh'[n], step.event, From(step.node));
      assert (t, i) == (step.event.topic, step.event.offset as int);
    }
  }

  lemma LocalTraced(mesh: Mesh, n: Text, t: Text, i: nat)
    requires n in mesh && Persisted(mesh[n]) && i < |OriginsOf(mesh[n], t)| && OriginsOf(mesh[n], t)[i] == Local
    ensures Traced(mesh, n, t, i)
  {
  }

  /** In every run from empty nodes, what waits for delivery is in the local log, what
      waits for a peer was published here, and what came from a peer was published there. */
  lemma {:induction false} PersistBeforeDeliver(meshes: seq<Mesh>, steps: seq<Step>)
    requires Run(meshes, steps)
    requires forall n :: n in meshes[0] ==> meshes[0][n] == Delivery(map[], map[], map[], map[])
    ensures Sound(meshes[|steps|])
    decreases |steps|
  {
    if steps != [] {
      var k := |steps| - 1;
      PersistBeforeDeliver(meshes[..k + 1], steps[..k]);
      StepKeepsSound(meshes[k], steps[k], meshes[k + 1]);
    }
  }

  /** No event travels more than one hop: in every run, an entry that came from a peer is
      never queued for any peer. */
  lemma OneHop(meshes: seq<Mesh>, steps: seq<Step>, n: Text, t: Text, i: nat, peer: Text)
    requires Run(meshes, steps)
    requires forall m :: m in meshes[0] ==> meshes[0][m] == Delivery(map[], map[], map[], map[])
    requires n in meshes[|steps|] && peer in meshes[|steps|][n].out
    requires i < |OriginsOf(meshes[|steps|][n], t)| && OriginsOf(meshes[|steps|][n], t)[i].From?
    ensures forall x :: x in meshes[|steps|][n].out[peer] ==> (x.topic, x.offset as int) != (t, i)
  {
    PersistBeforeDeliver(meshes, steps);
    assert Persisted(meshes[|steps|][n]);
  }

  // ---- who is offered an event -----------------------------------------------------------

  lemma {:induction false} OfferCopiesAre(buffer: seq<Event>, e: Event, copies: nat)
    requires |buffer| <= 100
    ensures Protocol.OfferCopies(buffer, e, copies) == buffer + seq(Min(copies, 100 - |buffer|), _ => e)
    decreases copies
  {
    if copies > 0 {
      OfferCopiesAre(Protocol.Offer(buffer, e), e, copies - 1);
      if |buffer| < 100 {
        var rest: seq<Event> := seq(Min(copies - 1, 100 - |buffer| - 1), _ => e);
        assert [e] + rest == seq(Min(copies, 100 - |buffer|), _ => e);
        assert buffer + [e] + rest == buffer + ([e] + rest);
      }
    }
  }

  /** Local delivery puts an event into the channels of the local subscribers that are routed
      on a matching pattern, once for each pattern as far as the channel's hundred places
      reach, and touches no other channel. */
  lemma WhoIsOffered(before: map<Subscriber, seq<Event>>, after: map<Subscriber, seq<Event>>, table: Table, e: Event,
                     s: Subscriber)
    requires DeliveredLocally(before, after, table, e) && |BufferOf(before, s)| <= 100
    ensures var routed := set p | p in table && Matches(p, e.topic) && Routes(table, p, s);
      BufferOf(after, s) ==
        if s.local then BufferOf(before, s) + seq(Min(|routed|, 100 - |BufferOf(before, s)|), _ => e)
        else BufferOf(before, s)
  {
    hide Matches, Routes;
    var routed := set p | p in table && Matches(p, e.topic) && Routes(table, p, s);
    assert routed == DeliveringPatterns(table, e.topic, s, table.Keys);
    OfferCopiesAre(BufferOf(before, s), e, Copies(table, e.topic, s));
  }

  /** A local subscriber routed on a matching pattern is offered at least one copy, and with
      room in its channel the event is in it. */
  lemma RoutedIsOffered(before: map<Subscriber, seq<Event>>, after: map<Subscriber, seq<Event>>, table: Table, e: Event,
                        pattern: Text, s: Subscriber)
    requires s.local && Routes(table, pattern, s) && Matches(pattern, e.topic)
    ensures Copies(table, e.topic, s) > 0
    ensures DeliveredLocally(before, after, table, e) && |BufferOf(before, s)| < 100 ==>
      |BufferOf(after, s)| > |BufferOf(before, s)| && e in BufferOf(after, s)
  {
    hide Matches;
    assert pattern in DeliveringPatterns(table, e.topic, s, table.Keys);
    if DeliveredLocally(before, after, table, e) && |BufferOf(before, s)| < 100 {
      WhoIsOffered(before, after, table, e, s);
      var routed := set p | p in table && Matches(p, e.topic) && Routes(table, p, s);
      assert pattern in routed;
      assert BufferOf(after, s)[|BufferOf(before, s)|] == e;
    }
  }

  /** An event that arrives from a peer is offered to the receiver's own subscribers, as one
      published there is, with the content it was sent with. */
  lemma ArrivalIsOffered(mesh: Mesh, step: Step, mesh': Mesh, pattern: Text, s: Subscriber)
    requires step.Arrive? && Next(mesh, step, mesh')
    requires s.local && Routes(step.table, pattern, s) && Matches(pattern, step.event.topic)
    requires |BufferOf(mesh[step.to].buffers, s)| < 100
    ensures step.event in BufferOf(mesh'[step.to].buffers, s)
    ensures |BufferOf(mesh'[step.to].buffers, s)| > |BufferOf(mesh[step.to].buffers, s)|
    ensures SameContent(QueueFor(mesh[step.node], step.to)[0], step.event)
  {
    hide Matches, DeliveredLocally, Routes;
    RoutedIsOffered(mesh[step.to].buffers, mesh'[step.to].buffers, step.table, step.event, pattern, s);
  }

  // ---- what is sent on -------------------------------------------------------------------

  datatype Content = Content(payload: Bytes, headers: map<Text, Text>)

  function ContentOf(e: Event): Content {
    Content(e.payload, e.headers)
  }

  /** What a queue holds of a topic. */
  function Waiting(queue: seq<Event>, topic: Text): seq<Content> {
    if queue == [] then []
    else (if queue[0].topic == topic then [ContentOf(queue[0])] else []) + Waiting(queue[1..], topic)
  }

  /** The entries of a topic that came from a node. */
  function TakenIn(origins: seq<Origin>, events: seq<Event>, node: Text): seq<Content>
    requires |origins| == |events|
  {
    if events == [] then []
    else
      var k := |events| - 1;
      TakenIn(origins[..k], events[..k], node) + if origins[k] == From(node) then [ContentOf(events[k])] else []
  }

  ghost function Arrived(d: Delivery, node: Text, topic: Text): seq<Content>
    requires Persisted(d)
  {
    TakenIn(OriginsOf(d, topic), Events(d.log, topic), node)
  }

  /** What a step sends from a node to a peer: a publish, to the chosen peers that take
      it; an interrupted one, to those whose queue it reached. */
  ghost function SentBy(mesh: Mesh, step: Step, mesh': Mesh, n: Text, p: Text, t: Text): seq<Content>
    requires n in mesh && n in mesh'
  {
    if !(step.Publish? || step.Interrupt?) || step.node != n || step.event.topic != t || p !in mesh[n].out then []
    else if step.Publish? then
      if p in step.connected && Chosen(step.views, p, t) && p !in step.refusing then [ContentOf(step.event)] else []
    else
      if QueueFor(mesh'[n], p) != QueueFor(mesh[n], p) then [ContentOf(step.event)] else []
  }

  ghost function SentOver(meshes: seq<Mesh>, steps: seq<Step>, n: Text, p: Text, t: Text): seq<Content>
    requires |meshes| == |steps| + 1 && forall i :: 0 <= i < |meshes| ==> n in meshes[i]
    decreases |steps|
  {
    if steps == [] then []
    else
      var k := |steps| - 1;
      SentOver(meshes[..k + 1], steps[..k], n, p, t) + SentBy(meshes[k], steps[k], meshes[k + 1], n, p, t)
  }

  predicate Loses(step: Step, n: Text, p: Text) {
    step.node == n && (step.Crash? || ((step.Fault? || step.Disconnect?) && step.peer == p))
  }

  lemma {:induction false} WaitingLast(queue: seq<Event>, e: Event, topic: Text)
    ensures Waiting(queue + [e], topic) == Waiting(queue, topic) + if e.topic == topic then [ContentOf(e)] else []
  {
    if queue == [] {
      assert queue + [e] == [e] && [e][1..] == [];
    } else {
      WaitingLast(queue[1..], e, topic);
      assert (queue + [e])[1..] == queue[1..] + [e];
    }
  }

  lemma StoredArrives(before: Delivery, after: Delivery, e: Event, origin: Origin, node: Text, t: Text)
    requires Persisted(before) && Persisted(after) && Stored(before, after, e, origin)
    ensures Arrived(after, node, t) ==
      Arrived(before, node, t) + if e.topic == t && origin == From(node) then [ContentOf(e)] else []
  {
    hide Wrap64, Protocol.InLog, IsLocal;
    var origins, events := OriginsOf(before, t), Events(before.log, t);
    if e.topic == t {
      assert OriginsOf(after, t) == origins + [origin] && Events(after.log, t) == events + [e];
      assert (origins + [origin])[..|events|] == origins && (events + [e])[..|events|] == events;
    }
  }

  lemma QueueGrows(mesh: Mesh, step: Step, mesh': Mesh, n: Text, p: Text, t: Text)
    requires Next(mesh, step, mesh') && !Loses(step, n, p) && n in mesh
    requires !(step.Arrive? && step.node == n && step.to == p)
    ensures Waiting(QueueFor(mesh'[n], p), t) == Waiting(QueueFor(mesh[n], p), t) + SentBy(mesh, step, mesh', n, p, t)
  {
    hide Waiting, Chosen, Stored, DeliveredLocally, PartlyDelivered;
    if (step.Publish? || step.Interrupt?) && step.node == n {
      WaitingLast(QueueFor(mesh[n], p), step.event, t);
    }
  }

  lemma EntriesStay(mesh: Mesh, step: Step, mesh': Mesh, n: Text, p: Text, t: Text)
    requires Next(mesh, step, mesh') && p in mesh && Persisted(mesh[p]) && Persisted(mesh'[p])
    requires !(step.Arrive? && step.node == n && step.to == p)
    ensures Arrived(mesh'[p], n, t) == Arrived(mesh[p], n, t)
  {
    hide Persisted, TakenIn, Stored, DeliveredLocally, PartlyDelivered;
    if (step.Publish? || step.Interrupt?) && step.node == p {
      StoredArrives(mesh[p], mesh'[p], step.event, Local, n, t);
    } else if step.Arrive? && step.to == p {
      StoredArrives(mesh[p], mesh'[p], step.event, From(step.node), n, t);
    }
  }

  lemma ArrivalMoves(mesh: Mesh, step: Step, mesh': Mesh, t: Text)
    requires step.Arrive? && Next(mesh, step, mesh')
    requires Persisted(mesh[step.to]) && Persisted(mesh'[step.to])
    ensures var n, p := step.node, step.to;
      Arrived(mesh'[p], n, t) + Waiting(QueueFor(mesh'[n], p), t) ==
          Arrived(mesh[p], n, t) + Waiting(QueueFor(mesh[n], p), t)
  {
    hide Persisted, TakenIn, Stored, DeliveredLocally;
    StoredArrives(mesh[step.to], mesh'[step.to], step.event, From(step.node), step.node, t);
  }

  /** Nothing is lost, repeated or reordered between two nodes: in every run from empty
      nodes without a fault, a crash or a disconnection of that queue, the entries a peer
      has from a node followed by what waits for it are, per topic, what the node sent. */
  lemma {:induction false} SentArrivesInOrder(meshes: seq<Mesh>, steps: seq<Step>, n: Text, p: Text, t: Text)
    requires Run(meshes, steps)
    requires forall m :: m in meshes[0] ==> meshes[0][m] == Delivery(map[], map[], map[], map[])
    requires forall i :: 0 <= i < |meshes| ==> n in meshes[i] && p in meshes[i]
    requires forall i :: 0 <= i < |steps| ==> !Loses(steps[i], n, p)
    ensures Persisted(meshes[|steps|][p])
    ensures Arrived(meshes[|steps|][p], n, t) + Waiting(QueueFor(meshes[|steps|][n], p), t)
         == SentOver(meshes, steps, n, p, t)
    decreases |steps|
  {
    hide Sound, Persisted, Arrived, Waiting, SentBy, SentOver, Next, QueueFor;
    PersistBeforeDeliver(meshes, steps);
    SoundNode(meshes[|steps|], p);
    SentOverLast(meshes, steps, n, p, t);
    if steps == [] {
      NothingSentYet(meshes[0], n, p, t);
    } else {
      var k := |steps| - 1;
      var before, done := meshes[..k + 1], steps[..k];
      assert Run(before, done) && before[|done|] == meshes[k];
      SentArrivesInOrder(before, done, n, p, t);
      assert Next(meshes[k], steps[k], meshes[k + 1]);
      SentByOneMore(meshes[k], steps[k], meshes[k + 1], n, p, t);
    }
  }

  lemma SentOverLast(meshes: seq<Mesh>, steps: seq<Step>, n: Text, p: Text, t: Text)
    requires |meshes| == |steps| + 1 && forall i :: 0 <= i < |meshes| ==> n in meshes[i]
    ensures steps == [] ==> SentOver(meshes, steps, n, p, t) == []
    ensures steps != [] ==>
      var k := |steps| - 1;
      SentOver(meshes, steps, n, p, t) ==
        SentOver(meshes[..k + 1], steps[..k], n, p, t) + SentBy(meshes[k], steps[k], meshes[k + 1], n, p, t)
  {
  }

  lemma SoundNode(mesh: Mesh, n: Text)
    requires Sound(mesh) && n in mesh
    ensures Persisted(mesh[n])
  {
  }

  lemma NothingSentYet(mesh: Mesh, n: Text, p: Text, t: Text)
    requires n in mesh && p in mesh && Persisted(mesh[p])
    requires mesh[n] == mesh[p] == Delivery(map[], map[], map[], map[])
    ensures Arrived(mesh[p], n, t) + Waiting(QueueFor(mesh[n], p), t) == []
  {
  }

  lemma SentByOneMore(mesh: Mesh, step: Step, mesh': Mesh, n: Text, p: Text, t: Text)
    requires Next(mesh, step, mesh') && n in mesh && p in mesh && !Loses(step, n, p)
    requires Persisted(mesh[p]) && Persisted(mesh'[p])
    ensures Arrived(mesh'[p], n, t) + Waiting(QueueFor(mesh'[n], p), t)
         == Arrived(mesh[p], n, t) + Waiting(QueueFor(mesh[n], p), t) + SentBy(mesh, step, mesh', n, p, t)
  {
    hide Persisted, Arrived, Waiting, Next, Chosen;
    if step.Arrive? && step.node == n && step.to == p {
      ArrivalMoves(mesh, step, mesh', t);
    } else {
      QueueGrows(mesh, step, mesh', n, p, t);
      EntriesStay(mesh, step, mesh', n, p, t);
    }
  }

  /** End to end: a peer in sync that has taken in its control messages is sent a published
      event exactly when it has a matching subscription, and so whenever it routes the topic. */
  lemma ForwardedExactly(net: Gossip.Network, m: Text, n: Text, out: map<Text, seq<Event>>, refusing: set<Text>,
                         e: Event)
    requires Gossip.Sound(net) && Gossip.InSync(net, n, m) && Gossip.QueueTo(net[n], m) == []
    requires n in net[m].connected && n in out && n !in refusing
    ensures Forwarded(out, net[m].views, net[m].connected, refusing, e)[n]
         == if Gossip.HasMatchingRecord(net[n], e.topic) then out[n] + [e] else out[n]
    ensures Gossip.HasLocalSubscriber(net[n], e.topic) ==>
      Forwarded(out, net[m].views, net[m].connected, refusing, e)[n] == out[n] + [e]
  {
    Gossip.RoutingIsExact(net, n, m, e.topic);
  }

  /** After any run from fresh nodes it is sent the event in vain exactly when all its
      matching subscriptions lost their streams last. */
  lemma ForwardedInVainExactly(start: Gossip.Network, steps: seq<Gossip.Step>, m: Text, n: Text,
                               out: map<Text, seq<Event>>, refusing: set<Text>, e: Event)
    requires Gossip.Fresh(start) && n in start && Gossip.Possible(start, steps)
    requires var net := Gossip.Ran(start, steps);
      && Gossip.InSync(net, n, m) && Gossip.QueueTo(net[n], m) == []
      && n in net[m].connected && n in out && n !in refusing
    ensures var net := Gossip.Ran(start, steps);
      && Forwarded(out, net[m].views, net[m].connected, refusing, e)[n] == out[n] + [e]
      && !Gossip.HasLocalSubscriber(net[n], e.topic) <==>
         Gossip.HasMatchingRecord(net[n], e.topic) && Gossip.OnlyEndedMatch(net[n], steps, n, e.topic)
  {
    Gossip.RunKeepsSound(start, steps);
    Gossip.UnroutedExactlyOverRuns(start, steps, n, e.topic);
    ForwardedExactly(Gossip.Ran(start, steps), m, n, out, refusing, e);
  }
}
