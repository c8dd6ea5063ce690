/** SSE resume as a protocol between one node and one streaming client. The state
    holds the node's log, the stream handler, the bytes in flight and the client. */
module ResumeProtocol {
  import opened Basics
  import opened EventLogSpec
  import opened TopicPattern
  import opened OffsetFlow
  import opened StreamCursor

  const BUFFER_SIZE := 100
  const REPLAY_BATCH_SIZE := 1000

  // ---- live delivery -------------------------------------------------------

  /** The non-blocking send into the client's channel: a full channel drops the event. */
  function Offer(buffer: seq<Event>, e: Event): seq<Event> {
    if |buffer| < BUFFER_SIZE then buffer + [e] else buffer
  }

  function OfferCopies(buffer: seq<Event>, e: Event, copies: nat): seq<Event>
    decreases copies
  {
    if copies == 0 then buffer else OfferCopies(Offer(buffer, e), e, copies - 1)
  }

  function Delivering(patterns: set<Text>, topic: Text): set<Text> {
    set p | p in patterns && Matches(p, topic)
  }

  // ---- the state -----------------------------------------------------------

  datatype Replay = Replay(topic: Text, next: int, pending: seq<Event>, last: bool)

  datatype Handler =
    | Closed
    // Patterns are registered for live delivery one after the other.
    | Registering(cursor: map<Text, int64>, active: set<Text>, buffer: seq<Event>)
    | Replaying(cursor: map<Text, int64>, todo: set<Text>, current: Option<Replay>, buffer: seq<Event>)
    | Live(buffer: seq<Event>)

  datatype System = System(
    node: Text,
    patterns: set<Text>,          // the client's subscriptions
    log: Log,
    delivered: map<Text, nat>,    // per topic, how much of the log has been offered to subscribers
    handler: Handler,
    wire: seq<Event>,             // written by the handler, not yet parsed by the client
    client: Resume,
    received: seq<Event>,         // history: everything the client has parsed
    first: map<Text, int64>,      // history: the first offset parsed of each topic
    // history: topics of which a live event was dropped whole, until a stream opens on
    // offsets that have no hole
    lost: set<Text>)

  function Delivered(s: System, topic: Text): nat {
    if topic in s.delivered then s.delivered[topic] else 0
  }

  function Buffer(h: Handler): seq<Event> {
    if h.Closed? then [] else h.buffer
  }

  function Active(s: System): set<Text> {
    match s.handler
    case Closed => {}
    case Registering(_, active, _) => active
    case _ => s.patterns
  }

  // ---- the steps -------------------------------------------------------------

  datatype Step =
    | Publish(event: Event)      // append to the log
    | DeliverNext(topic: Text)   // offer the topic's next event to its subscribers
    | Open                       // the client connects with its cursor
    | Register(pattern: Text)
    | Validate(accepted: bool)   // the replay plan is accepted or refused
    | StartTopic(topic: Text)
    | Fetch                      // read one batch from the log
    | WriteReplay
    | FinishTopic
    | FinishReplay
    | DrainLive
    | Parse                      // the client parses one message and records its cursor
    | ServerDrop                 // the handler ends; what it wrote may still arrive
    | ClientDrop                 // the connection ends; what was in flight is gone

  predicate Enabled(s: System, step: Step) {
    match step
    case Publish(e) => e.topic != [] && EndOffset(s.log, e.topic) <= MAX_INT64 && e.offset == EndOffset(s.log, e.topic)
    case DeliverNext(t) => Delivered(s, t) < EndOffset(s.log, t)
    case Open => s.handler.Closed? && s.wire == []
    case Register(p) => s.handler.Registering? && p in s.patterns
    case Validate(_) => s.handler.Registering? && s.handler.active == s.patterns
    case StartTopic(t) => s.handler.Replaying? && s.handler.current.None? && t in s.handler.todo
      && t in s.handler.cursor && s.handler.cursor[t] < MAX_INT64
    case Fetch => s.handler.Replaying? && s.handler.current.Some?
      && s.handler.current.value.pending == [] && !s.handler.current.value.last
      && 0 <= s.handler.current.value.next <= MAX_INT64
    case WriteReplay => s.handler.Replaying? && s.handler.current.Some? && s.handler.current.value.pending != []
    case FinishTopic => s.handler.Replaying? && s.handler.current.Some?
      && s.handler.current.value.pending == [] && s.handler.current.value.last
    case FinishReplay => s.handler.Replaying? && s.handler.current.None? && s.handler.todo == {}
    case DrainLive => s.handler.Live? && s.handler.buffer != []
    case Parse => s.wire != []
    case ServerDrop => true
    case ClientDrop => true
  }

  ghost function Do(s: System, step: Step): System
    requires Enabled(s, step)
  {
    match step
    case Publish(e) => s.(log := Append(s.log, e.topic, e))
    case DeliverNext(t) => DoDeliver(s, t)
    case Open => s.(handler := Registering(s.client.offsets, {}, []), lost := Holed(s))
    case Register(p) => s.(handler := s.handler.(active := s.handler.active + {p}))
    case Validate(accepted) =>
      if !accepted then s.(handler := Closed)
      else if s.handler.cursor == map[] then s.(handler := Live(s.handler.buffer))
      else
        var todo := set t | t in s.handler.cursor && Delivering(s.patterns, t) != {};
        s.(handler := Replaying(s.handler.cursor, todo, None, s.handler.buffer))
    case StartTopic(t) =>
      var replay := Replay(t, s.handler.cursor[t] + 1, [], false);
      s.(handler := s.handler.(todo := s.handler.todo - {t}, current := Some(replay)))
    case Fetch =>
      var r := s.handler.current.value;
      var batch := Slice(s.log, r.topic, r.next, REPLAY_BATCH_SIZE);
      s.(handler := s.handler.(current := Some(r.(pending := batch, last := |batch| < REPLAY_BATCH_SIZE))))
    case WriteReplay =>
      var r := s.handler.current.value;
      var e := r.pending[0];
      s.(wire := s.wire + [e],
         handler := s.handler.(current := Some(r.(next := e.offset + 1, pending := r.pending[1..]))))
    case FinishTopic => s.(handler := s.handler.(current := None))
    case FinishReplay => s.(handler := Live(s.handler.buffer))
    case DrainLive => s.(wire := s.wire + [s.handler.buffer[0]], handler := Live(s.handler.buffer[1..]))
    case Parse => DoParse(s)
    case ServerDrop => s.(handler := Closed)
    case ClientDrop => s.(handler := Closed, wire := [])
  }

  /** Topics that lost an event of which the client has parsed a later one. */
  ghost function Holed(s: System): set<Text> {
    set t | t in s.lost && !NoGap(s, t)
  }

  function DoDeliver(s: System, t: Text): System
    requires Enabled(s, DeliverNext(t))
  {
    var e := Events(s.log, t)[Delivered(s, t)];
    var copies := |Delivering(Active(s), t)|;
    var s' := s.(delivered := s.delivered[t := Delivered(s, t) + 1]);
    if s.handler.Closed? || copies == 0 then s'
    else s'.(handler := s.handler.(buffer := OfferCopies(s.handler.buffer, e, copies)),
             lost := if |s.handler.buffer| < BUFFER_SIZE then s.lost else s.lost + {t})
  }

  function DoParse(s: System): System
    requires Enabled(s, Parse)
  {
    var e := s.wire[0];
    s.(wire := s.wire[1..],
       client := Recorded(s.client, EventCursor(s.node, e.topic, e.offset)),
       received := s.received + [e],
       first := if e.topic in s.first then s.first else s.first[e.topic := e.offset])
  }

  ghost predicate Runs(s: System, steps: seq<Step>, end: System)
    decreases |steps|
  {
    if steps == [] then s == end
    else Enabled(s, steps[0]) && Runs(Do(s, steps[0]), steps[1..], end)
  }

  predicate Initial(s: System) {
    && s.node != []
    && s.log == map[] && s.delivered == map[]
    && s.handler == Closed && s.wire == []
    && s.client == Resume([], map[]) && s.received == [] && s.first == map[] && s.lost == {}
  }

  // ---- the invariant: every topic --------------------------------------------

  ghost predicate PlacedIn(topic: Text, events: seq<Event>) {
    forall i :: 0 <= i < |events| ==> events[i].topic == topic && events[i].offset == i
  }

  /** Each event sits in the log at its own topic and offset. */
  ghost predicate Placed(log: Log) {
    forall t :: t in log ==> PlacedIn(t, log[t])
  }

  predicate InLog(log: Log, e: Event) {
    && 0 <= e.offset < EndOffset(log, e.topic)
    && Events(log, e.topic)[e.offset] == e
  }

  ghost predicate AllInLog(s: System, events: seq<Event>) {
    forall e :: e in events ==> InLog(s.log, e) && Delivering(s.patterns, e.topic) != {}
  }

  ghost predicate HistorySound(s: System) {
    && s.node != [] && s.client.nodeId in {[], s.node}
    && AllInLog(s, s.wire) && AllInLog(s, Buffer(s.handler)) && AllInLog(s, s.received)
    && (forall t :: t in s.client.offsets <==> t in s.first)
    && (forall t :: t in s.client.offsets ==>
         Delivering(s.patterns, t) != {} && 0 <= s.client.offsets[t] < EndOffset(s.log, t))
  }

  ghost predicate HandlerSound(s: System) {
    match s.handler
    case Closed => true
    case Registering(cursor, active, _) =>
      s.wire == [] && active <= s.patterns && cursor == s.client.offsets
    case Replaying(cursor, todo, current, _) =>
      && todo <= cursor.Keys <= s.client.offsets.Keys
      && (forall t :: t in cursor ==> 0 <= cursor[t] < EndOffset(s.log, t))
      && (current.Some? ==>
           var r := current.value;
           && r.topic in cursor && r.topic !in todo
           && 0 <= r.next && r.next + |r.pending| <= EndOffset(s.log, r.topic)
           && r.pending == Events(s.log, r.topic)[r.next..r.next + |r.pending|])
    case Live(_) => true
  }

  ghost predicate LogSound(s: System) {
    Placed(s.log) && forall t :: Delivered(s, t) <= EndOffset(s.log, t)
  }

  ghost predicate Sound(s: System) {
    LogSound(s) && HistorySound(s) && HandlerSound(s)
  }

  // ---- the invariant: one topic ------------------------------------------------

  /** What the client holds of a topic is one range of offsets, without a hole. */
  ghost predicate NoGap(s: System, t: Text) {
    && (t in s.client.offsets <==> t in s.first)
    && (t !in s.client.offsets ==> Offsets(s.received, t) == [])
    && (t in s.client.offsets ==>
         && 0 <= s.first[t] <= s.client.offsets[t]
         && s.first[t] < Delivered(s, t)
         && forall o: int :: o in Offsets(s.received, t) <==> s.first[t] <= o <= s.client.offsets[t])
  }

  function Low(s: System, t: Text, offsets: seq<int>): int {
    if t in s.first then s.first[t] else Start(offsets, Delivered(s, t))
  }

  function Expected(s: System, t: Text, offsets: seq<int>): int {
    if t in s.client.offsets then s.client.offsets[t] + 1 else Start(offsets, Delivered(s, t))
  }

  /** Whatever of these offsets arrives, in order, arrives without a hole. */
  ghost predicate Flows(s: System, t: Text, offsets: seq<int>) {
    && Smooth(Low(s, t, offsets), Expected(s, t, offsets), offsets)
    && (t !in s.client.offsets && offsets != [] ==> offsets[0] < Delivered(s, t))
  }

  /** The flow moreover reaches everything delivered so far. */
  ghost predicate FlowsToDate(s: System, t: Text, offsets: seq<int>) {
    && Flows(s, t, offsets)
    && Reach(Expected(s, t, offsets), offsets) >= Delivered(s, t)
  }

  /** The live buffer holds consecutive deliveries up to the latest, from start on. */
  ghost predicate Buffered(s: System, t: Text) {
    var offsets, d := Offsets(Buffer(s.handler), t), Delivered(s, t);
    var start := Start(offsets, d);
    && start <= d
    && Smooth(start, start, offsets) && Reach(start, offsets) == d
    && (Delivering(Active(s), t) == {} ==> offsets == [])
    && (t in s.first ==> s.first[t] <= start)
  }

  ghost predicate Awaiting(s: System, t: Text)
    requires s.handler.Replaying?
  {
    && t in s.client.offsets && t in s.handler.cursor && s.handler.cursor[t] == s.client.offsets[t]
    && Offsets(s.wire, t) == []
    && Buffered(s, t)
  }

  ghost predicate Catching(s: System, t: Text, r: Replay) {
    && t in s.client.offsets
    && Flows(s, t, Offsets(s.wire, t))
    && Reach(Expected(s, t, []), Offsets(s.wire, t)) == r.next
    && Buffered(s, t)
    && (r.last ==> r.next + |r.pending| >= Start(Offsets(Buffer(s.handler), t), Delivered(s, t)))
  }

  ghost predicate InStep(s: System, t: Text) {
    match s.handler
    case Closed => Flows(s, t, Offsets(s.wire, t))
    case Registering(_, _, _) => Buffered(s, t)
    case Replaying(_, todo, current, buffer) =>
      if t in todo then Awaiting(s, t)
      else if current.Some? && current.value.topic == t then Catching(s, t, current.value)
      else FlowsToDate(s, t, Offsets(s.wire, t) + Offsets(buffer, t))
    case Live(buffer) => FlowsToDate(s, t, Offsets(s.wire, t) + Offsets(buffer, t))
  }

  ghost predicate TopicInv(s: System, t: Text) {
    NoGap(s, t) && InStep(s, t)
  }

  ghost predicate Inv(s: System) {
    Sound(s) && forall t :: t !in s.lost ==> TopicInv(s, t)
  }

  // ---- every step keeps the invariant -----------------------------------------

  lemma InvInitial(s: System)
    requires Initial(s)
    ensures Inv(s)
  {
  }

  lemma PublishLogSound(s: System, e: Event)
    requires LogSound(s) && Enabled(s, Publish(e))
    ensures LogSound(Do(s, Publish(e)))
    ensures var s' := Do(s, Publish(e));
      && (forall t :: EndOffset(s'.log, t) >= EndOffset(s.log, t) && Events(s.log, t) <= Events(s'.log, t))
      && (forall x :: InLog(s.log, x) ==> InLog(s'.log, x))
  {
    var s' := Do(s, Publish(e));
    assert PlacedIn(e.topic, Events(s.log, e.topic) + [e]);
    forall t
      ensures EndOffset(s'.log, t) >= EndOffset(s.log, t) && Events(s.log, t) <= Events(s'.log, t)
      ensures Delivered(s', t) <= EndOffset(s'.log, t)
    {
    }
    forall x | InLog(s.log, x)
      ensures InLog(s'.log, x)
    {
    }
  }

  lemma PublishHistorySound(s: System, e: Event)
    requires LogSound(s) && HistorySound(s) && Enabled(s, Publish(e))
    ensures HistorySound(Do(s, Publish(e)))
  {
    PublishLogSound(s, e);
    hide LogSound, InLog, Delivering;
  }

  lemma PublishHandlerSound(s: System, e: Event)
    requires HandlerSound(s) && Enabled(s, Publish(e))
    requires forall t :: Events(s.log, t) <= Events(Do(s, Publish(e)).log, t)
    ensures HandlerSound(Do(s, Publish(e)))
  {
    hide Append, Holed;
    var s' := Do(s, Publish(e));
    assert forall t :: EndOffset(s.log, t) <= EndOffset(s'.log, t);
    if s.handler.Replaying? && s.handler.current.Some? {
      var r := s.handler.current.value;
      assert r.pending == Events(s'.log, r.topic)[r.next..r.next + |r.pending|];
    }
  }

  lemma PublishSound(s: System, e: Event)
    requires Sound(s) && Enabled(s, Publish(e))
    ensures Sound(Do(s, Publish(e)))
  {
    hide LogSound, HistorySound, HandlerSound, Do;
    PublishLogSound(s, e);
    PublishHistorySound(s, e);
    PublishHandlerSound(s, e);
  }

  lemma PublishKeeps(s: System, e: Event)
    requires Inv(s) && Enabled(s, Publish(e))
    ensures Inv(Do(s, Publish(e)))
  {
    hide InStep, NoGap, Sound;
    PublishSound(s, e);
    forall t | t !in Do(s, Publish(e)).lost
      ensures TopicInv(Do(s, Publish(e)), t)
    {
      assert TopicInv(s, t);
      PublishInStep(s, e, t);
    }
  }

  /** A topic's invariant does not look at the log. */
  lemma PublishInStep(s: System, e: Event, t: Text)
    requires TopicInv(s, t) && Enabled(s, Publish(e))
    ensures TopicInv(Do(s, Publish(e)), t)
  {
    hide Smooth, Reach, Offsets;
  }

  // -- delivery

  function Repeat(o: int, copies: nat): (r: seq<int>) {
    seq(copies, i => o)
  }

  function Accepted(buffer: seq<Event>, copies: nat): nat {
    if |buffer| >= BUFFER_SIZE then 0
    else if copies < BUFFER_SIZE - |buffer| then copies else BUFFER_SIZE - |buffer|
  }

  lemma {:induction false} OfferedOffsets(buffer: seq<Event>, e: Event, copies: nat, t: Text)
    ensures Offsets(OfferCopies(buffer, e, copies), t)
         == Offsets(buffer, t) + if t == e.topic then Repeat(e.offset, Accepted(buffer, copies)) else []
    ensures forall x :: x in OfferCopies(buffer, e, copies) ==> x in buffer || x == e
    decreases copies
  {
    if copies > 0 {
      OfferedOffsets(Offer(buffer, e), e, copies - 1, t);
      if |buffer| < BUFFER_SIZE {
        OffsetsConcat(buffer, [e], t);
        OffsetsOne(e, t);
        assert t == e.topic ==>
          [e.offset] + Repeat(e.offset, Accepted(buffer + [e], copies - 1)) ==
              Repeat(e.offset, Accepted(buffer, copies));
      }
    }
  }

  lemma {:induction false} SmoothRepeat(low: int, next: int, o: int, copies: nat)
    requires low <= o <= next && copies > 0
    ensures Smooth(low, next, Repeat(o, copies)) && Reach(next, Repeat(o, copies)) == Max(next, o + 1)
    decreases copies
  {
    if copies > 1 {
      SmoothRepeat(low, Max(next, o + 1), o, copies - 1);
      assert Repeat(o, copies)[1..] == Repeat(o, copies - 1);
    } else {
      assert Repeat(o, copies)[1..] == [];
    }
  }

  lemma DeliverHistorySound(s: System, t: Text)
    requires LogSound(s) && HistorySound(s) && Enabled(s, DeliverNext(t))
    requires Active(s) <= s.patterns
    ensures HistorySound(Do(s, DeliverNext(t)))
  {
    hide Offsets, OfferCopies;
    var s' := Do(s, DeliverNext(t));
    var e := Events(s.log, t)[Delivered(s, t)];
    assert InLog(s.log, e) && e.topic == t;
    if |Delivering(Active(s), t)| > 0 && !s.handler.Closed? {
      OfferedOffsets(Buffer(s.handler), e, |Delivering(Active(s), t)|, t);
      var p :| p in Delivering(Active(s), t);
      assert p in Delivering(s.patterns, t);
    }
  }

  lemma DeliverSound(s: System, t: Text)
    requires Sound(s) && Enabled(s, DeliverNext(t))
    ensures Sound(Do(s, DeliverNext(t)))
  {
    hide Placed, AllInLog, HistorySound, OfferCopies;
    DeliverHistorySound(s, t);
  }

  lemma DeliverBuffered(s: System, t: Text, u: Text)
    requires Sound(s) && Enabled(s, DeliverNext(t)) && u !in Do(s, DeliverNext(t)).lost
    requires Buffered(s, u) && !s.handler.Closed?
    ensures Buffered(Do(s, DeliverNext(t)), u)
    ensures Delivering(Active(s), u) != {} ==>
      Start(Offsets(Buffer(Do(s, DeliverNext(t)).handler), u), Delivered(Do(s, DeliverNext(t)), u))
      == Start(Offsets(Buffer(s.handler), u), Delivered(s, u))
  {
    hide Smooth, Reach, Offsets, HandlerSound, HistorySound;
    var s' := Do(s, DeliverNext(t));
    var d := Delivered(s, t);
    var e := Events(s.log, t)[d];
    var copies := |Delivering(Active(s), t)|;
    assert e.topic == t && e.offset == d;
    OfferedOffsets(Buffer(s.handler), e, copies, u);
    assert Offsets(Buffer(s.handler), u) + [] == Offsets(Buffer(s.handler), u);
    assert Active(s') == Active(s);
    if u == t && copies > 0 {
      var offsets := Offsets(Buffer(s.handler), t);
      var start := Start(offsets, d);
      var k := Accepted(Buffer(s.handler), copies);
      SmoothRepeat(start, d, d, k);
      SmoothConcat(start, start, offsets, Repeat(d, k));
    } else if u == t {
      assert Delivering(Active(s), t) == {};
      SmoothNone(d + 1);
    }
  }

  lemma SmoothNone(next: int)
    ensures Smooth(next, next, []) && Reach(next, []) == next
  {
  }

  ghost predicate SameView(s: System, s': System, t: Text) {
    && Delivered(s', t) == Delivered(s, t)
    && (t in s'.client.offsets <==> t in s.client.offsets)
    && (t in s.client.offsets ==> s'.client.offsets[t] == s.client.offsets[t])
    && (t in s'.first <==> t in s.first)
    && (t in s.first ==> s'.first[t] == s.first[t])
  }

  /** A flow depends only on what the client holds and on how much was delivered. */
  lemma SameFlow(s: System, s': System, t: Text, offsets: seq<int>)
    requires SameView(s, s', t)
    ensures Flows(s', t, offsets) == Flows(s, t, offsets) && FlowsToDate(s', t, offsets) == FlowsToDate(s, t, offsets)
  {
    hide Smooth, Reach;
  }

  lemma SameExpected(s: System, s': System, t: Text, offsets: seq<int>)
    requires SameView(s, s', t)
    ensures Expected(s', t, offsets) == Expected(s, t, offsets)
  {
  }

  lemma EmptyFlow(s: System, t: Text)
    ensures Flows(s, t, [])
    ensures t !in s.client.offsets ==> FlowsToDate(s, t, [])
  {
  }

  /** The next delivery, in any number of copies, extends a flow that is up to date. */
  lemma FlowExtends(s: System, s': System, t: Text, offsets: seq<int>, copies: nat)
    requires FlowsToDate(s, t, offsets) && copies > 0
    requires s'.client == s.client && s'.first == s.first && Delivered(s', t) == Delivered(s, t) + 1
    requires t in s.client.offsets <==> t in s.first
    requires t in s.first ==> s.first[t] <= Delivered(s, t)
    ensures FlowsToDate(s', t, offsets + Repeat(Delivered(s, t), copies))
  {
    hide Smooth, Reach;
    var d, low, next := Delivered(s, t), Low(s, t, offsets), Expected(s, t, offsets);
    SmoothRepeat(low, Reach(next, offsets), d, copies);
    SmoothConcat(low, next, offsets, Repeat(d, copies));
  }

  lemma DeliverFlows(s: System, t: Text, u: Text)
    requires Sound(s) && Enabled(s, DeliverNext(t)) && u !in Do(s, DeliverNext(t)).lost && !s.handler.Closed?
    requires Active(s) == s.patterns
    requires FlowsToDate(s, u, Offsets(s.wire, u) + Offsets(Buffer(s.handler), u)) && NoGap(s, u)
    ensures var s' := Do(s, DeliverNext(t));
      FlowsToDate(s', u, Offsets(s'.wire, u) + Offsets(Buffer(s'.handler), u))
  {
    hide Smooth, Reach, Offsets, HandlerSound, FlowsToDate, Flows;
    var s' := Do(s, DeliverNext(t));
    var d := Delivered(s, t);
    var e := Events(s.log, t)[d];
    var copies := |Delivering(Active(s), t)|;
    assert e.topic == t && e.offset == d;
    OfferedOffsets(Buffer(s.handler), e, copies, u);
    var wired, buffered := Offsets(s.wire, u), Offsets(Buffer(s.handler), u);
    if u != t {
      assert buffered + [] == buffered;
      SameFlow(s, s', u, wired + buffered);
    } else if copies > 0 {
      var k := Accepted(Buffer(s.handler), copies);
      assert wired + (buffered + Repeat(d, k)) == wired + buffered + Repeat(d, k);
      FlowExtends(s, s', t, wired + buffered, k);
    } else {
      assert Delivering(s.patterns, t) == {};
      UncoveredHasNone(s, t, s.wire);
      UncoveredHasNone(s, t, Buffer(s.handler));
      assert Offsets(s'.wire, t) + Offsets(Buffer(s'.handler), t) == [];
      EmptyFlow(s', t);
    }
  }

  lemma UncoveredHasNone(s: System, t: Text, events: seq<Event>)
    requires AllInLog(s, events) && Delivering(s.patterns, t) == {}
    ensures Offsets(events, t) == []
  {
    if Offsets(events, t) != [] {
      OffsetsMember(events, t, Offsets(events, t)[0]);
    }
  }

  lemma DeliverKeeps(s: System, t: Text)
    requires Inv(s) && Enabled(s, DeliverNext(t))
    ensures Inv(Do(s, DeliverNext(t)))
  {
    hide InStep, NoGap, Sound;
    DeliverSound(s, t);
    forall u | u !in Do(s, DeliverNext(t)).lost
      ensures TopicInv(Do(s, DeliverNext(t)), u)
    {
      assert TopicInv(s, u);
      DeliverNoGap(s, t, u);
      DeliverInStep(s, t, u);
    }
  }

  lemma DeliverNoGap(s: System, t: Text, u: Text)
    requires NoGap(s, u) && Enabled(s, DeliverNext(t))
    ensures NoGap(Do(s, DeliverNext(t)), u)
  {
    hide Offsets;
  }

  lemma DeliverInStep(s: System, t: Text, u: Text)
    requires Sound(s) && Enabled(s, DeliverNext(t)) && u !in Do(s, DeliverNext(t)).lost
    requires TopicInv(s, u)
    ensures InStep(Do(s, DeliverNext(t)), u)
  {
    hide Smooth, Reach, Offsets, OfferCopies, LogSound, AllInLog, HandlerSound, Holed;
    match s.handler {
      case Closed =>
        EmptyFlow(Do(s, DeliverNext(t)), u);
      case Registering(_, _, _) =>
        DeliverBuffered(s, t, u);
      case Live(_) =>
        DeliverFlows(s, t, u);
      case Replaying(_, todo, current, _) =>
        if u in todo || (current.Some? && current.value.topic == u) {
          DeliverBuffered(s, t, u);
        } else {
          DeliverFlows(s, t, u);
        }
    }
  }

  // -- connecting

  lemma OpenSound(s: System)
    requires Sound(s) && Enabled(s, Open)
    ensures Sound(Do(s, Open))
  {
  }

  lemma OpenInStep(s: System, u: Text)
    requires Sound(s) && Enabled(s, Open) && TopicInv(s, u)
    ensures TopicInv(Do(s, Open), u)
  {
    hide Sound;
    SmoothNone(Delivered(s, u));
    assert Offsets([], u) == [];
    assert Buffered(Do(s, Open), u);
  }

  /** With nothing in flight, what the client holds is all there is to a topic. */
  lemma HeldWithoutHole(s: System, u: Text)
    requires Inv(s) && Enabled(s, Open) && u !in Do(s, Open).lost
    ensures TopicInv(s, u)
  {
    if u in s.lost {
      EmptyFlow(s, u);
      assert Offsets(s.wire, u) == [];
    }
  }

  lemma OpenKeeps(s: System)
    requires Inv(s) && Enabled(s, Open)
    ensures Inv(Do(s, Open))
  {
    hide InStep, NoGap, Sound;
    OpenSound(s);
    forall u | u !in Do(s, Open).lost
      ensures TopicInv(Do(s, Open), u)
    {
      HeldWithoutHole(s, u);
      OpenInStep(s, u);
    }
  }

  lemma RegisterSound(s: System, p: Text)
    requires Sound(s) && Enabled(s, Register(p))
    ensures Sound(Do(s, Register(p)))
  {
  }

  lemma RegisterInStep(s: System, p: Text, u: Text)
    requires Sound(s) && Enabled(s, Register(p)) && TopicInv(s, u)
    ensures TopicInv(Do(s, Register(p)), u)
  {
    hide Smooth, Reach, Offsets, Sound;
    assert Delivering(Active(s), u) <= Delivering(Active(Do(s, Register(p))), u);
    assert Buffered(Do(s, Register(p)), u);
  }

  lemma RegisterKeeps(s: System, p: Text)
    requires Inv(s) && Enabled(s, Register(p))
    ensures Inv(Do(s, Register(p)))
  {
    hide InStep, NoGap, Sound;
    RegisterSound(s, p);
    forall u | u !in Do(s, Register(p)).lost
      ensures TopicInv(Do(s, Register(p)), u)
    {
      assert TopicInv(s, u);
      RegisterInStep(s, p, u);
    }
  }

  lemma ValidateSound(s: System, accepted: bool)
    requires Sound(s) && Enabled(s, Validate(accepted))
    ensures Sound(Do(s, Validate(accepted)))
  {
  }

  /** Without a cursor, the live buffer alone is the flow of a topic. */
  lemma BufferedFlows(s: System, t: Text)
    requires Buffered(s, t) && t !in s.client.offsets && t !in s.first
    ensures FlowsToDate(s, t, Offsets(Buffer(s.handler), t))
  {
  }

  lemma ValidateInStep(s: System, accepted: bool, u: Text)
    requires Sound(s) && Enabled(s, Validate(accepted)) && TopicInv(s, u)
    ensures TopicInv(Do(s, Validate(accepted)), u)
  {
    hide Smooth, Reach, FlowsToDate, Flows, LogSound, AllInLog, Offsets;
    var s' := Do(s, Validate(accepted));
    OffsetsNone(u);
    if !accepted {
      EmptyFlow(s', u);
    } else if u in s.client.offsets {
      assert Delivering(s.patterns, u) != {};
    } else {
      BufferedFlows(s, u);
      SameFlow(s, s', u, Offsets(Buffer(s.handler), u));
      assert [] + Offsets(Buffer(s.handler), u) == Offsets(Buffer(s.handler), u);
    }
  }

  lemma ValidateKeeps(s: System, accepted: bool)
    requires Inv(s) && Enabled(s, Validate(accepted))
    ensures Inv(Do(s, Validate(accepted)))
  {
    hide InStep, NoGap, Sound;
    ValidateSound(s, accepted);
    forall u | u !in Do(s, Validate(accepted)).lost
      ensures TopicInv(Do(s, Validate(accepted)), u)
    {
      assert TopicInv(s, u);
      ValidateInStep(s, accepted, u);
    }
  }

  // -- replaying

  lemma StartTopicSound(s: System, t: Text)
    requires Sound(s) && Enabled(s, StartTopic(t))
    ensures Sound(Do(s, StartTopic(t)))
  {
  }

  lemma StartTopicInStep(s: System, t: Text, u: Text)
    requires Sound(s) && Enabled(s, StartTopic(t)) && TopicInv(s, u)
    ensures TopicInv(Do(s, StartTopic(t)), u)
  {
    hide Offsets, Sound;
  }

  lemma StartTopicKeeps(s: System, t: Text)
    requires Inv(s) && Enabled(s, StartTopic(t))
    ensures Inv(Do(s, StartTopic(t)))
  {
    hide InStep, NoGap, Sound;
    StartTopicSound(s, t);
    forall u | u !in Do(s, StartTopic(t)).lost
      ensures TopicInv(Do(s, StartTopic(t)), u)
    {
      assert TopicInv(s, u);
      StartTopicInStep(s, t, u);
    }
  }

  lemma FetchHistorySound(s: System)
    requires HistorySound(s) && Enabled(s, Fetch)
    ensures HistorySound(Do(s, Fetch))
  {
    hide Delivering, InLog, Slice;
  }

  lemma FetchSound(s: System)
    requires Sound(s) && Enabled(s, Fetch)
    ensures Sound(Do(s, Fetch))
  {
    FetchHistorySound(s);
    hide Placed, HistorySound, Delivering;
    var r := s.handler.current.value;
    var batch := Slice(s.log, r.topic, r.next, REPLAY_BATCH_SIZE);
    assert batch == Events(s.log, r.topic)[r.next..r.next + |batch|];
  }

  lemma FetchInStep(s: System, u: Text)
    requires Sound(s) && Enabled(s, Fetch) && TopicInv(s, u)
    ensures TopicInv(Do(s, Fetch), u)
  {
    hide Offsets, Smooth, Reach, HistorySound, Placed;
  }

  lemma FetchKeeps(s: System)
    requires Inv(s) && Enabled(s, Fetch)
    ensures Inv(Do(s, Fetch))
  {
    hide InStep, NoGap, Sound;
    FetchSound(s);
    forall u | u !in Do(s, Fetch).lost
      ensures TopicInv(Do(s, Fetch), u)
    {
      assert TopicInv(s, u);
      FetchInStep(s, u);
    }
  }

  /** The next pending event is the log's event at the replay position. */
  lemma PendingHead(s: System)
    requires Sound(s) && Enabled(s, WriteReplay)
    ensures var r := s.handler.current.value;
      && r.pending[0].topic == r.topic && r.pending[0].offset == r.next
      && InLog(s.log, r.pending[0]) && Delivering(s.patterns, r.topic) != {}
      && r.pending[1..] == Events(s.log, r.topic)[r.next + 1..r.next + |r.pending|]
  {
    hide AllInLog;
    var r := s.handler.current.value;
    assert r.pending[0] == Events(s.log, r.topic)[r.next];
    assert r.topic in s.client.offsets;
  }

  lemma WriteReplaySound(s: System)
    requires Sound(s) && Enabled(s, WriteReplay)
    ensures Sound(Do(s, WriteReplay))
  {
    hide Placed, InLog, Delivering;
    PendingHead(s);
  }

  lemma WriteReplayInStep(s: System, u: Text)
    requires Sound(s) && Enabled(s, WriteReplay) && TopicInv(s, u)
    requires var r := s.handler.current.value; r.pending[0].topic == r.topic && r.pending[0].offset == r.next
    ensures TopicInv(Do(s, WriteReplay), u)
  {
    hide Offsets, Smooth, Reach, LogSound, HistorySound;
    var s' := Do(s, WriteReplay);
    var r := s.handler.current.value;
    OffsetsConcat(s.wire, [r.pending[0]], u);
    OffsetsOne(r.pending[0], u);
    if u == r.topic {
      SmoothRepeat(Low(s, u, []), r.next, r.next, 1);
      assert Repeat(r.next, 1) == [r.next];
      SmoothConcat(Low(s, u, []), Expected(s, u, []), Offsets(s.wire, u), [r.next]);
    } else {
      assert Offsets(s.wire, u) + [] == Offsets(s.wire, u);
    }
  }

  lemma WriteReplayKeeps(s: System)
    requires Inv(s) && Enabled(s, WriteReplay)
    ensures Inv(Do(s, WriteReplay))
  {
    hide InStep, NoGap, Sound;
    WriteReplaySound(s);
    PendingHead(s);
    forall u | u !in Do(s, WriteReplay).lost
      ensures TopicInv(Do(s, WriteReplay), u)
    {
      assert TopicInv(s, u);
      WriteReplayInStep(s, u);
    }
  }

  lemma FinishTopicSound(s: System)
    requires Sound(s) && Enabled(s, FinishTopic)
    ensures Sound(Do(s, FinishTopic))
  {
  }

  /** The replay has reached the buffer: what follows from there is one flow. */
  lemma FinishTopicInStep(s: System, u: Text)
    requires Sound(s) && Enabled(s, FinishTopic) && TopicInv(s, u)
    ensures TopicInv(Do(s, FinishTopic), u)
  {
    hide Offsets, Smooth, Reach, LogSound, HistorySound;
    var r := s.handler.current.value;
    if u == r.topic {
      var wired, buffered := Offsets(s.wire, u), Offsets(s.handler.buffer, u);
      var start := Start(buffered, Delivered(s, u));
      SmoothConcat(Low(s, u, []), Expected(s, u, []), wired, buffered);
      SmoothMonotone(start, start, Low(s, u, []), r.next, buffered);
    }
  }

  lemma FinishTopicKeeps(s: System)
    requires Inv(s) && Enabled(s, FinishTopic)
    ensures Inv(Do(s, FinishTopic))
  {
    hide InStep, NoGap, Sound;
    FinishTopicSound(s);
    forall u | u !in Do(s, FinishTopic).lost
      ensures TopicInv(Do(s, FinishTopic), u)
    {
      assert TopicInv(s, u);
      FinishTopicInStep(s, u);
    }
  }

  lemma FinishReplaySound(s: System)
    requires Sound(s) && Enabled(s, FinishReplay)
    ensures Sound(Do(s, FinishReplay))
  {
  }

  lemma FinishReplayInStep(s: System, u: Text)
    requires Sound(s) && Enabled(s, FinishReplay) && TopicInv(s, u)
    ensures TopicInv(Do(s, FinishReplay), u)
  {
    hide Offsets, Smooth, Reach, Sound;
  }

  lemma FinishReplayKeeps(s: System)
    requires Inv(s) && Enabled(s, FinishReplay)
    ensures Inv(Do(s, FinishReplay))
  {
    hide InStep, NoGap, Sound;
    FinishReplaySound(s);
    forall u | u !in Do(s, FinishReplay).lost
      ensures TopicInv(Do(s, FinishReplay), u)
    {
      assert TopicInv(s, u);
      FinishReplayInStep(s, u);
    }
  }

  lemma DrainLiveSound(s: System)
    requires Sound(s) && Enabled(s, DrainLive)
    ensures Sound(Do(s, DrainLive))
  {
    assert s.handler.buffer[0] in Buffer(s.handler);
  }

  lemma DrainLiveInStep(s: System, u: Text)
    requires Enabled(s, DrainLive) && TopicInv(s, u)
    ensures TopicInv(Do(s, DrainLive), u)
  {
    hide Smooth, Reach, FlowsToDate, Flows, Offsets;
    var s' := Do(s, DrainLive);
    var e := s.handler.buffer[0];
    OffsetsConcat(s.wire, [e], u);
    OffsetsOne(e, u);
    OffsetsHead(s.handler.buffer, u);
    var offsets := Offsets(s.wire, u) + Offsets(Buffer(s.handler), u);
    assert Offsets(s'.wire, u) + Offsets(Buffer(s'.handler), u) == offsets;
    SameFlow(s, s', u, offsets);
  }

  lemma DrainLiveKeeps(s: System)
    requires Inv(s) && Enabled(s, DrainLive)
    ensures Inv(Do(s, DrainLive))
  {
    hide InStep, NoGap, Sound;
    DrainLiveSound(s);
    forall u | u !in Do(s, DrainLive).lost
      ensures TopicInv(Do(s, DrainLive), u)
    {
      assert TopicInv(s, u);
      DrainLiveInStep(s, u);
    }
  }

  // -- parsing and dropping

  /** Parsing the head of a flow leaves a flow that reaches as far. */
  lemma ParseFlows(s: System, offsets: seq<int>)
    requires Sound(s) && Enabled(s, Parse)
    requires Flows(s, s.wire[0].topic, offsets) && offsets != [] && offsets[0] == s.wire[0].offset
    ensures var t, s' := s.wire[0].topic, Do(s, Parse);
      && Flows(s', t, offsets[1..])
      && Reach(Expected(s', t, offsets[1..]), offsets[1..]) == Reach(Expected(s, t, offsets), offsets)
  {
    var e, t := s.wire[0], s.wire[0].topic;
    var s' := Do(s, Parse);
    assert t in s'.client.offsets && t in s'.first;
    assert Expected(s', t, offsets[1..]) == Max(Expected(s, t, offsets), e.offset + 1);
    assert Low(s', t, offsets[1..]) == Low(s, t, offsets);
  }

  /** Parsing the head of a flow extends what the client holds without a hole. */
  lemma ParseNoGap(s: System, offsets: seq<int>)
    requires Sound(s) && Enabled(s, Parse)
    requires var t := s.wire[0].topic;
      NoGap(s, t) && Flows(s, t, offsets) && offsets != [] && offsets[0] == s.wire[0].offset
    ensures NoGap(Do(s, Parse), s.wire[0].topic)
  {
    hide Offsets;
    var e, t := s.wire[0], s.wire[0].topic;
    assert e in s.wire && InLog(s.log, e);
    OffsetsConcat(s.received, [e], t);
    OffsetsOne(e, t);
    assert Low(s, t, offsets) <= e.offset <= Expected(s, t, offsets);
  }

  lemma ParseHistorySound(s: System)
    requires HistorySound(s) && Enabled(s, Parse)
    ensures HistorySound(Do(s, Parse))
  {
    var e := s.wire[0];
    assert e in s.wire && InLog(s.log, e);
    hide Delivering;
  }

  lemma ParseSound(s: System)
    requires Sound(s) && Enabled(s, Parse)
    ensures Sound(Do(s, Parse))
  {
    hide Placed, HistorySound, Delivering;
    ParseHistorySound(s);
    ParseKeepsCursors(s);
  }

  lemma ParseKeepsCursors(s: System)
    requires HistorySound(s) && Enabled(s, Parse)
    ensures Do(s, Parse).client.offsets.Keys == s.client.offsets.Keys + {s.wire[0].topic}
  {
  }

  lemma ParseSameView(s: System, u: Text)
    requires Enabled(s, Parse) && u != s.wire[0].topic
    requires s.client.nodeId in {[], s.node}
    ensures SameView(s, Do(s, Parse), u)
  {
  }

  lemma ParseElsewhere(s: System, u: Text)
    requires Sound(s) && Enabled(s, Parse) && TopicInv(s, u) && u != s.wire[0].topic
    ensures TopicInv(Do(s, Parse), u)
  {
    hide Smooth, Reach, Offsets, LogSound, HandlerSound, AllInLog, Flows, FlowsToDate, NoGap;
    var s' := Do(s, Parse);
    OffsetsHead(s.wire, u);
    assert [] + Offsets(s.wire[1..], u) == Offsets(s.wire[1..], u);
    ParseNoGapElsewhere(s, u);
    ParseSameView(s, u);
    SameFlow(s, s', u, Offsets(s.wire, u));
    SameFlow(s, s', u, Offsets(s.wire, u) + Offsets(Buffer(s.handler), u));
  }

  lemma ParseNoGapElsewhere(s: System, u: Text)
    requires HistorySound(s) && Enabled(s, Parse) && NoGap(s, u) && u != s.wire[0].topic
    ensures NoGap(Do(s, Parse), u)
  {
    hide Offsets, AllInLog;
    OffsetsConcat(s.received, [s.wire[0]], u);
    OffsetsOne(s.wire[0], u);
    assert Offsets(s.received, u) + [] == Offsets(s.received, u);
  }

  lemma ParseHere(s: System)
    requires Sound(s) && Enabled(s, Parse) && TopicInv(s, s.wire[0].topic)
    ensures TopicInv(Do(s, Parse), s.wire[0].topic)
  {
    hide Smooth, Reach, Offsets, LogSound, AllInLog, Flows, Low;
    var u := s.wire[0].topic;
    var s' := Do(s, Parse);
    OffsetsHead(s.wire, u);
    var wired, buffered := Offsets(s.wire, u), Offsets(Buffer(s.handler), u);
    assert wired[1..] == Offsets(s'.wire, u);
    assert (wired + buffered)[1..] == Offsets(s'.wire, u) + buffered;
    if s.handler.Closed? || (s.handler.Replaying? && s.handler.current.Some? && s.handler.current.value.topic == u) {
      ParseFlows(s, wired);
      ParseNoGap(s, wired);
    } else {
      ParseFlows(s, wired + buffered);
      ParseNoGap(s, wired + buffered);
    }
  }

  lemma ParseKeeps(s: System)
    requires Inv(s) && Enabled(s, Parse)
    ensures Inv(Do(s, Parse))
  {
    hide InStep, NoGap;
    ParseSound(s);
    forall u | u !in Do(s, Parse).lost
      ensures TopicInv(Do(s, Parse), u)
    {
      assert TopicInv(s, u);
      if u == s.wire[0].topic {
        ParseHere(s);
      } else {
        ParseElsewhere(s, u);
      }
    }
  }

  /** What is already on the wire is a flow of its own. */
  lemma FlowPrefix(s: System, t: Text, a: seq<int>, b: seq<int>)
    requires Flows(s, t, a + b)
    ensures Flows(s, t, a)
  {
    SmoothConcat(Low(s, t, a + b), Expected(s, t, a + b), a, b);
    if a != [] {
      assert (a + b)[0] == a[0];
    }
  }

  lemma ServerDropSound(s: System)
    requires Sound(s) && Enabled(s, ServerDrop)
    ensures Sound(Do(s, ServerDrop))
  {
  }

  lemma ServerDropInStep(s: System, u: Text)
    requires Sound(s) && Enabled(s, ServerDrop) && TopicInv(s, u)
    ensures TopicInv(Do(s, ServerDrop), u)
  {
    hide Smooth, Reach, LogSound, HistorySound, Flows;
    var s' := Do(s, ServerDrop);
    EmptyFlow(s', u);
    var wired, buffered := Offsets(s.wire, u), Offsets(Buffer(s.handler), u);
    if FlowsToDate(s, u, wired + buffered) {
      FlowPrefix(s, u, wired, buffered);
    }
    SameFlow(s, s', u, wired);
  }

  lemma ServerDropKeeps(s: System)
    requires Inv(s) && Enabled(s, ServerDrop)
    ensures Inv(Do(s, ServerDrop))
  {
    hide InStep, NoGap, Sound;
    ServerDropSound(s);
    forall u | u !in Do(s, ServerDrop).lost
      ensures TopicInv(Do(s, ServerDrop), u)
    {
      assert TopicInv(s, u);
      ServerDropInStep(s, u);
    }
  }

  lemma ClientDropSound(s: System)
    requires Sound(s) && Enabled(s, ClientDrop)
    ensures Sound(Do(s, ClientDrop))
  {
  }

  lemma ClientDropInStep(s: System, u: Text)
    requires Sound(s) && Enabled(s, ClientDrop) && TopicInv(s, u)
    ensures TopicInv(Do(s, ClientDrop), u)
  {
    hide Smooth, Reach, Sound;
    EmptyFlow(Do(s, ClientDrop), u);
  }

  lemma ClientDropKeeps(s: System)
    requires Inv(s) && Enabled(s, ClientDrop)
    ensures Inv(Do(s, ClientDrop))
  {
    hide InStep, NoGap, Sound;
    ClientDropSound(s);
    forall u | u !in Do(s, ClientDrop).lost
      ensures TopicInv(Do(s, ClientDrop), u)
    {
      assert TopicInv(s, u);
      ClientDropInStep(s, u);
    }
  }

  // ---- what holds in every run --------------------------------------------------

  lemma StepKeeps(s: System, step: Step)
    requires Inv(s) && Enabled(s, step)
    ensures Inv(Do(s, step))
  {
    hide Inv, Do, Enabled;
    match step
    case Publish(e) => PublishKeeps(s, e);
    case DeliverNext(t) => DeliverKeeps(s, t);
    case Open => OpenKeeps(s);
    case Register(p) => RegisterKeeps(s, p);
    case Validate(accepted) => ValidateKeeps(s, accepted);
    case StartTopic(t) => StartTopicKeeps(s, t);
    case Fetch => FetchKeeps(s);
    case WriteReplay => WriteReplayKeeps(s);
    case FinishTopic => FinishTopicKeeps(s);
    case FinishReplay => FinishReplayKeeps(s);
    case DrainLive => DrainLiveKeeps(s);
    case Parse => ParseKeeps(s);
    case ServerDrop => ServerDropKeeps(s);
    case ClientDrop => ClientDropKeeps(s);
  }

  lemma {:induction false} RunKeeps(s: System, steps: seq<Step>, end: System)
    requires Inv(s) && Runs(s, steps, end)
    ensures Inv(end)
    decreases |steps|
  {
    hide Inv, Do, Enabled;
    if steps != [] {
      StepKeeps(s, steps[0]);
      RunKeeps(Do(s, steps[0]), steps[1..], end);
    }
  }

  /** The client has parsed the event of a topic at an offset. */
  ghost predicate Holds(s: System, t: Text, o: int) {
    exists e :: e in s.received && e.topic == t && e.offset == o
  }

  /** In every run, with disconnects anywhere, what the client holds of a topic is one
      range of offsets ending at its cursor, and each event is the log's event. */
  lemma NoGapResume(s: System, steps: seq<Step>, end: System, t: Text)
    requires Initial(s) && Runs(s, steps, end)
    requires t in end.client.offsets && t !in end.lost
    ensures t in end.first
    ensures forall o: int :: Holds(end, t, o) <==> end.first[t] <= o <= end.client.offsets[t]
    ensures forall e :: e in end.received ==> InLog(end.log, e)
  {
    InvInitial(s);
    RunKeeps(s, steps, end);
    assert TopicInv(end, t);
    forall o
      ensures Holds(end, t, o) <==> end.first[t] <= o <= end.client.offsets[t]
    {
      OffsetsMember(end.received, t, o);
    }
  }

  /** Whenever a live stream has drained, the client holds every event delivered so
      far from its first on; if delivery is up to date, that is the rest of the log. */
  lemma DrainedMeansCaughtUp(s: System, steps: seq<Step>, end: System, t: Text)
    requires Initial(s) && Runs(s, steps, end)
    requires t in end.client.offsets && t !in end.lost
    requires end.handler == Live([]) && end.wire == []
    ensures t in end.first
    ensures forall o: int :: end.first[t] <= o < Delivered(end, t) ==> Holds(end, t, o)
    ensures Delivered(end, t) == EndOffset(end.log, t) ==> end.client.offsets[t] == EndOffset(end.log, t) - 1
  {
    hide Initial, Runs, TopicInv, Sound, Holds, Delivered;
    InvInitial(s);
    RunKeeps(s, steps, end);
    NoGapResume(s, steps, end, t);
    LiveIsDrained(end, t);
  }

  lemma LiveIsDrained(s: System, t: Text)
    requires Sound(s) && TopicInv(s, t) && t in s.client.offsets
    requires s.handler == Live([]) && s.wire == []
    ensures Delivered(s, t) - 1 <= s.client.offsets[t] < EndOffset(s.log, t)
  {
    hide Smooth, Offsets, LogSound, HandlerSound, AllInLog;
    OffsetsNone(t);
    assert FlowsToDate(s, t, [] + []);
    assert Reach(Expected(s, t, []), []) - 1 == s.client.offsets[t];
  }

  /** The condition on a run under which nothing is lost: no live event meets a full buffer. */
  ghost predicate NeverOverflows(s: System, steps: seq<Step>)
    decreases |steps|
  {
    steps != [] && Enabled(s, steps[0]) ==>
      && (steps[0].DeliverNext? && Delivering(Active(s), steps[0].topic) != {} ==> |Buffer(s.handler)| < BUFFER_SIZE)
      && NeverOverflows(Do(s, steps[0]), steps[1..])
  }

  lemma {:induction false} NothingLost(s: System, steps: seq<Step>, end: System)
    requires Runs(s, steps, end) && NeverOverflows(s, steps) && s.lost == {}
    ensures end.lost == {}
    decreases |steps|
  {
    if steps != [] {
      NothingLost(Do(s, steps[0]), steps[1..], end);
    }
  }

  ghost predicate IsRange(offsets: seq<int>, first: int, last: int) {
    first <= last && forall o: int :: o in offsets <==> first <= o <= last
  }

  lemma RangeExtendsExactly(offsets: seq<int>, first: int, last: int, x: int)
    requires IsRange(offsets, first, last)
    ensures IsRange(offsets + [x], first, Max(last, x)) <==> first <= x <= last + 1
  {
    if x > last + 1 {
      assert last + 1 !in offsets + [x];
    }
    assert x in offsets + [x];
  }

  lemma NoGapIsRange(s: System, t: Text)
    requires t in s.client.offsets && t in s.first
    ensures NoGap(s, t) <==>
      0 <= s.first[t] < Delivered(s, t) && IsRange(Offsets(s.received, t), s.first[t], s.client.offsets[t])
  {
    hide Offsets, Delivered;
  }

  lemma HeldAfterParse(s: System)
    requires Sound(s) && Enabled(s, Parse) && s.wire[0].topic in s.client.offsets
    ensures var e, t, s' := s.wire[0], s.wire[0].topic, Do(s, Parse);
      && Offsets(s'.received, t) == Offsets(s.received, t) + [e.offset as int]
      && t in s'.client.offsets && t in s.first && t in s'.first && s'.first[t] == s.first[t]
      && s'.client.offsets[t] == Max(s.client.offsets[t], e.offset) && Delivered(s', t) == Delivered(s, t)
  {
    hide Offsets, LogSound, HandlerSound, AllInLog;
    OffsetsConcat(s.received, [s.wire[0]], s.wire[0].topic);
    OffsetsOne(s.wire[0], s.wire[0].topic);
  }

  /** Parsing the next event of a topic leaves no hole exactly when the event is a repeat
      or the one after the cursor. */
  lemma ParseKeepsNoGapExactly(s: System)
    requires Sound(s) && Enabled(s, Parse)
    requires var t := s.wire[0].topic; NoGap(s, t) && t in s.client.offsets
    ensures var t, o := s.wire[0].topic, s.wire[0].offset;
      NoGap(Do(s, Parse), t) <==> s.first[t] <= o <= s.client.offsets[t] as int + 1
  {
    HeldAfterParse(s);
    hide Offsets, Sound, Do, Delivered;
    var t := s.wire[0].topic;
    RangeExtendsExactly(Offsets(s.received, t), s.first[t], s.client.offsets[t], s.wire[0].offset);
    hide IsRange;
    NoGapIsRange(s, t);
    NoGapIsRange(Do(s, Parse), t);
  }

  /** The client parses everything in flight. */
  ghost function ParsedAll(s: System): System
    decreases |s.wire|
  {
    if s.wire == [] then s else ParsedAll(Do(s, Parse))
  }

  lemma ParsedWire(s: System)
    requires Enabled(s, Parse)
    ensures Do(s, Parse).wire == s.wire[1..]
  {
  }

  lemma NothingReached(s: System, t: Text)
    requires t in s.client.offsets
    ensures Reach(Expected(s, t, []), []) == s.client.offsets[t] as int + 1
  {
  }

  /** Why order and room matter: of a stream that is up to date but for its last event, the
      client holds everything without a hole in the end exactly when that event is not
      beyond the next offset. A dropped or overtaken event leaves its successor beyond it,
      and the cursor then passes the hole. */
  lemma {:induction false} LastEventKeepsNoGapExactly(s: System, w: seq<Event>, e: Event)
    requires Sound(s) && s.wire == w + [e] && NoGap(s, e.topic) && e.topic in s.client.offsets
    requires Flows(s, e.topic, Offsets(w, e.topic)) && s.first[e.topic] <= e.offset
    ensures NoGap(ParsedAll(s), e.topic) <==>
      e.offset <= Reach(Expected(s, e.topic, Offsets(w, e.topic)), Offsets(w, e.topic))
    decreases |w|
  {
    hide Sound, NoGap, Flows, Do, Reach, Offsets;
    var t := e.topic;
    var s' := Do(s, Parse);
    ParseSound(s);
    ParsedStaysHeld(s, t);
    ParsedWire(s);
    if w == [] {
      ParseKeepsNoGapExactly(s);
      OffsetsNone(t);
      NothingReached(s, t);
      assert s'.wire == [] && ParsedAll(s) == s';
    } else {
      assert s.wire[0] == w[0] && s'.wire == w[1..] + [e];
      OffsetsHead(w, t);
      HeadKeepsFlow(s, w, t);
      LastEventKeepsNoGapExactly(s', w[1..], e);
    }
  }

  lemma ParsedStaysHeld(s: System, t: Text)
    requires Sound(s) && Enabled(s, Parse) && t in s.client.offsets
    ensures var s' := Do(s, Parse);
      t in s'.client.offsets && t in s.first && t in s'.first && s'.first[t] == s.first[t]
  {
    hide LogSound, HandlerSound, AllInLog;
  }

  lemma HeadHereKeepsFlow(s: System, w: seq<Event>)
    requires Sound(s) && w != [] && Enabled(s, Parse) && s.wire[0] == w[0]
    requires var t := w[0].topic; NoGap(s, t) && Flows(s, t, Offsets(w, t))
    ensures var s', t := Do(s, Parse), w[0].topic;
      && NoGap(s', t) && Flows(s', t, Offsets(w[1..], t))
      && Reach(Expected(s', t, Offsets(w[1..], t)), Offsets(w[1..], t)) ==
          Reach(Expected(s, t, Offsets(w, t)), Offsets(w, t))
  {
    var t := w[0].topic;
    OffsetsHead(w, t);
    var all, rest := Offsets(w, t), Offsets(w[1..], t);
    hide Offsets, Smooth, Reach, Sound, NoGap, Flows, Do, Expected;
    assert all == [w[0].offset as int] + rest && all[1..] == rest;
    ParseNoGap(s, all);
    ParseFlows(s, all);
  }

  lemma HeadElsewhereKeepsFlow(s: System, w: seq<Event>, t: Text)
    requires Sound(s) && w != [] && Enabled(s, Parse) && s.wire[0] == w[0] && w[0].topic != t
    requires NoGap(s, t) && t in s.client.offsets && Flows(s, t, Offsets(w, t))
    ensures var s' := Do(s, Parse);
      && NoGap(s', t) && Flows(s', t, Offsets(w[1..], t))
      && Reach(Expected(s', t, Offsets(w[1..], t)), Offsets(w[1..], t)) ==
          Reach(Expected(s, t, Offsets(w, t)), Offsets(w, t))
  {
    hide Offsets, Smooth, Reach, NoGap, Sound, Do, Flows, Expected, AllInLog;
    OffsetsHead(w, t);
    assert HistorySound(s) by { SoundHistory(s); }
    ParseNoGapElsewhere(s, t);
    var rest := Offsets(w[1..], t);
    assert [] + rest == rest;
    ParseSameView(s, t);
    SameFlow(s, Do(s, Parse), t, rest);
    SameExpected(s, Do(s, Parse), t, rest);
  }

  lemma SoundHistory(s: System)
    requires Sound(s)
    ensures HistorySound(s)
  {
  }

  lemma HeadKeepsFlow(s: System, w: seq<Event>, t: Text)
    requires Sound(s) && w != [] && Enabled(s, Parse) && s.wire[0] == w[0]
    requires NoGap(s, t) && t in s.client.offsets && Flows(s, t, Offsets(w, t))
    ensures var s' := Do(s, Parse);
      && NoGap(s', t) && t in s'.client.offsets && s'.first[t] == s.first[t] && Flows(s', t, Offsets(w[1..], t))
      && Reach(Expected(s', t, Offsets(w[1..], t)), Offsets(w[1..], t)) ==
          Reach(Expected(s, t, Offsets(w, t)), Offsets(w, t))
  {
    hide Offsets, Smooth, Reach, Sound, NoGap, Flows, Do, Expected;
    ParsedStaysHeld(s, t);
    if w[0].topic == t {
      HeadHereKeepsFlow(s, w);
    } else {
      HeadElsewhereKeepsFlow(s, w, t);
    }
  }
}
