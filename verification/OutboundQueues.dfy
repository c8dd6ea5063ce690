/** The two outbound queues of a peer on the client stream path, as steps: accepting,
    selecting, sending, retrying and dropping. */
module OutboundQueues {
  import opened Basics

  datatype Plane = Data | Control

  datatype Kind = EventKind | InterestKind | HeartbeatKind

  datatype Message = Message(id: nat, kind: Kind, attempts: nat)

  function PlaneOf(kind: Kind): Plane {
    if kind.EventKind? then Data else Control
  }

  datatype Metrics = Metrics(
    drops: nat, dataDrops: nat, controlDrops: nat,
    dataQueued: nat, controlQueued: nat,
    dataFailures: nat, controlFailures: nat)

  const NO_METRICS := Metrics(0, 0, 0, 0, 0, 0, 0)

  function RecordQueued(m: Metrics, plane: Plane): Metrics {
    match plane
    case Data => m.(dataQueued := m.dataQueued + 1)
    case Control => m.(controlQueued := m.controlQueued + 1)
  }

  function RecordDrop(m: Metrics, plane: Plane): Metrics {
    match plane
    case Data => m.(drops := m.drops + 1, dataDrops := m.dataDrops + 1)
    case Control => m.(drops := m.drops + 1, controlDrops := m.controlDrops + 1)
  }

  function RecordFailure(m: Metrics, plane: Plane): Metrics {
    match plane
    case Data => m.(dataFailures := m.dataFailures + 1)
    case Control => m.(controlFailures := m.controlFailures + 1)
  }

  // What one selection is up to. Waiting: the control queue was found empty when that many
  // control messages had been accepted, and the second select has not fired yet.
  datatype Phase = Idle | Waiting(controlSoFar: nat) | Sending(message: Message)

  /** History of a plane: message IDs in the order things happened to them. */
  datatype Ledger = Ledger(accepted: seq<nat>, sent: seq<nat>, dropped: seq<nat>, refused: nat, failures: nat)

  const NEW_LEDGER := Ledger([], [], [], 0, 0)

  datatype Link = Link(
    data: seq<Message>,
    control: seq<Message>,
    phase: Phase,
    metrics: Metrics,
    next: nat,                 // ID of the next message created
    dataLedger: Ledger,
    controlLedger: Ledger,
    offers: map<nat, nat>)     // history: how often each message was offered to a stream

  const NEW_LINK := Link([], [], Idle, NO_METRICS, 0, NEW_LEDGER, NEW_LEDGER, map[])

  datatype Config = Config(queueSize: nat, maxSendAttempts: nat)

  function Queue(l: Link, plane: Plane): seq<Message> {
    if plane == Data then l.data else l.control
  }

  function LedgerOf(l: Link, plane: Plane): Ledger {
    if plane == Data then l.dataLedger else l.controlLedger
  }

  function With(l: Link, plane: Plane, queue: seq<Message>, ledger: Ledger): Link {
    if plane == Data then l.(data := queue, dataLedger := ledger) else l.(control := queue, controlLedger := ledger)
  }

  function Offers(l: Link, id: nat): nat {
    if id in l.offers then l.offers[id] else 0
  }

  // ---- the steps -------------------------------------------------------------

  datatype Step =
    | Accept(kind: Kind)
    | Refuse(kind: Kind)     // the wait for room expires
    | Look                   // the first, non-blocking select
    | Pick(plane: Plane)     // the second select receives from a queue
    | StreamEnds             // the second select hears of the stream's end instead
    | SendSucceeds
    | SendFails

  predicate Enabled(c: Config, l: Link, step: Step) {
    match step
    case Accept(kind) => |Queue(l, PlaneOf(kind))| < c.queueSize
    case Refuse(_) => true
    case Look => l.phase.Idle?
    case Pick(plane) => l.phase.Waiting? && Queue(l, plane) != []
    case StreamEnds => l.phase.Waiting?
    case SendSucceeds => l.phase.Sending?
    case SendFails => l.phase.Sending?
  }

  function Take(l: Link, plane: Plane): Link
    requires Queue(l, plane) != []
  {
    With(l, plane, Queue(l, plane)[1..], LedgerOf(l, plane)).(phase := Sending(Queue(l, plane)[0]))
  }

  function Failed(c: Config, l: Link, message: Message): Link {
    var plane := PlaneOf(message.kind);
    var again := message.(attempts := message.attempts + 1);
    var queue, ledger := Queue(l, plane), LedgerOf(l, plane);
    var counted := ledger.(failures := ledger.failures + 1);
    var l' := l.(phase := Idle,
                 offers := l.offers[message.id := Offers(l, message.id) + 1],
                 metrics := RecordFailure(l.metrics, plane));
    if again.attempts <= c.maxSendAttempts && |queue| < c.queueSize then
      With(l', plane, queue + [again], counted)
    else
      With(l', plane, queue, counted.(dropped := ledger.dropped + [message.id]))
      .(metrics := RecordDrop(l'.metrics, plane))
  }

  function After(c: Config, l: Link, step: Step): Link
    requires Enabled(c, l, step)
  {
    match step
    case Accept(kind) =>
      var plane := PlaneOf(kind);
      var ledger := LedgerOf(l, plane);
      With(l, plane, Queue(l, plane) + [Message(l.next, kind, 0)], ledger.(accepted := ledger.accepted + [l.next]))
      .(next := l.next + 1, metrics := RecordQueued(l.metrics, plane))
    case Refuse(kind) =>
      var plane := PlaneOf(kind);
      var ledger := LedgerOf(l, plane);
      With(l, plane, Queue(l, plane), ledger.(refused := ledger.refused + 1)).(metrics := RecordDrop(l.metrics, plane))
    case Look => if l.control != [] then Take(l, Control) else l.(phase := Waiting(|l.controlLedger.accepted|))
    case Pick(plane) => Take(l, plane)
    case StreamEnds => l.(phase := Idle)
    case SendSucceeds =>
      var message := l.phase.message;
      var plane := PlaneOf(message.kind);
      var ledger := LedgerOf(l, plane);
      With(l, plane, Queue(l, plane), ledger.(sent := ledger.sent + [message.id]))
      .(phase := Idle, offers := l.offers[message.id := Offers(l, message.id) + 1])
    case SendFails => Failed(c, l, l.phase.message)
  }

  predicate Possible(c: Config, l: Link, steps: seq<Step>)
    decreases |steps|
  {
    steps == [] || (Enabled(c, l, steps[0]) && Possible(c, After(c, l, steps[0]), steps[1..]))
  }

  function Ran(c: Config, l: Link, steps: seq<Step>): Link
    requires Possible(c, l, steps)
    decreases |steps|
  {
    if steps == [] then l else Ran(c, After(c, l, steps[0]), steps[1..])
  }

  // ---- conservation --------------------------------------------------------------

  function Ids(queue: seq<Message>): (ids: seq<nat>)
    ensures |ids| == |queue|
    ensures forall i :: 0 <= i < |queue| ==> ids[i] == queue[i].id
  {
    if queue == [] then [] else [queue[0].id] + Ids(queue[1..])
  }

  function InFlight(l: Link, plane: Plane): seq<nat> {
    if l.phase.Sending? && PlaneOf(l.phase.message.kind) == plane then [l.phase.message.id] else []
  }

  ghost predicate Balanced(accepted: seq<nat>, sent: seq<nat>, dropped: seq<nat>, queued: seq<nat>, flying: seq<nat>) {
    multiset(accepted) == multiset(sent) + multiset(dropped) + multiset(queued) + multiset(flying)
  }

  lemma BalanceMoves(accepted: seq<nat>, sent: seq<nat>, dropped: seq<nat>, queued: seq<nat>, flying: seq<nat>, id: nat)
    requires Balanced(accepted, sent, dropped, queued, flying)
    ensures Balanced(accepted + [id], sent, dropped, queued + [id], flying)
    ensures queued != [] && flying == [] ==> Balanced(accepted, sent, dropped, queued[1..], [queued[0]])
    ensures flying == [id] ==>
      && Balanced(accepted, sent + [id], dropped, queued, [])
      && Balanced(accepted, sent, dropped + [id], queued, [])
      && Balanced(accepted, sent, dropped, queued + [id], [])
  {
    if queued != [] {
      assert queued == [queued[0]] + queued[1..];
    }
  }

  /** Every accepted message is sent, dropped, queued or in flight: exactly one of these. */
  ghost predicate Conserved(l: Link, plane: Plane) {
    var ledger := LedgerOf(l, plane);
    Balanced(ledger.accepted, ledger.sent, ledger.dropped, Ids(Queue(l, plane)), InFlight(l, plane))
  }

  predicate Straight(accepted: seq<nat>, sent: seq<nat>, queued: seq<nat>, flying: seq<nat>) {
    accepted == sent + flying + queued
  }

  lemma StraightMoves(accepted: seq<nat>, sent: seq<nat>, queued: seq<nat>, flying: seq<nat>, id: nat)
    requires Straight(accepted, sent, queued, flying)
    ensures Straight(accepted + [id], sent, queued + [id], flying)
    ensures queued != [] && flying == [] ==> Straight(accepted, sent, queued[1..], [queued[0]])
    ensures flying == [id] ==> Straight(accepted, sent + [id], queued, [])
  {
  }

  /** As long as no send of the plane failed, messages leave in the order they came. */
  ghost predicate InOrder(l: Link, plane: Plane) {
    var ledger := LedgerOf(l, plane);
    ledger.failures == 0 ==> Straight(ledger.accepted, ledger.sent, Ids(Queue(l, plane)), InFlight(l, plane))
  }

  predicate Homed(l: Link) {
    && (forall m :: m in l.data ==> PlaneOf(m.kind) == Data)
    && (forall m :: m in l.control ==> PlaneOf(m.kind) == Control)
  }

  lemma IdsJoin(a: seq<Message>, b: seq<Message>)
    ensures Ids(a + b) == Ids(a) + Ids(b)
  {
  }

  lemma IdsOne(m: Message)
    ensures Ids([m]) == [m.id]
  {
  }

  lemma IdsHead(queue: seq<Message>)
    requires queue != []
    ensures Ids(queue) == [queue[0].id] + Ids(queue[1..])
  {
  }

  ghost predicate Accounted(l: Link, plane: Plane) {
    Conserved(l, plane) && InOrder(l, plane)
  }

  lemma UntouchedAccounted(l: Link, l': Link, plane: Plane)
    requires Accounted(l, plane) && Queue(l', plane) == Queue(l, plane) && InFlight(l', plane) == InFlight(l, plane)
    requires var was, now := LedgerOf(l, plane), LedgerOf(l', plane);
      (now.accepted, now.sent, now.dropped) == (was.accepted, was.sent, was.dropped) && now.failures >= was.failures
    ensures Accounted(l', plane)
  {
  }

  lemma Moves(l: Link, plane: Plane, id: nat)
    requires Accounted(l, plane)
    ensures var ledger, queued, flying := LedgerOf(l, plane), Ids(Queue(l, plane)), InFlight(l, plane);
      && Balanced(ledger.accepted + [id], ledger.sent, ledger.dropped, queued + [id], flying)
      && (queued != [] && flying == [] ==>
           Balanced(ledger.accepted, ledger.sent, ledger.dropped, queued[1..], [queued[0]]))
      && (flying == [id] ==>
           && Balanced(ledger.accepted, ledger.sent + [id], ledger.dropped, queued, [])
           && Balanced(ledger.accepted, ledger.sent, ledger.dropped + [id], queued, [])
           && Balanced(ledger.accepted, ledger.sent, ledger.dropped, queued + [id], []))
      && (ledger.failures == 0 ==>
           && Straight(ledger.accepted + [id], ledger.sent, queued + [id], flying)
           && (queued != [] && flying == [] ==> Straight(ledger.accepted, ledger.sent, queued[1..], [queued[0]]))
           && (flying == [id] ==> Straight(ledger.accepted, ledger.sent + [id], queued, [])))
  {
    hide Balanced, Straight;
    var ledger := LedgerOf(l, plane);
    BalanceMoves(ledger.accepted, ledger.sent, ledger.dropped, Ids(Queue(l, plane)), InFlight(l, plane), id);
    if ledger.failures == 0 {
      StraightMoves(ledger.accepted, ledger.sent, Ids(Queue(l, plane)), InFlight(l, plane), id);
    }
  }

  lemma AcceptAccounted(c: Config, l: Link, kind: Kind)
    requires Enabled(c, l, Accept(kind)) && Accounted(l, PlaneOf(kind))
    ensures Accounted(After(c, l, Accept(kind)), PlaneOf(kind))
  {
    hide Balanced, Straight, Ids;
    Moves(l, PlaneOf(kind), l.next);
    IdsJoin(Queue(l, PlaneOf(kind)), [Message(l.next, kind, 0)]);
    IdsOne(Message(l.next, kind, 0));
  }

  lemma TakeAccounted(l: Link, plane: Plane)
    requires !l.phase.Sending? && Queue(l, plane) != []
    requires PlaneOf(Queue(l, plane)[0].kind) == plane && Accounted(l, plane)
    ensures Accounted(Take(l, plane), plane)
  {
    hide Balanced, Straight, Ids;
    var queue := Queue(l, plane);
    IdsHead(queue);
    assert Ids(queue)[1..] == Ids(queue[1..]);
    Moves(l, plane, 0);
  }

  lemma SentAccounted(c: Config, l: Link)
    requires l.phase.Sending? && Accounted(l, PlaneOf(l.phase.message.kind))
    ensures Accounted(After(c, l, SendSucceeds), PlaneOf(l.phase.message.kind))
  {
    hide Balanced, Straight, Ids;
    Moves(l, PlaneOf(l.phase.message.kind), l.phase.message.id);
  }

  lemma FailedAccounted(c: Config, l: Link)
    requires l.phase.Sending? && Accounted(l, PlaneOf(l.phase.message.kind))
    ensures Accounted(After(c, l, SendFails), PlaneOf(l.phase.message.kind))
  {
    hide Balanced, Straight, Ids;
    var message := l.phase.message;
    var again := message.(attempts := message.attempts + 1);
    Moves(l, PlaneOf(message.kind), message.id);
    IdsJoin(Queue(l, PlaneOf(message.kind)), [again]);
    IdsOne(again);
  }

  lemma StepKeepsAccounted(c: Config, l: Link, step: Step, plane: Plane)
    requires Enabled(c, l, step) && Accounted(l, Data) && Accounted(l, Control) && Homed(l)
    ensures Accounted(After(c, l, step), plane)
  {
    hide Accounted;
    var l' := After(c, l, step);
    match step
    case Accept(kind) =>
      if PlaneOf(kind) == plane { AcceptAccounted(c, l, kind); } else { UntouchedAccounted(l, l', plane); }
    case Look =>
      if l.control != [] && plane == Control {
        TakeAccounted(l, Control);
      } else {
        UntouchedAccounted(l, l', plane);
      }
    case Pick(p) =>
      if p == plane { TakeAccounted(l, p); } else { UntouchedAccounted(l, l', plane); }
    case SendSucceeds =>
      if PlaneOf(l.phase.message.kind) == plane { SentAccounted(c, l); } else { UntouchedAccounted(l, l', plane); }
    case SendFails =>
      if PlaneOf(l.phase.message.kind) == plane { FailedAccounted(c, l); } else { UntouchedAccounted(l, l', plane); }
    case Refuse(_) => UntouchedAccounted(l, l', plane);
    case StreamEnds => UntouchedAccounted(l, l', plane);
  }

  // ---- counters, bounds and offers ---------------------------------------------------

  predicate CountersAgree(l: Link) {
    && l.metrics.drops == l.metrics.dataDrops + l.metrics.controlDrops
    && l.metrics.dataQueued == |l.dataLedger.accepted|
    && l.metrics.controlQueued == |l.controlLedger.accepted|
    && l.metrics.dataDrops == l.dataLedger.refused + |l.dataLedger.dropped|
    && l.metrics.controlDrops == l.controlLedger.refused + |l.controlLedger.dropped|
    && l.metrics.dataFailures == l.dataLedger.failures
    && l.metrics.controlFailures == l.controlLedger.failures
  }

  lemma StepKeepsCounters(c: Config, l: Link, step: Step)
    requires Enabled(c, l, step) && CountersAgree(l)
    ensures CountersAgree(After(c, l, step))
  {
  }

  ghost predicate Holds(l: Link, m: Message) {
    m in l.data || m in l.control || (l.phase.Sending? && l.phase.message == m)
  }

  /** A message still held has been offered as often as its attempts say. */
  ghost predicate Bounded(c: Config, l: Link) {
    && |l.data| <= c.queueSize && |l.control| <= c.queueSize && Homed(l)
    && (forall m :: Holds(l, m) ==> m.id < l.next && m.attempts <= c.maxSendAttempts && Offers(l, m.id) == m.attempts)
    && (forall id :: Offers(l, id) <= c.maxSendAttempts + 1)
    && (forall id :: id >= l.next ==> Offers(l, id) == 0)
  }

  /** No two held messages share an ID. */
  ghost predicate Distinct(l: Link) {
    && (forall i, j :: 0 <= i < j < |l.data| ==> l.data[i].id != l.data[j].id)
    && (forall i, j :: 0 <= i < j < |l.control| ==> l.control[i].id != l.control[j].id)
    && (forall a, b :: a in l.data && b in l.control ==> a.id != b.id)
    && (l.phase.Sending? ==>
         && (forall m :: m in l.data ==> m.id != l.phase.message.id)
         && (forall m :: m in l.control ==> m.id != l.phase.message.id))
  }

  lemma TakeKeepsBounded(c: Config, l: Link, plane: Plane)
    requires !l.phase.Sending? && Queue(l, plane) != [] && Bounded(c, l) && Distinct(l)
    ensures Bounded(c, Take(l, plane)) && Distinct(Take(l, plane))
  {
    var l', queue := Take(l, plane), Queue(l, plane);
    assert queue[0] in queue && Holds(l, queue[0]);
    forall m | m in queue[1..]
      ensures m in queue && m.id != queue[0].id
    {
      var i :| 0 <= i < |queue[1..]| && queue[1..][i] == m;
      assert queue[i + 1] == m;
    }
    assert forall m :: Holds(l', m) ==> Holds(l, m);
    assert forall id :: Offers(l', id) == Offers(l, id);
  }

  lemma AcceptHolds(c: Config, l: Link, kind: Kind, m: Message)
    requires Enabled(c, l, Accept(kind)) && Holds(After(c, l, Accept(kind)), m)
    ensures Holds(l, m) || m == Message(l.next, kind, 0)
  {
  }

  lemma AcceptKeepsBounded(c: Config, l: Link, kind: Kind)
    requires Enabled(c, l, Accept(kind)) && Bounded(c, l)
    ensures Bounded(c, After(c, l, Accept(kind)))
  {
    var l' := After(c, l, Accept(kind));
    assert forall id :: Offers(l', id) == Offers(l, id);
    forall m | Holds(l', m)
      ensures m.id < l'.next && m.attempts <= c.maxSendAttempts && Offers(l', m.id) == m.attempts
    {
      AcceptHolds(c, l, kind, m);
    }
  }

  lemma AcceptKeepsDistinct(c: Config, l: Link, kind: Kind)
    requires Enabled(c, l, Accept(kind)) && Distinct(l)
    requires forall m :: Holds(l, m) ==> m.id < l.next
    ensures Distinct(After(c, l, Accept(kind)))
  {
    assert forall m :: m in l.data || m in l.control ==> Holds(l, m);
    assert l.phase.Sending? ==> Holds(l, l.phase.message);
  }

  /** Sending is over, one way or the other: the message is gone or back in its queue. */
  lemma OfferKeepsBounded(c: Config, l: Link, l': Link)
    requires l.phase.Sending? && Bounded(c, l) && Distinct(l)
    requires l'.phase.Idle? && l'.next == l.next
    requires var message := l.phase.message; l'.offers == l.offers[message.id := Offers(l, message.id) + 1]
    requires
      var message := l.phase.message;
      var again := message.(attempts := message.attempts + 1);
      || (l'.data, l'.control) == (l.data, l.control)
      || (PlaneOf(message.kind) == Data && (l'.data, l'.control) == (l.data + [again], l.control)
          && again.attempts <= c.maxSendAttempts && |l.data| < c.queueSize)
      || (PlaneOf(message.kind) == Control && (l'.data, l'.control) == (l.data, l.control + [again])
          && again.attempts <= c.maxSendAttempts && |l.control| < c.queueSize)
    ensures Bounded(c, l') && Distinct(l')
  {
    var message := l.phase.message;
    var again := message.(attempts := message.attempts + 1);
    assert Holds(l, message);
    assert forall m :: m in l.data || m in l.control ==> Holds(l, m) && m.id != message.id;
    assert forall id :: Offers(l', id) == if id == message.id then Offers(l, id) + 1 else Offers(l, id);
    forall m | Holds(l', m)
      ensures m.id < l'.next && m.attempts <= c.maxSendAttempts && Offers(l', m.id) == m.attempts
    {
      assert m in l.data || m in l.control || m == again;
    }
  }

  lemma StepKeepsBounded(c: Config, l: Link, step: Step)
    requires Enabled(c, l, step) && Bounded(c, l) && Distinct(l)
    ensures Bounded(c, After(c, l, step)) && Distinct(After(c, l, step))
  {
    var l' := After(c, l, step);
    match step
    case Accept(kind) =>
      AcceptKeepsBounded(c, l, kind);
      AcceptKeepsDistinct(c, l, kind);
    case Look =>
      if l.control != [] {
        TakeKeepsBounded(c, l, Control);
      } else {
        SameHeld(c, l, l');
      }
    case Pick(p) => TakeKeepsBounded(c, l, p);
    case SendSucceeds => OfferKeepsBounded(c, l, l');
    case SendFails => OfferKeepsBounded(c, l, l');
    case Refuse(_) => SameHeld(c, l, l');
    case StreamEnds => SameHeld(c, l, l');
  }

  lemma SameHeld(c: Config, l: Link, l': Link)
    requires Bounded(c, l) && Distinct(l)
    requires (l'.data, l'.control, l'.next, l'.offers) == (l.data, l.control, l.next, l.offers)
    requires l'.phase == l.phase || !l'.phase.Sending?
    ensures Bounded(c, l') && Distinct(l')
  {
    assert forall m :: Holds(l', m) ==> Holds(l, m);
    assert forall id :: Offers(l', id) == Offers(l, id);
  }

  // ---- control first --------------------------------------------------------------------

  /** While the second select waits, the control queue holds exactly the control messages
      accepted since the first one found it empty. */
  ghost predicate ControlFirst(l: Link) {
    l.phase.Waiting? ==>
      && l.phase.controlSoFar <= |l.controlLedger.accepted|
      && Ids(l.control) == l.controlLedger.accepted[l.phase.controlSoFar..]
  }

  lemma StepKeepsControlFirst(c: Config, l: Link, step: Step)
    requires Enabled(c, l, step) && ControlFirst(l)
    ensures ControlFirst(After(c, l, step))
  {
    if step.Accept? {
      IdsJoin(l.control, [Message(l.next, step.kind, 0)]);
    }
  }

  // ---- runs --------------------------------------------------------------------------------

  ghost predicate Inv(c: Config, l: Link) {
    && Accounted(l, Data) && Accounted(l, Control)
    && CountersAgree(l)
    && Bounded(c, l) && Distinct(l)
    && ControlFirst(l)
  }

  lemma InvStart(c: Config)
    ensures Inv(c, NEW_LINK)
  {
  }

  lemma StepKeepsInv(c: Config, l: Link, step: Step)
    requires Enabled(c, l, step) && Inv(c, l)
    ensures Inv(c, After(c, l, step))
  {
    hide Accounted, CountersAgree, Distinct, ControlFirst, After, Enabled;
    StepKeepsAccounted(c, l, step, Data);
    StepKeepsAccounted(c, l, step, Control);
    StepKeepsCounters(c, l, step);
    StepKeepsBounded(c, l, step);
    StepKeepsControlFirst(c, l, step);
  }

  lemma {:induction false} RunKeepsInv(c: Config, l: Link, steps: seq<Step>)
    requires Possible(c, l, steps) && Inv(c, l)
    ensures Inv(c, Ran(c, l, steps))
    decreases |steps|
  {
    if steps != [] {
      StepKeepsInv(c, l, steps[0]);
      RunKeepsInv(c, After(c, l, steps[0]), steps[1..]);
    }
  }

  lemma RunKeepsInvFromStart(c: Config, steps: seq<Step>)
    requires Possible(c, NEW_LINK, steps)
    ensures Inv(c, Ran(c, NEW_LINK, steps))
  {
    InvStart(c);
    RunKeepsInv(c, NEW_LINK, steps);
  }

  /** Over every run: what was accepted is sent, queued, in flight or dropped, and the
      counters say so; no message is offered to a stream more often than allowed. */
  lemma RunConserves(c: Config, steps: seq<Step>)
    requires Possible(c, NEW_LINK, steps)
    ensures var l := Ran(c, NEW_LINK, steps);
      && l.metrics.dataQueued + l.dataLedger.refused
         == |l.dataLedger.sent| + |l.data| + |InFlight(l, Data)| + l.metrics.dataDrops
      && l.metrics.controlQueued + l.controlLedger.refused
         == |l.controlLedger.sent| + |l.control| + |InFlight(l, Control)| + l.metrics.controlDrops
      && l.metrics.drops == l.metrics.dataDrops + l.metrics.controlDrops
      && Conserved(l, Data) && Conserved(l, Control)
      && forall id :: Offers(l, id) <= c.maxSendAttempts + 1
  {
    hide Ran, Possible, Conserved, InOrder, Distinct, ControlFirst;
    RunKeepsInvFromStart(c, steps);
    var l := Ran(c, NEW_LINK, steps);
    ConservedCounts(l, Data);
    ConservedCounts(l, Control);
  }

  lemma ConservedCounts(l: Link, plane: Plane)
    requires Conserved(l, plane)
    ensures var ledger := LedgerOf(l, plane);
      |ledger.accepted| == |ledger.sent| + |ledger.dropped| + |Queue(l, plane)| + |InFlight(l, plane)|
  {
    var ledger := LedgerOf(l, plane);
    assert |multiset(ledger.accepted)| == |multiset(ledger.sent)| + |multiset(ledger.dropped)|
      + |multiset(Ids(Queue(l, plane)))| + |multiset(InFlight(l, plane))|;
  }

  /** A selection that takes a data message began when no control message was queued, and
      the one after it takes a control message if any has arrived since. */
  lemma ControlMessagesGoFirst(c: Config, steps: seq<Step>)
    requires Possible(c, NEW_LINK, steps)
    ensures var l := Ran(c, NEW_LINK, steps);
      && (Enabled(c, l, Pick(Data)) ==>
           && l.phase.controlSoFar <= |l.controlLedger.accepted|
           && Ids(l.control) == l.controlLedger.accepted[l.phase.controlSoFar..])
      && (Enabled(c, l, Look) && l.control != [] ==> After(c, l, Look).phase == Sending(l.control[0]))
  {
    hide Ran, Possible, Conserved, InOrder, Distinct, Bounded, CountersAgree;
    RunKeepsInvFromStart(c, steps);
  }

  /** A plane without failed sends has sent a prefix of what it accepted, in order. */
  lemma PlaneIsFifo(c: Config, steps: seq<Step>, plane: Plane)
    requires Possible(c, NEW_LINK, steps) && LedgerOf(Ran(c, NEW_LINK, steps), plane).failures == 0
    ensures var l := Ran(c, NEW_LINK, steps);
      LedgerOf(l, plane).accepted == LedgerOf(l, plane).sent + InFlight(l, plane) + Ids(Queue(l, plane))
  {
    hide Ran, Possible, Conserved, Distinct, ControlFirst, Bounded, CountersAgree;
    RunKeepsInvFromStart(c, steps);
    assert InOrder(Ran(c, NEW_LINK, steps), plane);
  }

  // ---- by kind of message ---------------------------------------------------------------------

  /** Events wait with events and everything else with the control messages: what accepting
      does to the queues and counters, kind by kind. */
  lemma AcceptPlaces(c: Config, l: Link, kind: Kind)
    ensures Enabled(c, l, Accept(kind)) <==> |if kind == EventKind then l.data else l.control| < c.queueSize
    ensures Enabled(c, l, Accept(kind)) ==>
      var l', message := After(c, l, Accept(kind)), Message(l.next, kind, 0);
      && (kind == EventKind ==>
           && l'.data == l.data + [message] && l'.control == l.control
           && l'.metrics == l.metrics.(dataQueued := l.metrics.dataQueued + 1))
      && (kind in {InterestKind, HeartbeatKind} ==>
           && l'.control == l.control + [message] && l'.data == l.data
           && l'.metrics == l.metrics.(controlQueued := l.metrics.controlQueued + 1))
    ensures
      var l' := After(c, l, Refuse(kind));
      && l'.data == l.data && l'.control == l.control
      && l'.metrics == if kind == EventKind
        then l.metrics.(drops := l.metrics.drops + 1, dataDrops := l.metrics.dataDrops + 1)
        else l.metrics.(drops := l.metrics.drops + 1, controlDrops := l.metrics.controlDrops + 1)
  {
  }

  lemma {:induction false} RanInTwo(c: Config, l: Link, first: seq<Step>, rest: seq<Step>)
    requires Possible(c, l, first + rest)
    ensures Possible(c, l, first) && Possible(c, Ran(c, l, first), rest)
    ensures Ran(c, Ran(c, l, first), rest) == Ran(c, l, first + rest)
    decreases |first|
  {
    if first == [] {
      assert first + rest == rest;
    } else {
      assert (first + rest)[1..] == first[1..] + rest;
      RanInTwo(c, After(c, l, first[0]), first[1..], rest);
    }
  }

  /** Without a new selection an idle loop takes nothing. */
  lemma {:induction false} NothingTakenUnlooked(c: Config, l: Link, steps: seq<Step>)
    requires Possible(c, l, steps) && !l.phase.Waiting? && forall s :: s in steps ==> s != Look
    ensures !Ran(c, l, steps).phase.Waiting?
    decreases |steps|
  {
    if steps != [] {
      assert steps[0] in steps && forall s :: s in steps[1..] ==> s in steps;
      NothingTakenUnlooked(c, After(c, l, steps[0]), steps[1..]);
    }
  }

  /** In every run: when a step takes an event to send, no interest message or heartbeat was
      queued, in either queue, when the selection that takes it began. */
  lemma EventsWaitForControl(c: Config, before: seq<Step>, since: seq<Step>, step: Step)
    requires Possible(c, NEW_LINK, before) && Possible(c, NEW_LINK, before + [Look] + since)
    requires Possible(c, NEW_LINK, before + [Look] + since + [step]) && forall s :: s in since ==> s != Look
    requires !Ran(c, NEW_LINK, before + [Look] + since).phase.Sending?
    requires var taken := Ran(c, NEW_LINK, before + [Look] + since + [step]).phase;
      taken.Sending? && taken.message.kind == EventKind
    ensures var l := Ran(c, NEW_LINK, before);
      forall m :: m in l.data || m in l.control ==> m.kind == EventKind
  {
    hide Inv, Ran, Possible;
    var l0 := Ran(c, NEW_LINK, before);
    RunSplits(c, NEW_LINK, before, since, step);
    RunKeepsInvFromStart(c, before);
    RunKeepsInvFromStart(c, before + [Look] + since);
    var l1, l2 := After(c, l0, Look), Ran(c, NEW_LINK, before + [Look] + since);
    InvHomed(c, l0);
    InvHomed(c, l2);
    if l2.control != [] {
      HeadIsControl(l2);
    }
    if !l1.phase.Waiting? {
      NothingTakenUnlooked(c, l1, since);
    }
  }

  lemma HeadIsControl(l: Link)
    requires Homed(l) && l.control != []
    ensures l.control[0].kind != EventKind
  {
    assert l.control[0] in l.control;
  }

  lemma InvHomed(c: Config, l: Link)
    requires Inv(c, l)
    ensures Homed(l)
  {
  }

  lemma RunSplits(c: Config, start: Link, before: seq<Step>, since: seq<Step>, step: Step)
    requires Possible(c, start, before + [Look] + since + [step])
    ensures Possible(c, start, before) && Possible(c, start, before + [Look] + since)
    ensures var l0, l2 := Ran(c, start, before), Ran(c, start, before + [Look] + since);
      && Enabled(c, l0, Look) && Possible(c, After(c, l0, Look), since) && Ran(c, After(c, l0, Look), since) == l2
      && Enabled(c, l2, step) && After(c, l2, step) == Ran(c, start, before + [Look] + since + [step])
  {
    hide After, Enabled;
    var looked := before + [Look] + since;
    RanInTwo(c, start, looked, [step]);
    assert looked == before + ([Look] + since) && ([Look] + since)[0] == Look && ([Look] + since)[1..] == since;
    RanInTwo(c, start, before, [Look] + since);
    assert [step][0] == step && [step][1..] == [];
  }

  lemma AttemptsAreOffers(c: Config, l: Link)
    requires Inv(c, l) && l.phase.Sending?
    ensures Offers(l, l.phase.message.id) == l.phase.message.attempts
  {
    assert Holds(l, l.phase.message);
  }

  /** In every run, a message whose send fails is given up exactly when it has now been
      offered once more than allowed or its queue is full; otherwise it is last in its queue. */
  lemma FailedIsRetriedExactly(c: Config, steps: seq<Step>)
    requires Possible(c, NEW_LINK, steps) && Ran(c, NEW_LINK, steps).phase.Sending?
    ensures
      var l := Ran(c, NEW_LINK, steps);
      var l', message := After(c, l, SendFails), l.phase.message;
      var spent := Offers(l', message.id) > c.maxSendAttempts;
      && Offers(l', message.id) == Offers(l, message.id) + 1
      && (message.kind == EventKind ==>
           && l'.control == l.control
           && (l'.dataLedger.dropped == l.dataLedger.dropped + [message.id] <==> spent || |l.data| >= c.queueSize)
           && l'.data == if spent || |l.data| >= c.queueSize then l.data
                         else l.data + [message.(attempts := Offers(l', message.id))])
      && (message.kind != EventKind ==>
           && l'.data == l.data
           && (l'.controlLedger.dropped == l.controlLedger.dropped + [message.id] <==>
                spent || |l.control| >= c.queueSize)
           && l'.control == if spent || |l.control| >= c.queueSize then l.control
                            else l.control + [message.(attempts := Offers(l', message.id))])
  {
    hide Inv, Ran, Possible;
    RunKeepsInvFromStart(c, steps);
    AttemptsAreOffers(c, Ran(c, NEW_LINK, steps));
  }

  // ---- draining while every send fails ---------------------------------------------------------

  function Left(c: Config, m: Message): nat {
    if m.attempts <= c.maxSendAttempts then c.maxSendAttempts + 1 - m.attempts else 0
  }

  function TotalLeft(c: Config, queue: seq<Message>): nat {
    if queue == [] then 0 else Left(c, queue[0]) + TotalLeft(c, queue[1..])
  }

  lemma {:induction false} TotalLeftJoin(c: Config, a: seq<Message>, b: seq<Message>)
    ensures TotalLeft(c, a + b) == TotalLeft(c, a) + TotalLeft(c, b)
    decreases |a|
  {
    if a == [] {
      assert a + b == b;
    } else {
      assert (a + b)[1..] == a[1..] + b;
      TotalLeftJoin(c, a[1..], b);
    }
  }

  function StepsLeft(c: Config, l: Link): nat {
    3 * (TotalLeft(c, l.data) + TotalLeft(c, l.control) + if l.phase.Sending? then Left(c, l.phase.message) else 0)
    + match l.phase case Idle => 2 case Waiting(_) => 1 case Sending(_) => 0
  }

  predicate Draining(step: Step) {
    step.Look? || step.Pick? || step.SendFails?
  }

  lemma FailureDecreases(c: Config, l: Link)
    requires l.phase.Sending? && l.phase.message.attempts <= c.maxSendAttempts
    ensures StepsLeft(c, After(c, l, SendFails)) < StepsLeft(c, l)
  {
    hide TotalLeft;
    var message := l.phase.message;
    var again := message.(attempts := message.attempts + 1);
    TotalLeftJoin(c, Queue(l, PlaneOf(message.kind)), [again]);
    TotalLeftOne(c, again);
  }

  lemma TotalLeftOne(c: Config, m: Message)
    ensures TotalLeft(c, [m]) == Left(c, m)
  {
    assert [m][1..] == [];
  }

  lemma DrainStepDecreases(c: Config, l: Link, step: Step)
    requires Enabled(c, l, step) && Bounded(c, l) && Draining(step)
    ensures StepsLeft(c, After(c, l, step)) < StepsLeft(c, l)
  {
    if step.SendFails? {
      assert Holds(l, l.phase.message);
      FailureDecreases(c, l);
    }
  }

  /** With nothing new accepted and every send failing, the loop stops within the bound,
      and it cannot stop before both queues are empty. */
  lemma {:induction false} DrainTerminates(c: Config, l: Link, steps: seq<Step>)
    requires Inv(c, l) && Possible(c, l, steps) && forall s :: s in steps ==> Draining(s)
    ensures |steps| <= StepsLeft(c, l)
    ensures (forall s :: Draining(s) ==> !Enabled(c, Ran(c, l, steps), s)) ==>
      Ran(c, l, steps).data == [] && Ran(c, l, steps).control == [] && !Ran(c, l, steps).phase.Sending?
    decreases |steps|
  {
    if steps == [] {
      assert Draining(Look) && Draining(SendFails) && Draining(Pick(Data)) && Draining(Pick(Control));
    } else {
      DrainStepDecreases(c, l, steps[0]);
      StepKeepsInv(c, l, steps[0]);
      assert forall s :: s in steps[1..] ==> s in steps;
      DrainTerminates(c, After(c, l, steps[0]), steps[1..]);
    }
  }
}
