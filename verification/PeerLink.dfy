/** The peer link's outbound side: bounded queues, counters and the client stream loop. */
module PeerLink {
  import opened Basics
  import opened OutboundQueues

  datatype SendError = ClosedLink | NotConnected | QueueFull

  /** The parts of a link that live in the stream loop or only in its history. The program
      keeps none of this; its messages are objects, told apart here by number. */
  datatype History = History(next: nat, phase: Phase, dataLedger: Ledger, controlLedger: Ledger, offers: map<nat, nat>)

  const NEW_HISTORY := History(0, Idle, NEW_LEDGER, NEW_LEDGER, map[])

  /** What the surroundings answer in one turn of the loop: whether the stream has ended,
      which queue the second select prefers if both are ready, whether the send succeeds. */
  datatype Turn = Turn(ended: bool, prefers: Plane, sends: bool)

  lemma {:induction false} RanOneMore(c: Config, l: Link, steps: seq<Step>, step: Step)
    requires Possible(c, l, steps) && Enabled(c, Ran(c, l, steps), step)
    ensures Possible(c, l, steps + [step]) && Ran(c, l, steps + [step]) == After(c, Ran(c, l, steps), step)
    decreases |steps|
  {
    if steps == [] {
      assert [] + [step] == [step] && [step][1..] == [];
    } else {
      assert (steps + [step])[1..] == steps[1..] + [step];
      RanOneMore(c, After(c, l, steps[0]), steps[1..], step);
    }
  }

  lemma RanOne(c: Config, l: Link, step: Step)
    requires Enabled(c, l, step)
    ensures Possible(c, l, [step]) && Ran(c, l, [step]) == After(c, l, step)
  {
    assert [step][1..] == [];
  }

  lemma {:induction false} RanOn(c: Config, l: Link, steps: seq<Step>, more: seq<Step>)
    requires Possible(c, l, steps) && Possible(c, Ran(c, l, steps), more)
    ensures Possible(c, l, steps + more) && Ran(c, l, steps + more) == Ran(c, Ran(c, l, steps), more)
    decreases |steps|
  {
    if steps == [] {
      assert steps + more == more;
    } else {
      assert (steps + more)[1..] == steps[1..] + more;
      RanOn(c, After(c, l, steps[0]), steps[1..], more);
    }
  }

  function Other(plane: Plane): Plane {
    if plane == Data then Control else Data
  }

  /** What the second select comes to in a turn. */
  function Selected(l: Link, turn: Turn): Step {
    if turn.ended || (l.data == [] && l.control == []) then StreamEnds
    else if Queue(l, turn.prefers) != [] then Pick(turn.prefers)
    else Pick(Other(turn.prefers))
  }

  /** The steps of a whole turn. */
  function TurnSteps(c: Config, l: Link, turn: Turn): seq<Step>
    requires l.phase.Idle?
  {
    var sent := if turn.sends then SendSucceeds else SendFails;
    if l.control != [] then [Look, sent]
    else
      var step := Selected(After(c, l, Look), turn);
      if step == StreamEnds then [Look, StreamEnds] else [Look, step, sent]
  }

  /** The stream was given a message to send, and no other. */
  predicate Offered(before: Link, after: Link, m: Message) {
    after.offers == before.offers[m.id := Offers(before, m.id) + 1]
  }

  /** A turn offers the stream the oldest control message if there is one; failing that the
      oldest event, unless the stream has ended; and otherwise nothing. */
  lemma TurnOffers(c: Config, l: Link, turn: Turn)
    requires l.phase.Idle? && Possible(c, l, TurnSteps(c, l, turn))
    ensures
      var steps := TurnSteps(c, l, turn);
      var l' := Ran(c, l, steps);
      && (l.control != [] ==> Offered(l, l', l.control[0]))
      && (l.control == [] && l.data != [] && !turn.ended ==> Offered(l, l', l.data[0]))
      && (l.control == [] && (l.data == [] || turn.ended) ==> steps == [Look, StreamEnds] && l' == l)
      && (l.control != [] || (l.data != [] && !turn.ended) ==>
           steps[|steps| - 1] == if turn.sends then SendSucceeds else SendFails)
  {
    var steps := TurnSteps(c, l, turn);
    var l1 := After(c, l, Look);
    assert steps[0] == Look && Ran(c, l, steps) == Ran(c, l1, steps[1..]);
    var l2 := After(c, l1, steps[1]);
    assert Ran(c, l1, steps[1..]) == Ran(c, l2, steps[2..]);
    if |steps| == 3 {
      assert steps[2..][0] == steps[2] && steps[2..][1..] == [];
      assert Ran(c, l2, steps[2..]) == After(c, l2, steps[2]);
    }
  }

  /** The steps of the loop: turn after turn, up to the first that does not send. */
  ghost predicate LoopSteps(c: Config, l: Link, turns: seq<Turn>, steps: seq<Step>)
    decreases |turns|
  {
    if turns == [] then steps == []
    else
      l.phase.Idle? &&
      var first := TurnSteps(c, l, turns[0]);
      if first[|first| - 1] == SendSucceeds then
        first <= steps && Possible(c, l, first) && LoopSteps(c, Ran(c, l, first), turns[1..], steps[|first|..])
      else steps == first
  }

  /** Every one of the turns sent its message. */
  ghost predicate AllSent(c: Config, l: Link, turns: seq<Turn>, steps: seq<Step>)
    decreases |turns|
  {
    if turns == [] then steps == []
    else
      l.phase.Idle? &&
      var first := TurnSteps(c, l, turns[0]);
      && first[|first| - 1] == SendSucceeds && first <= steps && Possible(c, l, first)
      && AllSent(c, Ran(c, l, first), turns[1..], steps[|first|..])
  }

  lemma NoTurns(c: Config, l: Link)
    ensures AllSent(c, l, [], [])
  {
  }

  lemma {:induction false} AllSentIsLoop(c: Config, l: Link, turns: seq<Turn>, steps: seq<Step>)
    requires AllSent(c, l, turns, steps)
    ensures LoopSteps(c, l, turns, steps)
    decreases |turns|
  {
    if turns != [] {
      var first := TurnSteps(c, l, turns[0]);
      AllSentIsLoop(c, Ran(c, l, first), turns[1..], steps[|first|..]);
    }
  }

  /** After turns that all sent, one more either sends too or ends the loop. */
  lemma {:induction false} AnotherTurn(c: Config, l: Link, turns: seq<Turn>, i: nat, steps: seq<Step>)
    requires i < |turns| && AllSent(c, l, turns[..i], steps) && Possible(c, l, steps) && Ran(c, l, steps).phase.Idle?
    requires Possible(c, Ran(c, l, steps), TurnSteps(c, Ran(c, l, steps), turns[i]))
    ensures var more := TurnSteps(c, Ran(c, l, steps), turns[i]);
      if more[|more| - 1] == SendSucceeds then AllSent(c, l, turns[..i + 1], steps + more)
      else LoopSteps(c, l, turns, steps + more)
    decreases i
  {
    hide TurnSteps, AllSent, LoopSteps, Possible, Ran;
    var more := TurnSteps(c, Ran(c, l, steps), turns[i]);
    if i == 0 {
      FirstTurn(c, l, turns, steps, more);
    } else {
      var first := FirstOfSent(c, l, turns[..i], steps);
      var rest := steps[|first|..];
      assert turns[..i][0] == turns[0] && turns[..i][1..] == turns[1..][..i - 1];
      assert steps == first + rest;
      RanInTwo(c, l, first, rest);
      AnotherTurn(c, Ran(c, l, first), turns[1..], i - 1, rest);
      assert turns[..i + 1][0] == turns[0] && turns[..i + 1][1..] == turns[1..][..i];
      assert steps + more == first + (rest + more);
      FirstThenRest(c, l, turns[..i + 1], first, rest + more);
      FirstThenRest(c, l, turns, first, rest + more);
    }
  }

  lemma FirstOfSent(c: Config, l: Link, turns: seq<Turn>, steps: seq<Step>) returns (first: seq<Step>)
    requires turns != [] && AllSent(c, l, turns, steps)
    ensures l.phase.Idle? && first == TurnSteps(c, l, turns[0]) && first != [] && first[|first| - 1] == SendSucceeds
    ensures first <= steps && Possible(c, l, first) && AllSent(c, Ran(c, l, first), turns[1..], steps[|first|..])
  {
    first := TurnSteps(c, l, turns[0]);
  }

  lemma FirstThenRest(c: Config, l: Link, turns: seq<Turn>, first: seq<Step>, rest: seq<Step>)
    requires turns != [] && l.phase.Idle? && first == TurnSteps(c, l, turns[0]) && Possible(c, l, first)
    requires first != [] && first[|first| - 1] == SendSucceeds
    ensures AllSent(c, Ran(c, l, first), turns[1..], rest) ==> AllSent(c, l, turns, first + rest)
    ensures LoopSteps(c, Ran(c, l, first), turns[1..], rest) ==> LoopSteps(c, l, turns, first + rest)
  {
    hide TurnSteps, Possible, Ran;
    assert (first + rest)[|first|..] == rest;
  }

  lemma FirstTurn(c: Config, l: Link, turns: seq<Turn>, steps: seq<Step>, more: seq<Step>)
    requires turns != [] && AllSent(c, l, turns[..0], steps) && Possible(c, l, steps) && Ran(c, l, steps).phase.Idle?
    requires more == TurnSteps(c, Ran(c, l, steps), turns[0]) && Possible(c, Ran(c, l, steps), more)
    ensures
      if more[|more| - 1] == SendSucceeds then AllSent(c, l, turns[..1], steps + more)
      else LoopSteps(c, l, turns, steps + more)
  {
    TurnHasSteps(c, l, turns[0]);
    hide TurnSteps, After, Enabled;
    assert turns[..1][0] == turns[0] && turns[..1][1..] == [] && more[|more|..] == [] && steps + more == more;
  }

  lemma TurnHasSteps(c: Config, l: Link, turn: Turn)
    requires l.phase.Idle?
    ensures TurnSteps(c, l, turn) != []
  {
  }

  // ---- what the loop comes to ----------------------------------------------------

  predicate Undisturbed(turns: seq<Turn>) {
    forall i :: 0 <= i < |turns| ==> !turns[i].ended && turns[i].sends
  }

  /** Everything that was queued has been sent, each queue in its order. */
  predicate SentOut(l: Link, end: Link) {
    && end.data == [] && end.control == []
    && end.dataLedger.sent == l.dataLedger.sent + Ids(l.data)
    && end.controlLedger.sent == l.controlLedger.sent + Ids(l.control)
  }

  /** One message went: the oldest control message, or the oldest event if there is none. */
  predicate SentOne(l: Link, l': Link) {
    if l.control != [] then
      && l'.data == l.data && l'.control == l.control[1..] && l'.dataLedger.sent == l.dataLedger.sent
      && l'.controlLedger.sent == l.controlLedger.sent + [l.control[0].id]
    else
      && l.data != [] && l'.data == l.data[1..] && l'.control == []
      && l'.dataLedger.sent == l.dataLedger.sent + [l.data[0].id]
      && l'.controlLedger.sent == l.controlLedger.sent
  }

  /** A turn in which nothing goes wrong sends the message it takes. */
  lemma GoodTurn(c: Config, l: Link, turn: Turn)
    requires l.phase.Idle? && Homed(l) && !turn.ended && turn.sends && Possible(c, l, TurnSteps(c, l, turn))
    ensures
      var steps := TurnSteps(c, l, turn);
      var l' := Ran(c, l, steps);
      && l'.phase.Idle? && Homed(l')
      && (l.control != [] || l.data != [] ==> SentOne(l, l') && steps[|steps| - 1] == SendSucceeds)
      && (l.control == [] && l.data == [] ==> SentOut(l, l') && steps[|steps| - 1] == StreamEnds)
  {
    var steps := TurnSteps(c, l, turn);
    var l1 := After(c, l, Look);
    assert steps[0] == Look && Ran(c, l, steps) == Ran(c, l1, steps[1..]);
    var l2 := After(c, l1, steps[1]);
    assert Ran(c, l1, steps[1..]) == Ran(c, l2, steps[2..]);
    if l.control != [] {
      assert l.control[0] in l.control;
    } else if l.data != [] {
      assert l.data[0] in l.data && steps[2..][0] == steps[2] && steps[2..][1..] == [];
      assert Ran(c, l2, steps[2..]) == After(c, l2, steps[2]);
    }
  }

  lemma SentOneThenOut(l: Link, l': Link, end: Link)
    requires SentOne(l, l') && SentOut(l', end)
    ensures SentOut(l, end)
  {
    hide Ids;
    if l.control != [] {
      IdsHead(l.control);
    } else {
      IdsHead(l.data);
    }
  }

  lemma FewerQueued(l: Link, l': Link)
    requires SentOne(l, l')
    ensures |l'.data| + |l'.control| == |l.data| + |l.control| - 1
  {
  }

  lemma NothingQueued(l: Link)
    requires |l.data| + |l.control| == 0
    ensures SentOut(l, l)
  {
  }

  /** With as many undisturbed turns as there are messages, the loop sends everything that
      was queued, each queue in its order. */
  lemma {:induction false} LoopSendsAll(c: Config, l: Link, turns: seq<Turn>, steps: seq<Step>)
    requires LoopSteps(c, l, turns, steps) && Possible(c, l, steps) && l.phase.Idle? && Homed(l)
    requires Undisturbed(turns) && |turns| >= |l.data| + |l.control|
    ensures SentOut(l, Ran(c, l, steps))
    decreases |turns|
  {
    hide TurnSteps, Ran, Possible, Homed, LoopSteps, SentOut, SentOne;
    if turns == [] {
      RanNothing(c, l);
      NoTurnsNoSteps(c, l, steps);
      NothingQueued(l);
    } else {
      var first, rest := LoopUnfolds(c, l, turns, steps);
      var next := Ran(c, l, first);
      GoodTurn(c, l, turns[0]);
      if l.data != [] || l.control != [] {
        FewerQueued(l, next);
        LoopSendsAll(c, next, turns[1..], rest);
        SentOneThenOut(l, next, Ran(c, l, steps));
      } else {
        RanNothing(c, next);
      }
    }
  }

  lemma NoTurnsNoSteps(c: Config, l: Link, steps: seq<Step>)
    requires LoopSteps(c, l, [], steps)
    ensures steps == []
  {
  }

  lemma LoopUnfolds(c: Config, l: Link, turns: seq<Turn>, steps: seq<Step>) returns (first: seq<Step>, rest: seq<Step>)
    requires LoopSteps(c, l, turns, steps) && Possible(c, l, steps) && turns != []
    ensures l.phase.Idle? && first == TurnSteps(c, l, turns[0]) && first != [] && steps == first + rest
    ensures Possible(c, l, first) && Possible(c, Ran(c, l, first), rest)
    ensures Ran(c, Ran(c, l, first), rest) == Ran(c, l, steps)
    ensures if first[|first| - 1] == SendSucceeds then LoopSteps(c, Ran(c, l, first), turns[1..], rest) else rest == []
  {
    hide TurnSteps, Ran, Possible;
    first := TurnSteps(c, l, turns[0]);
    TurnHasSteps(c, l, turns[0]);
    rest := steps[|first|..];
    assert steps == first + rest;
    RanInTwo(c, l, first, rest);
  }

  /** The loop does not go on after a failed send or the end of the stream. */
  lemma {:induction false} LoopStopsAtFailure(c: Config, l: Link, turns: seq<Turn>, steps: seq<Step>, i: nat)
    requires LoopSteps(c, l, turns, steps) && i + 1 < |steps|
    ensures steps[i] != SendFails && steps[i] != StreamEnds
    decreases |turns|
  {
    var first := TurnSteps(c, l, turns[0]);
    if first[|first| - 1] == SendSucceeds && i >= |first| {
      LoopStopsAtFailure(c, Ran(c, l, first), turns[1..], steps[|first|..], i - |first|);
    }
  }

  // ---- what a step does to the parts that are not history ----------------------

  lemma AcceptShows(c: Config, l: Link, kind: Kind)
    ensures Enabled(c, l, Accept(kind)) <==> |Queue(l, PlaneOf(kind))| < c.queueSize
    ensures Enabled(c, l, Refuse(kind))
    ensures Enabled(c, l, Accept(kind)) ==>
      var l', message := After(c, l, Accept(kind)), Message(l.next, kind, 0);
      && l'.data == (if PlaneOf(kind) == Data then l.data + [message] else l.data)
      && l'.control == (if PlaneOf(kind) == Control then l.control + [message] else l.control)
      && l'.metrics == RecordQueued(l.metrics, PlaneOf(kind)) && l'.next == l.next + 1
    ensures
      var l' := After(c, l, Refuse(kind));
      (l'.data, l'.control, l'.metrics, l'.next) == (l.data, l.control, RecordDrop(l.metrics, PlaneOf(kind)), l.next)
  {
  }

  lemma LookShows(c: Config, l: Link)
    requires l.phase.Idle?
    ensures Enabled(c, l, Look)
    ensures var l' := After(c, l, Look);
      && l'.data == l.data && l'.metrics == l.metrics && l'.next == l.next
      && (l.control != [] ==> l'.phase == Sending(l.control[0]) && l'.control == l.control[1..])
      && (l.control == [] ==> l'.phase.Waiting? && l'.control == [])
  {
  }

  lemma PickShows(c: Config, l: Link)
    requires l.phase.Waiting?
    ensures Enabled(c, l, StreamEnds) && After(c, l, StreamEnds) == l.(phase := Idle)
    ensures Enabled(c, l, Pick(Data)) <==> l.data != []
    ensures Enabled(c, l, Pick(Control)) <==> l.control != []
    ensures l.data != [] ==>
      var l' := After(c, l, Pick(Data));
      && (l'.data, l'.control, l'.metrics, l'.next) == (l.data[1..], l.control, l.metrics, l.next)
      && l'.phase == Sending(l.data[0])
    ensures l.control != [] ==>
      var l' := After(c, l, Pick(Control));
      && (l'.data, l'.control, l'.metrics, l'.next) == (l.data, l.control[1..], l.metrics, l.next)
      && l'.phase == Sending(l.control[0])
  {
  }

  lemma RanNothing(c: Config, l: Link)
    ensures Possible(c, l, []) && Ran(c, l, []) == l
  {
  }

  lemma SendShows(c: Config, l: Link)
    requires l.phase.Sending?
    ensures Enabled(c, l, SendSucceeds) && Enabled(c, l, SendFails)
    ensures After(c, l, SendSucceeds).phase.Idle? && After(c, l, SendFails).phase.Idle?
    ensures var l' := After(c, l, SendSucceeds);
      (l'.data, l'.control, l'.metrics, l'.next) == (l.data, l.control, l.metrics, l.next)
    ensures
      var l', message := After(c, l, SendFails), l.phase.message;
      var plane := PlaneOf(message.kind);
      var again := message.(attempts := message.attempts + 1);
      var requeued := again.attempts <= c.maxSendAttempts && |Queue(l, plane)| < c.queueSize;
      && l'.data == (if requeued && plane == Data then l.data + [again] else l.data)
      && l'.control == (if requeued && plane == Control then l.control + [again] else l.control)
      && l'.metrics == (if requeued then RecordFailure(l.metrics, plane)
          else RecordDrop(RecordFailure(l.metrics, plane), plane))
      && l'.next == l.next
  {
  }

  function HistoryOf(l: Link): History {
    History(l.next, l.phase, l.dataLedger, l.controlLedger, l.offers)
  }

  ghost function Assembled(data: map<Text, seq<Message>>, control: map<Text, seq<Message>>, metrics: map<Text, Metrics>,
                           histories: map<Text, History>): map<Text, Link>
    requires data.Keys == control.Keys == metrics.Keys == histories.Keys
  {
    map p | p in metrics ::
      var h := histories[p];
      Link(data[p], control[p], h.phase, metrics[p], h.next, h.dataLedger, h.controlLedger, h.offers)
  }

  lemma OneLinkChanges(data: map<Text, seq<Message>>, control: map<Text, seq<Message>>, metrics: map<Text, Metrics>,
                       histories: map<Text, History>, peer: Text, l: Link)
    requires data.Keys == control.Keys == metrics.Keys == histories.Keys
    ensures Assembled(data[peer := l.data], control[peer := l.control], metrics[peer := l.metrics],
                      histories[peer := HistoryOf(l)])
         == Assembled(data, control, metrics, histories)[peer := l]
    ensures peer in metrics ==>
      var was := Assembled(data, control, metrics, histories)[peer];
      && (data[peer], control[peer], metrics[peer]) == (was.data, was.control, was.metrics)
      && HistoryOf(was) == histories[peer]
  {
  }

  lemma SameValue<K, V>(m: map<K, V>, k: K)
    requires k in m
    ensures m[k := m[k]] == m
  {
  }

  lemma TwoUpdates<K, V>(m: map<K, V>, k: K, v: V, w: V)
    ensures m[k := v][k := w] == m[k := w]
  {
  }

  class GRPCPeerLink {
    const config: Config
    var closed: bool
    var sendQueues: map<Text, seq<Message>>
    var controlQueues: map<Text, seq<Message>>
    var metrics: map<Text, Metrics>
    ghost var histories: map<Text, History>

    ghost predicate Valid()
      reads this
    {
      sendQueues.Keys == controlQueues.Keys == metrics.Keys == histories.Keys
    }

    /** The link to each registered peer. */
    ghost function Links(): (links: map<Text, Link>)
      requires Valid()
      reads this
      ensures links.Keys == metrics.Keys
    {
      Assembled(sendQueues, controlQueues, metrics, histories)
    }

    lemma LinkShows(peer: Text)
      requires Valid() && peer in metrics
      ensures var l := Links()[peer];
        (l.data, l.control, l.metrics) == (sendQueues[peer], controlQueues[peer], metrics[peer])
    {
    }

    constructor (config: Config)
      ensures Valid() && this.config == config && !closed && Links() == map[]
    {
      this.config := config;
      closed, sendQueues, controlQueues, metrics, histories := false, map[], map[], map[], map[];
    }

    method RegisterPeer(peer: Text)
      requires Valid()
      modifies this
      ensures Valid() && closed == old(closed)
      ensures Links() == if peer in old(Links()) then old(Links()) else old(Links())[peer := NEW_LINK]
    {
      if peer !in metrics {
        OneLinkChanges(sendQueues, controlQueues, metrics, histories, peer, NEW_LINK);
      }
      if peer !in sendQueues {
        sendQueues := sendQueues[peer := []];
      }
      if peer !in controlQueues {
        controlQueues := controlQueues[peer := []];
      }
      if peer !in metrics {
        metrics, histories := metrics[peer := NO_METRICS], histories[peer := NEW_HISTORY];
      }
    }

    // ---- counters ------------------------------------------------------------

    method RecordPlaneQueued(peer: Text, plane: Plane)
      modifies this`metrics
      ensures metrics == if peer in old(metrics) then old(metrics)[peer := RecordQueued(old(metrics)[peer], plane)]
        else old(metrics)
    {
      if peer in metrics {
        match plane {
          case Data => metrics := metrics[peer := metrics[peer].(dataQueued := metrics[peer].dataQueued + 1)];
          case Control => metrics := metrics[peer := metrics[peer].(controlQueued := metrics[peer].controlQueued + 1)];
        }
      }
    }

    method RecordPlaneDrop(peer: Text, plane: Plane)
      modifies this`metrics
      ensures metrics == if peer in old(metrics) then old(metrics)[peer := RecordDrop(old(metrics)[peer], plane)]
        else old(metrics)
    {
      if peer in metrics {
        metrics := metrics[peer := metrics[peer].(drops := metrics[peer].drops + 1)];
        match plane {
          case Data => metrics := metrics[peer := metrics[peer].(dataDrops := metrics[peer].dataDrops + 1)];
          case Control => metrics := metrics[peer := metrics[peer].(controlDrops := metrics[peer].controlDrops + 1)];
        }
      }
    }

    method RecordPlaneSendFailure(peer: Text, plane: Plane)
      modifies this`metrics
      ensures metrics ==
        if peer in old(metrics) then old(metrics)[peer := RecordFailure(old(metrics)[peer], plane)] else old(metrics)
    {
      if peer in metrics {
        match plane {
          case Data => metrics := metrics[peer := metrics[peer].(dataFailures := metrics[peer].dataFailures + 1)];
          case Control =>
            metrics := metrics[peer := metrics[peer].(controlFailures := metrics[peer].controlFailures + 1)];
        }
      }
    }

    // ---- accepting ---------------------------------------------------------------

    method SetQueue(peer: Text, plane: Plane, queue: seq<Message>)
      requires Valid() && peer in metrics
      modifies this`sendQueues, this`controlQueues
      ensures Valid()
      ensures sendQueues == if plane == Data then old(sendQueues)[peer := queue] else old(sendQueues)
      ensures controlQueues == if plane == Control then old(controlQueues)[peer := queue] else old(controlQueues)
    {
      if plane == Data {
        sendQueues := sendQueues[peer := queue];
      } else {
        controlQueues := controlQueues[peer := queue];
      }
    }

    /** SendEvent, sendInterestMessage and SendHeartbeat. A full queue makes the wait
        expire; with room the wait expires only if its context is done first. The id is
        the identity of the message object made for the call. */
    method Send(peer: Text, id: nat, kind: Kind, expired: bool) returns (error: Option<SendError>)
      requires Valid() && (peer in Links() ==> id == Links()[peer].next)
      modifies this
      ensures Valid() && closed == old(closed)
      ensures
        if closed then error == Some(ClosedLink) && Links() == old(Links())
        else if peer !in old(Links()) then error == Some(NotConnected) && Links() == old(Links())
        else
          var before := old(Links())[peer];
          && error == (if Enabled(config, before, Accept(kind)) && !expired then None else Some(QueueFull))
          && Links() == old(Links())[peer := After(config, before, if error == None then Accept(kind)
              else Refuse(kind))]
      ensures error == None <==>
        && !closed && peer in old(sendQueues) && peer in old(controlQueues) && !expired
        && |if kind == EventKind then old(sendQueues)[peer] else old(controlQueues)[peer]| < config.queueSize
      ensures error == None && kind == EventKind ==>
        && sendQueues == old(sendQueues)[peer := old(sendQueues)[peer] + [Message(id, EventKind, 0)]]
        && controlQueues == old(controlQueues) && peer in old(metrics)
        && metrics == old(metrics)[peer := old(metrics)[peer].(dataQueued := old(metrics)[peer].dataQueued + 1)]
      ensures error == None && kind in {InterestKind, HeartbeatKind} ==>
        && controlQueues == old(controlQueues)[peer := old(controlQueues)[peer] + [Message(id, kind, 0)]]
        && sendQueues == old(sendQueues) && peer in old(metrics)
        && metrics == old(metrics)[peer := old(metrics)[peer].(controlQueued := old(metrics)[peer].controlQueued + 1)]
      ensures error.Some? ==> sendQueues == old(sendQueues) && controlQueues == old(controlQueues)
      ensures error.Some? && error != Some(QueueFull) ==> metrics == old(metrics)
      ensures error == Some(QueueFull) ==>
        && peer in old(metrics)
        && var m := old(metrics)[peer];
           metrics == old(metrics)[peer :=
             if kind == EventKind then m.(drops := m.drops + 1, dataDrops := m.dataDrops + 1)
             else m.(drops := m.drops + 1, controlDrops := m.controlDrops + 1)]
    {
      hide After, Enabled, RecordQueued, RecordDrop, Links, PlaneOf;
      if closed {
        return Some(ClosedLink);
      }
      if peer !in controlQueues || peer !in sendQueues {
        return Some(NotConnected);
      }
      var accepted := Offer(peer, id, kind, expired);
      return if accepted then None else Some(QueueFull);
    }

    /** The select of a sender: room in the queue or the end of the wait. */
    method Offer(peer: Text, id: nat, kind: Kind, expired: bool) returns (accepted: bool)
      requires Valid() && peer in Links() && id == Links()[peer].next
      modifies this
      ensures Valid() && closed == old(closed)
      ensures var before := old(Links())[peer];
        && accepted == (Enabled(config, before, Accept(kind)) && !expired)
        && Links() == old(Links())[peer := After(config, before, if accepted then Accept(kind) else Refuse(kind))]
      ensures accepted <==>
        !expired && |if kind == EventKind then old(sendQueues)[peer] else old(controlQueues)[peer]| < config.queueSize
      ensures accepted && kind == EventKind ==>
        && sendQueues == old(sendQueues)[peer := old(sendQueues)[peer] + [Message(id, kind, 0)]]
        && controlQueues == old(controlQueues)
        && metrics == old(metrics)[peer := old(metrics)[peer].(dataQueued := old(metrics)[peer].dataQueued + 1)]
      ensures accepted && kind != EventKind ==>
        && controlQueues == old(controlQueues)[peer := old(controlQueues)[peer] + [Message(id, kind, 0)]]
        && sendQueues == old(sendQueues)
        && metrics == old(metrics)[peer := old(metrics)[peer].(controlQueued := old(metrics)[peer].controlQueued + 1)]
      ensures !accepted ==>
        && sendQueues == old(sendQueues) && controlQueues == old(controlQueues)
        && var m := old(metrics)[peer];
           metrics == old(metrics)[peer :=
             if kind == EventKind then m.(drops := m.drops + 1, dataDrops := m.dataDrops + 1)
             else m.(drops := m.drops + 1, controlDrops := m.controlDrops + 1)]
    {
      hide After, Enabled, RecordQueued, RecordDrop, Links, PlaneOf;
      var queue := if kind == EventKind then sendQueues[peer] else controlQueues[peer];
      AcceptPlaces(config, Links()[peer], kind);
      LinkShows(peer);
      if |queue| < config.queueSize && !expired {
        Accepted(peer, id, kind, queue);
        return true;
      } else {
        Refused(peer, kind);
        return false;
      }
    }

    method Accepted(peer: Text, id: nat, kind: Kind, queue: seq<Message>)
      requires Valid() && peer in Links() && id == Links()[peer].next
      requires queue == (if kind == EventKind then sendQueues[peer] else controlQueues[peer])
      requires |queue| < config.queueSize
      modifies this
      ensures Valid() && closed == old(closed)
      ensures Enabled(config, old(Links())[peer], Accept(kind))
      ensures Links() == old(Links())[peer := After(config, old(Links())[peer], Accept(kind))]
      ensures var message := Message(id, kind, 0);
        if kind == EventKind then
          && sendQueues == old(sendQueues)[peer := old(sendQueues)[peer] + [message]]
          && controlQueues == old(controlQueues)
          && metrics == old(metrics)[peer := old(metrics)[peer].(dataQueued := old(metrics)[peer].dataQueued + 1)]
        else
          && controlQueues == old(controlQueues)[peer := old(controlQueues)[peer] + [message]]
          && sendQueues == old(sendQueues)
          && metrics == old(metrics)[peer := old(metrics)[peer].(controlQueued := old(metrics)[peer].controlQueued + 1)]
    {
      hide After, Enabled, Assembled;
      ghost var before := Links()[peer];
      AcceptPlaces(config, before, kind);
      OneLinkChanges(sendQueues, controlQueues, metrics, histories, peer, before);
      ghost var after := After(config, before, Accept(kind));
      OneLinkChanges(sendQueues, controlQueues, metrics, histories, peer, after);
      SameValue(sendQueues, peer);
      SameValue(controlQueues, peer);
      if kind == EventKind {
        sendQueues := sendQueues[peer := queue + [Message(id, kind, 0)]];
        RecordPlaneQueued(peer, Data);
      } else {
        controlQueues := controlQueues[peer := queue + [Message(id, kind, 0)]];
        RecordPlaneQueued(peer, Control);
      }
      histories := histories[peer := HistoryOf(after)];
    }

    method Refused(peer: Text, kind: Kind)
      requires Valid() && peer in Links()
      modifies this`metrics, this`histories
      ensures Valid() && Links() == old(Links())[peer := After(config, old(Links())[peer], Refuse(kind))]
      ensures
        var m := old(metrics)[peer];
        metrics == old(metrics)[peer :=
          if kind == EventKind then m.(drops := m.drops + 1, dataDrops := m.dataDrops + 1)
          else m.(drops := m.drops + 1, controlDrops := m.controlDrops + 1)]
    {
      hide After, Enabled, RecordQueued, RecordDrop, Assembled;
      AcceptShows(config, Links()[peer], kind);
      AcceptPlaces(config, Links()[peer], kind);
      ghost var after := After(config, Links()[peer], Refuse(kind));
      OneLinkChanges(sendQueues, controlQueues, metrics, histories, peer, after);
      SameValue(sendQueues, peer);
      SameValue(controlQueues, peer);
      RecordPlaneDrop(peer, PlaneOf(kind));
      histories := histories[peer := HistoryOf(after)];
    }

    // ---- selecting -----------------------------------------------------------------

    /** The non-blocking select on the control queue. */
    method FirstSelect(peer: Text) returns (queued: Option<Message>)
      requires Valid() && peer in metrics && Links()[peer].phase.Idle?
      modifies this
      ensures Valid() && closed == old(closed)
      ensures Links() == old(Links())[peer := After(config, old(Links())[peer], Look)]
      ensures queued == if Links()[peer].phase.Sending? then Some(Links()[peer].phase.message) else None
    {
      hide After, Enabled, Assembled;
      ghost var before := Links()[peer];
      LookShows(config, before);
      ghost var after := After(config, before, Look);
      OneLinkChanges(sendQueues, controlQueues, metrics, histories, peer, after);
      SameValue(sendQueues, peer);
      SameValue(controlQueues, peer);
      SameValue(metrics, peer);
      histories := histories[peer := HistoryOf(after)];
      var control := controlQueues[peer];
      if control != [] {
        queued := Some(control[0]);
        SetQueue(peer, Control, control[1..]);
      } else {
        queued := None;
      }
    }

    /** The blocking select: the end of the stream, a control or a data message. With
        nothing ready it waits for one of them, in the end for the stream's end. */
    method SecondSelect(peer: Text, turn: Turn) returns (queued: Option<Message>, ghost step: Step)
      requires Valid() && peer in metrics && Links()[peer].phase.Waiting?
      modifies this
      ensures Valid() && closed == old(closed)
      ensures step == Selected(old(Links())[peer], turn)
      ensures Enabled(config, old(Links())[peer], step)
      ensures Links() == old(Links())[peer := After(config, old(Links())[peer], step)]
      ensures var before := old(Links())[peer];
        && (queued == None <==> turn.ended || (before.data == [] && before.control == []))
        && (queued.Some? ==>
             || (before.data != [] && queued.value == before.data[0])
             || (before.control != [] && queued.value == before.control[0]))
      ensures step == StreamEnds ==> queued == None && Links()[peer].phase.Idle?
      ensures step != StreamEnds ==> queued.Some? && Links()[peer].phase == Sending(queued.value)
    {
      hide After, Enabled, Assembled;
      ghost var before := Links()[peer];
      PickShows(config, before);
      OneLinkChanges(sendQueues, controlQueues, metrics, histories, peer, before);
      SameValue(sendQueues, peer);
      SameValue(controlQueues, peer);
      SameValue(metrics, peer);
      var preferred := if turn.prefers == Data then sendQueues[peer] else controlQueues[peer];
      var plane := if preferred != [] then turn.prefers else if turn.prefers == Data then Control else Data;
      var queue := if plane == Data then sendQueues[peer] else controlQueues[peer];
      if turn.ended || queue == [] {
        step := StreamEnds;
      } else {
        step := Pick(plane);
      }
      OneLinkChanges(sendQueues, controlQueues, metrics, histories, peer, After(config, before, step));
      histories := histories[peer := HistoryOf(After(config, before, step))];
      if turn.ended || queue == [] {
        queued := None;
      } else {
        queued := Some(queue[0]);
        SetQueue(peer, plane, queue[1..]);
      }
    }

    // ---- sending --------------------------------------------------------------------

    method DropFailedMessage(peer: Text, message: Message)
      modifies this`metrics
      ensures metrics ==
        if peer in old(metrics) then old(metrics)[peer := RecordDrop(old(metrics)[peer], PlaneOf(message.kind))]
            else old(metrics)
    {
      RecordPlaneDrop(peer, PlaneOf(message.kind));
    }

    /** Requeues a failed message behind its queue unless it has used up its attempts or
        the queue is full; then it is dropped and counted. */
    method HandleSendFailure(peer: Text, message: Message)
      requires Valid() && peer in metrics && Links()[peer].phase == Sending(message)
      modifies this
      ensures Valid() && closed == old(closed)
      ensures Links() == old(Links())[peer := After(config, old(Links())[peer], SendFails)]
    {
      hide After, Enabled, RecordFailure, RecordDrop, Assembled;
      ghost var before := Links()[peer];
      SendShows(config, before);
      ghost var after := After(config, before, SendFails);
      OneLinkChanges(sendQueues, controlQueues, metrics, histories, peer, after);
      SameValue(sendQueues, peer);
      SameValue(controlQueues, peer);
      histories := histories[peer := HistoryOf(after)];
      var plane := PlaneOf(message.kind);
      RecordPlaneSendFailure(peer, plane);
      var again := message.(attempts := message.attempts + 1);
      var queue := if plane == Data then sendQueues[peer] else controlQueues[peer];
      if again.attempts > config.maxSendAttempts {
        DropFailedMessage(peer, message);
      } else if |queue| < config.queueSize {
        SetQueue(peer, plane, queue + [again]);
      } else {
        DropFailedMessage(peer, message);
      }
      TwoUpdates(old(metrics), peer, RecordFailure(before.metrics, plane), after.metrics);
      assert metrics == old(metrics)[peer := after.metrics];
      assert sendQueues == old(sendQueues)[peer := after.data];
      assert controlQueues == old(controlQueues)[peer := after.control];
    }

    /** The send went through: nothing changes but the history. */
    ghost method NoteSent(peer: Text)
      requires Valid() && peer in metrics && Links()[peer].phase.Sending?
      modifies this`histories
      ensures Valid() && Links() == old(Links())[peer := After(config, old(Links())[peer], SendSucceeds)]
    {
      hide After, Enabled, Assembled;
      ghost var before := Links()[peer];
      SendShows(config, before);
      var after := After(config, before, SendSucceeds);
      OneLinkChanges(sendQueues, controlQueues, metrics, histories, peer, after);
      SameValue(sendQueues, peer);
      SameValue(controlQueues, peer);
      SameValue(metrics, peer);
      histories := histories[peer := HistoryOf(after)];
    }

    /** One turn of the loop: two selects at most, and the send. */
    method TakeTurn(peer: Text, turn: Turn) returns (goOn: bool)
      requires Valid() && peer in metrics && Links()[peer].phase.Idle?
      modifies this
      ensures Valid() && closed == old(closed)
      ensures var before := old(Links())[peer];
        var steps := TurnSteps(config, before, turn);
        && Possible(config, before, steps)
        && Links() == old(Links())[peer := Ran(config, before, steps)]
        && (goOn <==> steps[|steps| - 1] == SendSucceeds)
      ensures peer in metrics && Links()[peer].phase.Idle?
      ensures var before, after := old(Links())[peer], Links()[peer];
        && (before.control != [] ==> Offered(before, after, before.control[0]) && goOn == turn.sends)
        && (before.control == [] && before.data != [] && !turn.ended ==>
             Offered(before, after, before.data[0]) && goOn == turn.sends)
        && (before.control == [] && (before.data == [] || turn.ended) ==> after == before && !goOn)
    {
      hide After, Enabled, Assembled, Ran, Possible, Valid, Links, Selected, Offered;
      ghost var start := Links()[peer];
      LookShows(config, start);
      RanOne(config, start, Look);
      ghost var steps := [Look];
      var queued := FirstSelect(peer);
      if queued == None {
        ghost var step;
        queued, step := SecondSelect(peer, turn);
        RanOneMore(config, start, steps, step);
        steps := steps + [step];
        if queued == None {
          assert steps == TurnSteps(config, start, turn);
          TurnOffers(config, start, turn);
          return false;
        }
      }
      SendShows(config, Links()[peer]);
      ghost var sent := if turn.sends then SendSucceeds else SendFails;
      RanOneMore(config, start, steps, sent);
      if turn.sends {
        NoteSent(peer);
      } else {
        HandleSendFailure(peer, queued.value);
      }
      assert steps + [sent] == TurnSteps(config, start, turn);
      TurnOffers(config, start, turn);
      return turn.sends;
    }

    /** One turn after another until a send fails or the stream ends. */
    method RunBidirectionalStreamLoop(peer: Text, turns: seq<Turn>) returns (ghost steps: seq<Step>)
      requires Valid() && peer in metrics && Links()[peer].phase.Idle? && Inv(config, Links()[peer])
      modifies this
      ensures Valid() && closed == old(closed)
      ensures LoopSteps(config, old(Links())[peer], turns, steps)
      ensures Possible(config, old(Links())[peer], steps)
      ensures Links() == old(Links())[peer := Ran(config, old(Links())[peer], steps)]
      ensures Inv(config, Links()[peer]) && Links()[peer].phase.Idle?
    {
      hide After, Inv, Enabled, Assembled, Ran, Possible, Valid, Links, TurnSteps, LoopSteps;
      ghost var start := Links()[peer];
      steps := [];
      RanNothing(config, start);
      SameValue(Links(), peer);
      NoTurns(config, start);
      for i := 0 to |turns|
        invariant Valid() && closed == old(closed) && peer in metrics && Links()[peer].phase.Idle?
        invariant Possible(config, start, steps) && Links() == old(Links())[peer := Ran(config, start, steps)]
        invariant AllSent(config, start, turns[..i], steps)
      {
        ghost var more := TurnSteps(config, Links()[peer], turns[i]);
        var goOn := TakeTurn(peer, turns[i]);
        RanOn(config, start, steps, more);
        AnotherTurn(config, start, turns, i, steps);
        steps := steps + more;
        if !goOn {
          RunKeepsInv(config, start, steps);
          return;
        }
      }
      assert turns[..|turns|] == turns;
      AllSentIsLoop(config, start, turns, steps);
      RunKeepsInv(config, start, steps);
    }
  }
}
