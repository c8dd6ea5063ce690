/** The default event log: a slice of events and an int64 counter per topic. */
module InMemoryEventLog {
  import opened Basics
  import opened EventLogSpec

  /** What the log holds after its appends: every event keeps the int64 it was given. */
  ghost predicate Numbered(log: Log) {
    && (forall t :: t in log ==> log[t] != [])
    && (forall t, i :: t in log && 0 <= i < |log[t]| ==> log[t][i].offset == Wrap64(i))
  }

  function AppendAnswer(s: State, topic: Text, event: Option<Event>): Outcome<Event> {
    match AppendGuard(topic, event, s.closed)
    case Some(error) => Failure(error)
    case None => Success(event.value.(offset := Wrap64(EndOffset(s.log, topic))))
  }

  ghost function Answers(s: State, op: Op): Answer {
    match op
    case AppendEvent(topic, event) => Appended(AppendAnswer(s, topic, event))
    case ReadEvents(topic, start, max) =>
      Batch(match ReadGuard(topic, start, max, s.closed)
            case Some(error) => Failure(error)
            case None =>
              // startIdx + maxCount wraps; a negative end is not a slice bound
              if start < EndOffset(s.log, topic) && start + max > MAX_INT64 then Failure(SliceBoundsPanic)
              else Success(Slice(s.log, topic, start, max)))
    case ReplayEvents(topic, start) =>
      Batch(match ReadGuard(topic, start, 0, s.closed)
            case Some(error) => Failure(error)
            case None => Success(From(s.log, topic, start)))
    case GetTopicEndOffset(topic) =>
      Offset(if topic == [] then Failure(EmptyTopic)
             else if s.closed then Failure(ClosedLog)
             else Success(Wrap64(EndOffset(s.log, topic))))
    case GetStatistics =>
      Stats(if s.closed then Failure(ClosedLog)
            else Success(Statistics(Wrap64(TotalEvents(s.log)), WrappedCounts(s.log), |s.log|)))
    case Close => Ok
  }

  function WrappedCounts(log: Log): map<Text, int> {
    map t | t in log :: Wrap64(|log[t]|)
  }

  ghost function Next(s: State, op: Op): State {
    match op
    case AppendEvent(topic, event) =>
      var answer := AppendAnswer(s, topic, event);
      if answer.Success? then s.(log := Append(s.log, topic, answer.value)) else s
    case Close => s.(closed := true)
    case _ => s
  }

  lemma AppendNumbered(log: Log, topic: Text, e: Event)
    requires Numbered(log) && e.offset == Wrap64(EndOffset(log, topic))
    ensures Numbered(Append(log, topic, e))
  {
    hide Wrap64;
  }

  method Count(eventsByTopic: map<Text, seq<Event>>) returns (counts: map<Text, int>, total: int64)
    ensures counts == WrappedCounts(eventsByTopic) && |counts| == |eventsByTopic|
    ensures total == Wrap64(TotalEvents(eventsByTopic))
  {
    hide Wrap64, WrappedTotal;
    total, counts := 0, map[];
    NothingTallied(eventsByTopic);
    ghost var counted: set<Text> := {};
    var rest := eventsByTopic.Keys;
    while rest != {}
      invariant counted <= eventsByTopic.Keys && rest == eventsByTopic.Keys - counted
      invariant counts == map t | t in counted :: Wrap64(|eventsByTopic[t]|)
      invariant total == WrappedTotal(eventsByTopic, counted)
      decreases rest
    {
      var topic :| topic in rest;
      TallyStep(eventsByTopic, counted, topic);
      rest, counted := rest - {topic}, counted + {topic};
      counts := counts[topic := Wrap64(|eventsByTopic[topic]|)];
      total := Wrap64(total + Wrap64(|eventsByTopic[topic]|));
    }
    assert counted == eventsByTopic.Keys;
    SameKeysSameSize(counts, eventsByTopic);
  }

  class InMemoryEventLog {
    var eventsByTopic: map<Text, seq<Event>>
    var nextOffsetByTopic: map<Text, int64>
    var closed: bool

    ghost predicate Valid()
      reads this
    {
      && Numbered(eventsByTopic)
      && nextOffsetByTopic.Keys == eventsByTopic.Keys
      && forall t :: t in eventsByTopic ==> nextOffsetByTopic[t] == Wrap64(|eventsByTopic[t]|)
    }

    ghost function View(): State
      reads this
    {
      State(eventsByTopic, closed)
    }

    constructor ()
      ensures Valid() && View() == State(map[], false)
    {
      eventsByTopic, nextOffsetByTopic, closed := map[], map[], false;
    }

    method AppendEvent(ctx: Context, topic: Text, event: Option<Event>) returns (r: Outcome<Event>)
      requires Valid()
      modifies this
      ensures Valid()
      ensures ctx.Done(0) ==> r == Failure(Cancelled) && View() == old(View())
      ensures !ctx.Done(0) ==>
        && Appended(r) == Answers(old(View()), Op.AppendEvent(topic, event))
        && View() == Next(old(View()), Op.AppendEvent(topic, event))
    {
      hide Wrap64, Numbered;
      if ctx.Done(0) {
        return Failure(Cancelled);
      }
      if topic == [] {
        return Failure(EmptyTopic);
      }
      if event == None {
        return Failure(NilEvent);
      }
      if closed {
        return Failure(ClosedLog);
      }
      var nextOffset: int64 := if topic in nextOffsetByTopic then nextOffsetByTopic[topic] else 0;
      WrapOfWrappedSum(EndOffset(eventsByTopic, topic), 1);
      nextOffsetByTopic := nextOffsetByTopic[topic := Wrap64(nextOffset + 1)];
      var eventWithOffset := event.value.(offset := nextOffset);
      AppendNumbered(eventsByTopic, topic, eventWithOffset);
      eventsByTopic := eventsByTopic[topic := Events(eventsByTopic, topic) + [eventWithOffset]];
      return Success(eventWithOffset);
    }

    method ReadEvents(ctx: Context, topic: Text, start: int64, max: int64) returns (r: Outcome<seq<Event>>)
      requires Valid()
      ensures ctx.Done(0) ==> r == Failure(Cancelled)
      ensures !ctx.Done(0) ==> Batch(r) == Answers(View(), Op.ReadEvents(topic, start, max))
    {
      if ctx.Done(0) {
        return Failure(Cancelled);
      }
      if topic == [] {
        return Failure(EmptyTopic);
      }
      if start < 0 {
        return Failure(NegativeOffset);
      }
      if max < 0 {
        return Failure(NegativeMaxCount);
      }
      if closed {
        return Failure(ClosedLog);
      }
      var events := Events(eventsByTopic, topic);
      if events == [] || start >= |events| {
        assert Slice(eventsByTopic, topic, start, max) == [];
        return Success([]);
      }
      var endIdx := Wrap64(start + max);
      if endIdx > |events| {
        endIdx := |events|;
      }
      if endIdx < start {
        return Failure(SliceBoundsPanic);
      }
      return Success(events[start..endIdx]);
    }

    method GetTopicEndOffset(ctx: Context, topic: Text) returns (r: Outcome<int64>)
      requires Valid()
      ensures ctx.Done(0) ==> r == Failure(Cancelled)
      ensures !ctx.Done(0) ==> Offset(r) == Answers(View(), Op.GetTopicEndOffset(topic))
    {
      if ctx.Done(0) {
        return Failure(Cancelled);
      }
      if topic == [] {
        return Failure(EmptyTopic);
      }
      if closed {
        return Failure(ClosedLog);
      }
      return Success(if topic in nextOffsetByTopic then nextOffsetByTopic[topic] else 0);
    }

    method ReplayEvents(ctx: Context, topic: Text, start: int64) returns (sent: seq<Event>, error: Option<LogError>)
      requires Valid()
      ensures ctx.Done(0) ==> sent == [] && error == Some(Cancelled)
      ensures error == None ==> Batch(Success(sent)) == Answers(View(), Op.ReplayEvents(topic, start))
      ensures error.Some? && error.value != Cancelled ==>
        sent == [] && Batch(Failure(error.value)) == Answers(View(), Op.ReplayEvents(topic, start))
      ensures error == Some(Cancelled) ==>
        ctx.doneAfter.Some? && (start >= 0 ==> sent <= From(eventsByTopic, topic, start))
    {
      if ctx.Done(0) {
        return [], Some(Cancelled);
      }
      if topic == [] {
        return [], Some(EmptyTopic);
      }
      if start < 0 {
        return [], Some(NegativeOffset);
      }
      if closed {
        return [], Some(ClosedLog);
      }
      var events := Events(eventsByTopic, topic);
      sent, error := [], None;
      if events == [] || start >= |events| {
        assert From(eventsByTopic, topic, start) == [];
        return;
      }
      var i := start;
      while i < |events|
        invariant start <= i <= |events| && error == None
        invariant sent == events[start..i]
      {
        if ctx.Done(1 + i - start) {
          assert From(eventsByTopic, topic, start)[..i - start] == sent;
          return sent, Some(Cancelled);
        }
        sent := sent + [events[i]];
        i := i + 1;
      }
      assert sent == From(eventsByTopic, topic, start);
    }

    method GetStatistics(ctx: Context) returns (r: Outcome<Statistics>)
      requires Valid()
      ensures ctx.Done(0) ==> r == Failure(Cancelled)
      ensures !ctx.Done(0) ==> Stats(r) == Answers(View(), Op.GetStatistics)
    {
      if ctx.Done(0) {
        return Failure(Cancelled);
      }
      if closed {
        return Failure(ClosedLog);
      }
      var counts, total := Count(eventsByTopic);
      return Success(Statistics(total, counts, |counts|));
    }

    method Close()
      requires Valid()
      modifies this
      ensures Valid() && View() == Next(old(View()), Op.Close)
    {
      closed := true;
    }
  }
}
