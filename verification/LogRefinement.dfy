/** The two event logs compared, operation by operation and over whole runs. */
module LogRefinement {
  import opened Basics
  import opened EventLogSpec
  import P = PebbleEventLog
  import M = InMemoryEventLog

  /** What a caller can check beforehand to know that the backend does not matter. */
  ghost predicate BackendsAgreeOn(codec: P.Codec, s: State, op: Op) {
    match op
    case AppendEvent(topic, event) =>
      AppendGuard(topic, event, s.closed).None? ==>
        && EndOffset(s.log, topic) <= MAX_INT64
        && codec.encode(event.value.(offset := EndOffset(s.log, topic))).Some?
    case ReadEvents(topic, start, max) =>
      ReadGuard(topic, start, max, s.closed).None? ==>
        start >= EndOffset(s.log, topic) || start + max <= MAX_INT64
    case GetTopicEndOffset(topic) =>
      topic == [] || s.closed || EndOffset(s.log, topic) <= MAX_INT64
    case GetStatistics =>
      s.closed || RoomEverywhere(s.log)
    case ReplayEvents(_, _) => true
    case Close => true
  }

  /** One operation: equal answers exactly under that condition, and then equal logs. */
  lemma AnswersAgreeExactly(codec: P.Codec, s: State, op: Op)
    ensures P.Answers(codec, s, op) == M.Answers(s, op) <==> BackendsAgreeOn(codec, s, op)
    ensures BackendsAgreeOn(codec, s, op) ==> P.Next(codec, s, op) == M.Next(s, op)
  {
    hide Slice, From, CountedStatistics;
    if op == Op.GetStatistics && RoomEverywhere(s.log) {
      assert M.WrappedCounts(s.log) == TopicCounts(s.log);
      StatisticsSpelledOut(s.log);
    }
  }

  lemma StatisticsSpelledOut(log: Log)
    ensures CountedStatistics(log) == Statistics(Wrap64(TotalEvents(log)), TopicCounts(log), |log|)
  {
  }

  ghost function PebbleRun(codec: P.Codec, s: State, ops: seq<Op>): (seq<Answer>, State)
    decreases |ops|
  {
    if ops == [] then ([], s)
    else
      var (answers, end) := PebbleRun(codec, P.Next(codec, s, ops[0]), ops[1..]);
      ([P.Answers(codec, s, ops[0])] + answers, end)
  }

  ghost function MemoryRun(s: State, ops: seq<Op>): (seq<Answer>, State)
    decreases |ops|
  {
    if ops == [] then ([], s)
    else
      var (answers, end) := MemoryRun(M.Next(s, ops[0]), ops[1..]);
      ([M.Answers(s, ops[0])] + answers, end)
  }

  ghost predicate BackendsAgreeAlong(codec: P.Codec, s: State, ops: seq<Op>)
    decreases |ops|
  {
    ops != [] ==> BackendsAgreeOn(codec, s, ops[0]) && BackendsAgreeAlong(codec, M.Next(s, ops[0]), ops[1..])
  }

  /** A whole run: the two logs answer alike throughout exactly when every step qualifies. */
  lemma {:induction false} RunsAgreeExactly(codec: P.Codec, s: State, ops: seq<Op>)
    ensures PebbleRun(codec, s, ops).0 == MemoryRun(s, ops).0 <==> BackendsAgreeAlong(codec, s, ops)
    ensures BackendsAgreeAlong(codec, s, ops) ==> PebbleRun(codec, s, ops) == MemoryRun(s, ops)
    decreases |ops|
  {
    hide P.Answers, M.Answers, P.Next, M.Next, BackendsAgreeOn;
    if ops != [] {
      var p, m := PebbleRun(codec, s, ops).0, MemoryRun(s, ops).0;
      AnswersAgreeExactly(codec, s, ops[0]);
      assert p[0] == P.Answers(codec, s, ops[0]) && m[0] == M.Answers(s, ops[0]);
      if BackendsAgreeOn(codec, s, ops[0]) {
        RunsAgreeExactly(codec, M.Next(s, ops[0]), ops[1..]);
        assert p[1..] == PebbleRun(codec, P.Next(codec, s, ops[0]), ops[1..]).0;
        assert m[1..] == MemoryRun(M.Next(s, ops[0]), ops[1..]).0;
      }
    }
  }

  // ---- laws of every run of the durable log --------------------------------

  ghost function Appends(answers: seq<Answer>): nat {
    if answers == [] then 0
    else Appends(answers[1..]) + if answers[0].Appended? && answers[0].event.Success? then 1 else 0
  }

  /** Events are conserved: the log grows by the acknowledged appends and nothing else. */
  lemma {:induction false} RunConservesEvents(codec: P.Codec, s: State, ops: seq<Op>)
    ensures TotalEvents(PebbleRun(codec, s, ops).1.log)
         == TotalEvents(s.log) + Appends(PebbleRun(codec, s, ops).0)
    decreases |ops|
  {
    if ops != [] {
      var next := P.Next(codec, s, ops[0]);
      RunConservesEvents(codec, next, ops[1..]);
      var answers := PebbleRun(codec, s, ops).0;
      assert answers[1..] == PebbleRun(codec, next, ops[1..]).0;
      if ops[0].AppendEvent? {
        var r := P.AppendAnswer(codec, s, ops[0].topic, ops[0].event);
        if r.Success? {
          AppendCountsOne(s.log, ops[0].topic, r.value);
        }
      }
    }
  }

  /** The counter of a topic stops at 2^63: an offset beyond int64 is never given out. */
  lemma {:induction false} OffsetsNeverWrap(codec: P.Codec, s: State, ops: seq<Op>, topic: Text)
    requires EndOffset(s.log, topic) <= TWO_TO_THE_63
    ensures EndOffset(s.log, topic) <= EndOffset(PebbleRun(codec, s, ops).1.log, topic) <= TWO_TO_THE_63
    decreases |ops|
  {
    if ops != [] {
      OffsetsNeverWrap(codec, P.Next(codec, s, ops[0]), ops[1..], topic);
    }
  }

  /** Once full, a topic refuses every further append and end-offset read. */
  lemma FullTopicRefuses(codec: P.Codec, s: State, ops: seq<Op>, topic: Text, event: Event)
    requires topic != [] && EndOffset(s.log, topic) == TWO_TO_THE_63
    ensures var later := PebbleRun(codec, s, ops).1;
      && P.Answers(codec, later, AppendEvent(topic, Some(event))).event in {Failure(OffsetOverflow), Failure(ClosedLog)}
      && P.Answers(codec, later, GetTopicEndOffset(topic)).offset in {Failure(OffsetOverflow), Failure(ClosedLog)}
  {
    OffsetsNeverWrap(codec, s, ops, topic);
  }

  // ---- what the answers mean ------------------------------------------------

  /** When an append is acknowledged, and what it stores: the given event with nothing but
      its offset filled in, behind everything the topic held. */
  lemma AppendMeans(codec: P.Codec, s: State, topic: Text, event: Option<Event>)
    ensures
      var n := EndOffset(s.log, topic);
      var op := AppendEvent(topic, event);
      var r, log' := P.Answers(codec, s, op).event, P.Next(codec, s, op).log;
      && (r.Success? <==>
           && topic != [] && event.Some? && !s.closed && n <= MAX_INT64
           && codec.encode(event.value.(offset := n)).Some?)
      && (r.Success? ==>
           && r.value == event.value.(offset := n)
           && Events(log', topic) == Events(s.log, topic) + [r.value]
           && (forall t :: t != topic ==> Events(log', t) == Events(s.log, t)))
      && (r.Failure? ==> log' == s.log)
      && (r == Failure(EmptyTopic) <==> topic == [])
      && (r == Failure(NilEvent) <==> topic != [] && event == None)
      && (r == Failure(ClosedLog) <==> topic != [] && event.Some? && s.closed)
      && (r == Failure(OffsetOverflow) <==> topic != [] && event.Some? && !s.closed && n > MAX_INT64)
    ensures
      var r, log' := M.Answers(s, AppendEvent(topic, event)).event, M.Next(s, AppendEvent(topic, event)).log;
      && (r.Success? <==> topic != [] && event.Some? && !s.closed)
      && (r.Success? ==>
           && r.value == event.value.(offset := Wrap64(EndOffset(s.log, topic)))
           && Events(log', topic) == Events(s.log, topic) + [r.value]
           && (forall t :: t != topic ==> Events(log', t) == Events(s.log, t)))
      && (r.Failure? ==> log' == s.log)
      && (r == Failure(EmptyTopic) <==> topic == [])
      && (r == Failure(NilEvent) <==> topic != [] && event == None)
  {
  }

  /** When a read is answered, and with what: the events at the offsets asked for, as many
      as there are. */
  lemma ReadMeans(codec: P.Codec, s: State, topic: Text, start: int64, max: int64)
    ensures
      var r := P.Answers(codec, s, ReadEvents(topic, start, max)).events;
      && (r.Success? <==> topic != [] && start >= 0 && max >= 0 && !s.closed)
      && (r.Success? ==>
           && |r.value| == (if start >= EndOffset(s.log, topic) then 0 else Min(max, EndOffset(s.log, topic) - start))
           && forall i :: 0 <= i < |r.value| ==> r.value[i] == Events(s.log, topic)[start + i])
      && (r == Failure(EmptyTopic) <==> topic == [])
      && (r == Failure(NegativeOffset) <==> topic != [] && start < 0)
      && (r == Failure(NegativeMaxCount) <==> topic != [] && start >= 0 && max < 0)
    ensures
      var r := P.Answers(codec, s, ReplayEvents(topic, start)).events;
      && (r.Success? <==> topic != [] && start >= 0 && !s.closed)
      && (r.Success? ==>
           && |r.value| == (if start >= EndOffset(s.log, topic) then 0 else EndOffset(s.log, topic) - start)
           && forall i :: 0 <= i < |r.value| ==> r.value[i] == Events(s.log, topic)[start + i])
    ensures
      var r := P.Answers(codec, s, GetTopicEndOffset(topic)).offset;
      && (r.Success? <==> topic != [] && !s.closed && EndOffset(s.log, topic) <= MAX_INT64)
      && (r.Success? ==> r.value == EndOffset(s.log, topic))
  {
  }

  /** The statistics are those of the stored events. */
  lemma StatisticsMean(codec: P.Codec, s: State)
    ensures
      var r := P.Answers(codec, s, Op.GetStatistics).stats;
      && (r.Success? <==> !s.closed && forall t :: t in s.log ==> |s.log[t]| <= MAX_INT64)
      && (r.Success? ==>
           && r.value.topicCounts.Keys == s.log.Keys && r.value.topicCount == |s.log.Keys|
           && (forall t :: t in s.log ==> r.value.topicCounts[t] == |s.log[t]|)
           && (TotalEvents(s.log) <= MAX_INT64 ==> r.value.totalEvents == TotalEvents(s.log)))
  {
    hide TotalEvents;
  }

  lemma {:induction false} LogGrows(codec: P.Codec, s: State, ops: seq<Op>, topic: Text)
    ensures Events(s.log, topic) <= Events(PebbleRun(codec, s, ops).1.log, topic)
    decreases |ops|
  {
    if ops != [] {
      LogGrows(codec, P.Next(codec, s, ops[0]), ops[1..], topic);
      assert Events(s.log, topic) <= Events(P.Next(codec, s, ops[0]).log, topic);
    }
  }

  /** An acknowledged event can be read back, at the offset it was given and unchanged, after
      any further operations, as long as the log is open. */
  lemma AppendedIsReadBack(codec: P.Codec, s: State, topic: Text, event: Event, ops: seq<Op>, max: int64)
    requires P.Answers(codec, s, AppendEvent(topic, Some(event))).event.Success? && max > 0
    ensures
      var e := P.Answers(codec, s, AppendEvent(topic, Some(event))).event.value;
      var later := PebbleRun(codec, P.Next(codec, s, AppendEvent(topic, Some(event))), ops).1;
      !later.closed ==>
        var r := P.Answers(codec, later, ReadEvents(topic, e.offset, max)).events;
        && r.Success? && r.value != [] && r.value[0] == e
        && (e.topic, e.payload, e.timestamp, e.headers) == (event.topic, event.payload, event.timestamp, event.headers)
  {
    var next := P.Next(codec, s, AppendEvent(topic, Some(event)));
    var e := P.Answers(codec, s, AppendEvent(topic, Some(event))).event.value;
    AppendMeans(codec, s, topic, Some(event));
    LogGrows(codec, next, ops, topic);
    var later := PebbleRun(codec, next, ops).1;
    ReadMeans(codec, later, topic, e.offset, max);
    hide P.Answers, P.Next, PebbleRun;
    assert Events(later.log, topic)[e.offset] == Events(next.log, topic)[e.offset] == e;
  }

  // ---- the same for the objects ---------------------------------------------

  predicate ShortTopic(op: Op) {
    match op
    case AppendEvent(topic, _) => |topic| < TWO_TO_THE_32
    case ReadEvents(topic, _, _) => |topic| < TWO_TO_THE_32
    case ReplayEvents(topic, _) => |topic| < TWO_TO_THE_32
    case _ => true
  }

  method PebbleDo(log: P.PebbleEventLog, op: Op) returns (answer: Answer)
    requires log.Valid() && ShortTopic(op)
    modifies log, log.db
    ensures log.Valid()
    ensures answer == P.Answers(log.codec, old(log.View()), op)
    ensures log.View() == P.Next(log.codec, old(log.View()), op)
  {
    match op {
      case AppendEvent(topic, event) =>
        var r := log.AppendEvent(BACKGROUND, topic, event);
        answer := Appended(r);
      case ReadEvents(topic, start, max) =>
        var r := log.ReadEvents(BACKGROUND, topic, start, max);
        answer := Batch(r);
      case ReplayEvents(topic, start) =>
        var sent, error := log.ReplayEvents(BACKGROUND, topic, start);
        answer := Batch(if error.Some? then Failure(error.value) else Success(sent));
      case GetTopicEndOffset(topic) =>
        var r := log.GetTopicEndOffset(BACKGROUND, topic);
        answer := Offset(r);
      case GetStatistics =>
        var r := log.GetStatistics(BACKGROUND);
        answer := Stats(r);
      case Close =>
        log.Close();
        answer := Ok;
    }
  }

  method MemoryDo(log: M.InMemoryEventLog, op: Op) returns (answer: Answer)
    requires log.Valid()
    modifies log
    ensures log.Valid()
    ensures answer == M.Answers(old(log.View()), op)
    ensures log.View() == M.Next(old(log.View()), op)
  {
    match op {
      case AppendEvent(topic, event) =>
        var r := log.AppendEvent(BACKGROUND, topic, event);
        answer := Appended(r);
      case ReadEvents(topic, start, max) =>
        var r := log.ReadEvents(BACKGROUND, topic, start, max);
        answer := Batch(r);
      case ReplayEvents(topic, start) =>
        var sent, error := log.ReplayEvents(BACKGROUND, topic, start);
        answer := Batch(if error.Some? then Failure(error.value) else Success(sent));
      case GetTopicEndOffset(topic) =>
        var r := log.GetTopicEndOffset(BACKGROUND, topic);
        answer := Offset(r);
      case GetStatistics =>
        var r := log.GetStatistics(BACKGROUND);
        answer := Stats(r);
      case Close =>
        log.Close();
        answer := Ok;
    }
  }

  method DrivePebble(log: P.PebbleEventLog, ops: seq<Op>) returns (answers: seq<Answer>)
    requires log.Valid() && forall op :: op in ops ==> ShortTopic(op)
    modifies log, log.db
    ensures log.Valid()
    ensures answers == PebbleRun(log.codec, old(log.View()), ops).0
    ensures log.View() == PebbleRun(log.codec, old(log.View()), ops).1
  {
    hide P.Answers, P.Next, P.Represents;
    answers := [];
    ghost var start := log.View();
    var i := 0;
    while i < |ops|
      invariant 0 <= i <= |ops| && log.Valid()
      invariant PebbleRun(log.codec, start, ops).0 == answers + PebbleRun(log.codec, log.View(), ops[i..]).0
      invariant PebbleRun(log.codec, start, ops).1 == PebbleRun(log.codec, log.View(), ops[i..]).1
    {
      assert ops[i] in ops && ops[i..][1..] == ops[i + 1..];
      var answer := PebbleDo(log, ops[i]);
      answers := answers + [answer];
      i := i + 1;
    }
    assert ops[i..] == [];
  }

  method DriveMemory(log: M.InMemoryEventLog, ops: seq<Op>) returns (answers: seq<Answer>)
    requires log.Valid()
    modifies log
    ensures log.Valid()
    ensures answers == MemoryRun(old(log.View()), ops).0
    ensures log.View() == MemoryRun(old(log.View()), ops).1
  {
    hide M.Answers, M.Next, M.Numbered;
    answers := [];
    ghost var start := log.View();
    var i := 0;
    while i < |ops|
      invariant 0 <= i <= |ops| && log.Valid()
      invariant MemoryRun(start, ops).0 == answers + MemoryRun(log.View(), ops[i..]).0
      invariant MemoryRun(start, ops).1 == MemoryRun(log.View(), ops[i..]).1
    {
      assert ops[i..][1..] == ops[i + 1..];
      var answer := MemoryDo(log, ops[i]);
      answers := answers + [answer];
      i := i + 1;
    }
    assert ops[i..] == [];
  }

  /** Fresh logs driven through one sequence of operations: the answers are the same
      sequence exactly when every step qualifies. */
  method DriveBoth(codec: P.Codec, ops: seq<Op>) returns (durable: seq<Answer>, volatile: seq<Answer>)
    requires codec.Faithful() && forall op :: op in ops ==> ShortTopic(op)
    ensures durable == volatile <==> BackendsAgreeAlong(codec, State(map[], false), ops)
  {
    hide P.Answers, M.Answers, P.Next, M.Next;
    var p := new P.PebbleEventLog(codec);
    durable := DrivePebble(p, ops);
    var m := new M.InMemoryEventLog();
    volatile := DriveMemory(m, ops);
    RunsAgreeExactly(codec, State(map[], false), ops);
  }
}
