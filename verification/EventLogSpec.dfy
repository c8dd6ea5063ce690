/** The event log as its interface promises it: a sequence of events per topic. */
module EventLogSpec {
  import opened Basics

  datatype Event = Event(offset: int64, topic: Text, payload: Bytes, timestamp: int, headers: map<Text, Text>)

  datatype LogError =
    | Cancelled | EmptyTopic | NilEvent | NegativeOffset | NegativeMaxCount
    | ClosedLog | OffsetOverflow | EncodeFailed | CorruptValue | SliceBoundsPanic

  type Outcome<T> = Result<T, LogError>

  datatype Statistics = Statistics(totalEvents: int, topicCounts: map<Text, int>, topicCount: nat)

  // The k-th check of a context fails once it is done: after that many checks, or never.
  datatype Context = Context(doneAfter: Option<nat>) {
    predicate Done(check: nat) {
      doneAfter.Some? && check >= doneAfter.value
    }
  }

  const BACKGROUND := Context(None)

  type Log = map<Text, seq<Event>>

  function Events(log: Log, topic: Text): seq<Event> {
    if topic in log then log[topic] else []
  }

  function EndOffset(log: Log, topic: Text): nat {
    |Events(log, topic)|
  }

  function Append(log: Log, topic: Text, e: Event): Log {
    log[topic := Events(log, topic) + [e]]
  }

  function Min(a: int, b: int): int {
    if a < b then a else b
  }

  /** The events at offsets start .. start + max of a topic, as many as there are. */
  function Slice(log: Log, topic: Text, start: nat, max: nat): seq<Event> {
    var events := Events(log, topic);
    var from := Min(start, |events|);
    events[from..Min(from + max, |events|)]
  }

  function From(log: Log, topic: Text, start: nat): seq<Event> {
    Events(log, topic)[Min(start, EndOffset(log, topic))..]
  }

  /** Reading one more event lengthens the slice by the next offset, until the end. */
  lemma SliceGrows(log: Log, topic: Text, start: nat, k: nat)
    ensures start + k < EndOffset(log, topic) ==>
      Slice(log, topic, start, k + 1) == Slice(log, topic, start, k) + [Events(log, topic)[start + k]]
    ensures start + k >= EndOffset(log, topic) ==>
      Slice(log, topic, start, k) == From(log, topic, start)
    ensures |Slice(log, topic, start, k)| <= k
    ensures start + k <= EndOffset(log, topic) ==> |Slice(log, topic, start, k)| == k
    ensures Slice(log, topic, start, 0) == []
  {
  }

  /** A slice that reached the end is the slice for any larger limit. */
  lemma SliceEnds(log: Log, topic: Text, start: nat, k: nat, max: nat)
    requires k <= max && start + k >= EndOffset(log, topic)
    ensures Slice(log, topic, start, max) == Slice(log, topic, start, k)
  {
  }

  lemma SlicePrefix(log: Log, topic: Text, start: nat, k: nat)
    ensures Slice(log, topic, start, k) <= From(log, topic, start)
  {
  }

  function TopicCounts(log: Log): map<Text, int> {
    map t | t in log :: |log[t]|
  }

  ghost function TotalOver(log: Log, topics: set<Text>): nat
    requires topics <= log.Keys
  {
    if topics == {} then 0
    else
      var t :| t in topics;
      |log[t]| + TotalOver(log, topics - {t})
  }

  ghost function TotalEvents(log: Log): nat {
    TotalOver(log, log.Keys)
  }

  /** The total does not depend on the order topics are counted in. */
  lemma {:induction false} TotalTakesAny(log: Log, topics: set<Text>, t: Text)
    requires topics <= log.Keys && t in topics
    ensures TotalOver(log, topics) == |log[t]| + TotalOver(log, topics - {t})
    decreases topics
  {
    var u :| u in topics && TotalOver(log, topics) == |log[u]| + TotalOver(log, topics - {u});
    if u != t {
      TotalTakesAny(log, topics - {u}, t);
      TotalTakesAny(log, topics - {t}, u);
      assert topics - {u} - {t} == topics - {t} - {u};
    }
  }

  /** An append adds one event to the total and to its topic, and nothing elsewhere. */
  lemma AppendCountsOne(log: Log, topic: Text, e: Event)
    ensures TotalEvents(Append(log, topic, e)) == TotalEvents(log) + 1
    ensures TopicCounts(Append(log, topic, e)) == TopicCounts(log)[topic := EndOffset(log, topic) + 1]
  {
    var after := Append(log, topic, e);
    TotalTakesAny(after, after.Keys, topic);
    TotalUnaffected(log, after, log.Keys - {topic});
    assert after.Keys - {topic} == log.Keys - {topic};
    if topic in log {
      TotalTakesAny(log, log.Keys, topic);
    } else {
      assert log.Keys - {topic} == log.Keys;
    }
  }

  lemma {:induction false} TotalUnaffected(a: Log, b: Log, topics: set<Text>)
    requires topics <= a.Keys && topics <= b.Keys
    requires forall t :: t in topics ==> |a[t]| == |b[t]|
    ensures TotalOver(a, topics) == TotalOver(b, topics)
    decreases topics
  {
    if topics != {} {
      var t :| t in topics;
      TotalTakesAny(a, topics, t);
      TotalTakesAny(b, topics, t);
      TotalUnaffected(a, b, topics - {t});
    }
  }

  ghost function CountsOf(log: Log, topics: set<Text>): map<Text, int>
    requires topics <= log.Keys
  {
    map t | t in topics :: |log[t]|
  }

  ghost function WrappedTotal(log: Log, topics: set<Text>): int64
    requires topics <= log.Keys
  {
    Wrap64(TotalOver(log, topics))
  }

  lemma NothingTallied(log: Log)
    ensures WrappedTotal(log, {}) == 0 && WrappedTotal(log, log.Keys) == Wrap64(TotalEvents(log))
  {
  }

  lemma CountsStep(log: Log, topics: set<Text>, t: Text)
    requires topics <= log.Keys && t in log
    ensures CountsOf(log, topics + {t}) == CountsOf(log, topics)[t := |log[t]|]
  {
  }

  lemma CountsStart(log: Log)
    ensures CountsOf(log, {}) == map[] && CountsOf(log, log.Keys) == TopicCounts(log)
  {
  }

  /** Counting one more topic into the running int64 sum. */
  lemma TallyStep(log: Log, topics: set<Text>, t: Text)
    requires topics <= log.Keys && t in log && t !in topics
    ensures WrappedTotal(log, topics + {t}) == Wrap64(WrappedTotal(log, topics) + |log[t]|)
    ensures WrappedTotal(log, topics + {t}) == Wrap64(WrappedTotal(log, topics) + Wrap64(|log[t]|))
  {
    TotalTakesAny(log, topics + {t}, t);
    assert topics + {t} - {t} == topics;
    WrapOfWrappedSum(TotalOver(log, topics), |log[t]|);
    WrapOfWrappedSum(|log[t]|, Wrap64(TotalOver(log, topics)));
  }

  lemma SameKeysSameSize<K, V, W>(a: map<K, V>, b: map<K, W>)
    requires a.Keys == b.Keys
    ensures |a| == |b|
  {
    assert |a| == |a.Keys| && |b| == |b.Keys|;
  }

  // ---- operations and their answers on each backend ----------------------

  datatype Op =
    | AppendEvent(topic: Text, event: Option<Event>)
    | ReadEvents(topic: Text, start: int64, max: int64)
    | ReplayEvents(topic: Text, start: int64)
    | GetTopicEndOffset(topic: Text)
    | GetStatistics
    | Close

  datatype Answer =
    | Appended(event: Outcome<Event>)
    | Batch(events: Outcome<seq<Event>>)
    | Offset(offset: Outcome<int64>)
    | Stats(stats: Outcome<Statistics>)
    | Ok

  datatype State = State(log: Log, closed: bool)

  /** Every topic still has an int64 offset to give out. */
  predicate RoomEverywhere(log: Log) {
    forall t :: t in log ==> |log[t]| <= MAX_INT64
  }

  ghost function CountedStatistics(log: Log): Statistics {
    Statistics(Wrap64(TotalEvents(log)), TopicCounts(log), |log|)
  }

  function ReadGuard(topic: Text, start: int, max: int, closed: bool): Option<LogError> {
    if topic == [] then Some(EmptyTopic)
    else if start < 0 then Some(NegativeOffset)
    else if max < 0 then Some(NegativeMaxCount)
    else if closed then Some(ClosedLog)
    else None
  }

  function AppendGuard(topic: Text, event: Option<Event>, closed: bool): Option<LogError> {
    if topic == [] then Some(EmptyTopic)
    else if event == None then Some(NilEvent)
    else if closed then Some(ClosedLog)
    else None
  }
}
