/** The durable event log: many topics in one byte-ordered key space. */
module PebbleEventLog {
  import opened Basics
  import opened ByteOrder
  import opened PebbleKeys
  import opened KeyValueStore
  import opened EventLogSpec

  /** The stored-event encoding. It may refuse an event, as marshalling does. */
  datatype Codec = Codec(encode: Event -> Option<Bytes>, decode: Bytes -> Option<Event>) {
    ghost predicate Faithful() {
      forall e :: encode(e).Some? ==> decode(encode(e).value) == Some(e)
    }
  }

  // ---- the coupling between stored keys and the log they stand for --------

  /** A non-empty run of events per topic, event i carrying offset i. */
  ghost predicate WellFormed(log: Log) {
    && (forall t :: t in log ==> t != [] && |t| < TWO_TO_THE_32 && 0 < |log[t]| <= TWO_TO_THE_63)
    && (forall t, i :: t in log && 0 <= i < |log[t]| ==> log[t][i].offset == i)
  }

  ghost predicate IsEventKey(key: Bytes, topic: Text, n: nat)
    requires n <= TWO_TO_THE_63
  {
    exists i :: 0 <= i < n && key == EventKey(topic, i)
  }

  ghost predicate KeyStandsFor(log: Log, key: Bytes)
    requires WellFormed(log)
  {
    exists t :: t in log && (key == OffsetKey(t) || IsEventKey(key, t, |log[t]|))
  }

  ghost predicate StoresTopic(codec: Codec, entries: Entries, topic: Text, events: seq<Event>)
    requires |events| <= TWO_TO_THE_63
  {
    && OffsetKey(topic) in entries
    && entries[OffsetKey(topic)] == EncodeOffset(|events|)
    && forall i :: 0 <= i < |events| ==>
         && EventKey(topic, i) in entries
         && codec.decode(entries[EventKey(topic, i)]) == Some(events[i])
  }

  ghost predicate Represents(codec: Codec, entries: Entries, log: Log) {
    && WellFormed(log)
    && (forall t :: t in log ==> StoresTopic(codec, entries, t, log[t]))
    && (forall k :: k in entries ==> KeyStandsFor(log, k))
  }

  /** The key space determines the log: nothing about it is left to choice. */
  lemma RepresentationUnique(codec: Codec, entries: Entries, a: Log, b: Log)
    requires Represents(codec, entries, a) && Represents(codec, entries, b)
    ensures a == b
  {
    hide Represents;
    forall t | t in a
      ensures t in b && a[t] == b[t]
    {
      TopicDetermined(codec, entries, a, b, t);
    }
    forall t | t in b
      ensures t in a
    {
      TopicDetermined(codec, entries, b, a, t);
    }
  }

  lemma TopicHasCounter(codec: Codec, entries: Entries, a: Log, b: Log, t: Text)
    requires Represents(codec, entries, a) && Represents(codec, entries, b) && t in a
    ensures t in b
  {
    assert StoresTopic(codec, entries, t, a[t]);
    assert KeyStandsFor(b, OffsetKey(t));
    var u :| u in b && (OffsetKey(t) == OffsetKey(u) || IsEventKey(OffsetKey(t), u, |b[u]|));
    if IsEventKey(OffsetKey(t), u, |b[u]|) {
      var i :| 0 <= i < |b[u]| && OffsetKey(t) == EventKey(u, i);
      EventAndOffsetKeysDisjoint(u, i, t);
    }
    OffsetKeyInjective(t, u);
  }

  lemma TopicDetermined(codec: Codec, entries: Entries, a: Log, b: Log, t: Text)
    requires Represents(codec, entries, a) && Represents(codec, entries, b) && t in a
    ensures t in b && a[t] == b[t]
  {
    TopicHasCounter(codec, entries, a, b, t);
    assert StoresTopic(codec, entries, t, a[t]) && StoresTopic(codec, entries, t, b[t]);
    hide EventKey, OffsetKey;
    assert FromBigEndian(EncodeOffset(|a[t]|)) == |a[t]|;
    assert FromBigEndian(EncodeOffset(|b[t]|)) == |b[t]|;
    assert |a[t]| == |b[t]|;
  }

  ghost predicate AppendedEntries(before: Entries, after: Entries, topic: Text, n: nat, value: Bytes)
    requires n <= MAX_INT64
  {
    after == before[EventKey(topic, n) := value][OffsetKey(topic) := EncodeOffset(n + 1)]
  }

  /** The two writes of an append move the stored log to the appended log. */
  lemma AppendRepresents(codec: Codec, before: Entries, after: Entries, log: Log, topic: Text, e: Event, value: Bytes)
    requires Represents(codec, before, log)
    requires topic != [] && |topic| < TWO_TO_THE_32 && EndOffset(log, topic) <= MAX_INT64
    requires e.offset == EndOffset(log, topic) && codec.decode(value) == Some(e)
    requires AppendedEntries(before, after, topic, EndOffset(log, topic), value)
    ensures Represents(codec, after, Append(log, topic, e))
  {
    hide EventKey, OffsetKey;
    var log' := Append(log, topic, e);
    AppendWellFormed(log, topic, e);
    forall t | t in log'
      ensures StoresTopic(codec, after, t, log'[t])
    {
      if t == topic {
        if t in log {
          assert StoresTopic(codec, before, t, log[t]);
        }
        AppendStoresTopic(codec, before, after, topic, Events(log, topic), e, value);
      } else {
        assert StoresTopic(codec, before, t, log[t]);
        AppendStoresOthers(codec, before, after, t, log[t], topic, EndOffset(log, topic), value);
      }
    }
    forall k | k in after
      ensures KeyStandsFor(log', k)
    {
      if k == EventKey(topic, EndOffset(log, topic)) {
        assert IsEventKey(k, topic, |log'[topic]|);
      } else if k != OffsetKey(topic) {
        assert KeyStandsFor(log, k);
        var t :| t in log && (k == OffsetKey(t) || IsEventKey(k, t, |log[t]|));
        assert t in log' && (k == OffsetKey(t) || IsEventKey(k, t, |log'[t]|));
      }
    }
  }

  lemma AppendWellFormed(log: Log, topic: Text, e: Event)
    requires WellFormed(log)
    requires topic != [] && |topic| < TWO_TO_THE_32 && EndOffset(log, topic) <= MAX_INT64
    requires e.offset == EndOffset(log, topic)
    ensures WellFormed(Append(log, topic, e))
  {
  }

  lemma AppendStoresTopic(codec: Codec, before: Entries, after: Entries, topic: Text, events: seq<Event>,
                          e: Event, value: Bytes)
    requires |events| <= MAX_INT64 && codec.decode(value) == Some(e)
    requires events != [] ==> StoresTopic(codec, before, topic, events)
    requires AppendedEntries(before, after, topic, |events|, value)
    ensures StoresTopic(codec, after, topic, events + [e])
  {
    var n := |events|;
    forall i | 0 <= i < n + 1
      ensures EventKey(topic, i) in after && codec.decode(after[EventKey(topic, i)]) == Some((events + [e])[i])
    {
      EventAndOffsetKeysDisjoint(topic, i, topic);
      if EventKey(topic, i) == EventKey(topic, n) {
        EventKeyInjective(topic, i, topic, n);
      }
    }
  }

  lemma AppendStoresOthers(codec: Codec, before: Entries, after: Entries, t: Text, events: seq<Event>,
                           topic: Text, n: nat, value: Bytes)
    requires t != topic && n <= MAX_INT64 && |events| <= TWO_TO_THE_63
    requires StoresTopic(codec, before, t, events) && AppendedEntries(before, after, topic, n, value)
    ensures StoresTopic(codec, after, t, events)
  {
    OtherKeysUntouched(t, topic, n);
  }

  lemma OtherKeysUntouched(t: Text, topic: Text, n: nat)
    requires t != topic && n < TWO_TO_THE_64
    ensures OffsetKey(t) != OffsetKey(topic) && OffsetKey(t) != EventKey(topic, n)
    ensures forall i :: 0 <= i < TWO_TO_THE_64 ==>
      EventKey(t, i) != EventKey(topic, n) && EventKey(t, i) != OffsetKey(topic)
  {
    if OffsetKey(t) == OffsetKey(topic) {
      OffsetKeyInjective(t, topic);
    }
    EventAndOffsetKeysDisjoint(topic, n, t);
    forall i | 0 <= i < TWO_TO_THE_64
      ensures EventKey(t, i) != EventKey(topic, n) && EventKey(t, i) != OffsetKey(topic)
    {
      EventAndOffsetKeysDisjoint(t, i, topic);
      if EventKey(t, i) == EventKey(topic, n) {
        EventKeyInjective(t, i, topic, n);
      }
    }
  }

  // ---- scans --------------------------------------------------------------

  ghost predicate TopicKeys(keys: set<Bytes>, topic: Text, n: nat)
    requires n <= TWO_TO_THE_63
  {
    forall k :: k in keys <==> IsEventKey(k, topic, n)
  }

  lemma KindsDiffer(s: Text, t: Text)
    ensures !(EventTopicPrefix(s) <= OffsetKey(t))
  {
    assert EventTopicPrefix(s)[0] != OffsetKey(t)[0];
  }

  /** A topic's window holds its own event keys, all of them, and nothing else. */
  lemma TopicWindowKeys(codec: Codec, entries: Entries, log: Log, topic: Text)
    requires Represents(codec, entries, log) && |topic| < TWO_TO_THE_32
    ensures EndOffset(log, topic) <= TWO_TO_THE_63
    ensures TopicKeys(Window(entries, EventTopicPrefix(topic), PrefixSuccessor(EventTopicPrefix(topic))).Keys,
                      topic, EndOffset(log, topic))
  {
    hide EventKey, OffsetKey, EventTopicPrefix, PrefixSuccessor;
    var lower, upper := EventTopicPrefix(topic), PrefixSuccessor(EventTopicPrefix(topic));
    var n := EndOffset(log, topic);
    forall k
      ensures k in Window(entries, lower, upper).Keys <==> IsEventKey(k, topic, n)
    {
      if IsEventKey(k, topic, n) {
        var i :| 0 <= i < n && k == EventKey(topic, i);
        assert StoresTopic(codec, entries, topic, log[topic]);
        TopicWindowIsolated(topic, topic, i);
      }
      if k in Window(entries, lower, upper).Keys {
        assert KeyStandsFor(log, k);
        var t :| t in log && (k == OffsetKey(t) || IsEventKey(k, t, |log[t]|));
        PrefixRangeExact(lower, k);
        KindsDiffer(topic, t);
        assert IsEventKey(k, t, |log[t]|);
        var i :| 0 <= i < |log[t]| && k == EventKey(t, i);
        TopicWindowIsolated(topic, t, i);
      }
    }
  }

  lemma SeekTopic(keys: set<Bytes>, topic: Text, n: nat, start: nat, at: Option<Bytes>)
    requires n <= TWO_TO_THE_63 && start < TWO_TO_THE_64
    requires TopicKeys(keys, topic, n) && SeekLands(keys, EventKey(topic, start), at)
    ensures at == if start < n then Some(EventKey(topic, start)) else None
  {
    if start < n {
      var first := EventKey(topic, start);
      assert IsEventKey(first, topic, n);
      LexReflexive(first);
      LexAntisymmetric(first, at.value);
    } else if at.Some? {
      assert IsEventKey(at.value, topic, n);
      var i :| 0 <= i < n && at.value == EventKey(topic, i);
      EventKeyOrder(topic, start, i);
    }
  }

  lemma NextTopic(keys: set<Bytes>, topic: Text, n: nat, i: nat, at: Option<Bytes>)
    requires i < n <= TWO_TO_THE_63
    requires TopicKeys(keys, topic, n) && NextLands(keys, EventKey(topic, i), at)
    ensures at == if i + 1 < n then Some(EventKey(topic, i + 1)) else None
  {
    if i + 1 < n {
      var next := EventKey(topic, i + 1);
      assert IsEventKey(next, topic, n);
      EventKeyOrder(topic, i, i + 1);
      EventKeyOrder(topic, i + 1, i);
      LexReflexive(next);
      assert LexLt(EventKey(topic, i), next);
    }
    if at.Some? {
      assert IsEventKey(at.value, topic, n);
      var j :| 0 <= j < n && at.value == EventKey(topic, j);
      EventKeyOrder(topic, j, i);
      if j <= i {
        LexAntisymmetric(EventKey(topic, j), EventKey(topic, i));
      }
      EventKeyOrder(topic, j, i + 1);
    }
  }

  ghost predicate CounterKeys(keys: set<Bytes>, log: Log) {
    && (forall t :: t in log ==> OffsetKey(t) in keys)
    && (forall k :: k in keys ==> exists t :: t in log && k == OffsetKey(t))
  }

  /** The statistics window holds one counter key per topic and nothing else. */
  lemma CounterWindowKeys(codec: Codec, entries: Entries, log: Log)
    requires Represents(codec, entries, log)
    ensures CounterKeys(Window(entries, [OFFSET_KEY_PREFIX], Some([OFFSET_KEY_PREFIX + 1])).Keys, log)
  {
    var window := Window(entries, [OFFSET_KEY_PREFIX], Some([OFFSET_KEY_PREFIX + 1]));
    forall t | t in log
      ensures OffsetKey(t) in window
    {
      assert StoresTopic(codec, entries, t, log[t]);
      OffsetWindowExact(OffsetKey(t));
    }
    forall k | k in window
      ensures exists t :: t in log && k == OffsetKey(t)
    {
      OffsetWindowExact(k);
      assert KeyStandsFor(log, k);
      var t :| t in log && (k == OffsetKey(t) || IsEventKey(k, t, |log[t]|));
    }
  }

  /** A topic has a counter key exactly when it has events, holding their number. */
  lemma CounterOfTopic(codec: Codec, entries: Entries, log: Log, topic: Text)
    requires Represents(codec, entries, log)
    ensures OffsetKey(topic) in entries <==> topic in log
    ensures topic in log ==>
      |log[topic]| < TWO_TO_THE_64 && entries[OffsetKey(topic)] == EncodeOffset(|log[topic]|)
  {
    if topic in log {
      assert StoresTopic(codec, entries, topic, log[topic]);
    } else if OffsetKey(topic) in entries {
      NoOtherCounter(codec, entries, log, topic);
    }
  }

  lemma NoOtherCounter(codec: Codec, entries: Entries, log: Log, topic: Text)
    requires Represents(codec, entries, log) && OffsetKey(topic) in entries
    ensures topic in log
  {
    CounterWindowKeys(codec, entries, log);
    hide Represents;
    OffsetWindowExact(OffsetKey(topic));
    var t :| t in log && OffsetKey(topic) == OffsetKey(t);
    OffsetKeyInjective(topic, t);
  }

  // ---- the scan loops ------------------------------------------------------

  /** A window serves a topic: its keys are the topic's, its values decode to the events. */
  ghost predicate Serves(codec: Codec, window: Entries, log: Log, topic: Text) {
    && EndOffset(log, topic) <= TWO_TO_THE_63
    && TopicKeys(window.Keys, topic, EndOffset(log, topic))
    && forall i :: 0 <= i < EndOffset(log, topic) ==>
         EventKey(topic, i) in window && codec.decode(window[EventKey(topic, i)]) == Some(Events(log, topic)[i])
  }

  lemma TopicWindowServes(codec: Codec, entries: Entries, log: Log, topic: Text)
    requires Represents(codec, entries, log) && |topic| < TWO_TO_THE_32
    ensures var window := Window(entries, EventTopicPrefix(topic), PrefixSuccessor(EventTopicPrefix(topic)));
      Serves(codec, window, log, topic)
  {
    var window := Window(entries, EventTopicPrefix(topic), PrefixSuccessor(EventTopicPrefix(topic)));
    TopicWindowKeys(codec, entries, log, topic);
    var n := EndOffset(log, topic);
    forall i | 0 <= i < n
      ensures EventKey(topic, i) in window && codec.decode(window[EventKey(topic, i)]) == Some(Events(log, topic)[i])
    {
      assert IsEventKey(EventKey(topic, i), topic, n);
      assert EventKey(topic, i) in window.Keys;
      assert StoresTopic(codec, entries, topic, log[topic]);
    }
  }

  ghost predicate PositionedAt(at: Option<Bytes>, topic: Text, i: nat, n: nat)
    requires n <= TWO_TO_THE_63
  {
    at == if i < n then Some(EventKey(topic, i)) else None
  }

  /** The body of both loops: decode the event under the iterator and move on. */
  method Take(codec: Codec, it: RangeIterator, ghost log: Log, topic: Text, ghost i: nat)
    returns (event: Option<Event>, ok: bool)
    requires Serves(codec, it.window, log, topic) && i < EndOffset(log, topic)
    requires PositionedAt(it.at, topic, i, EndOffset(log, topic))
    modifies it
    ensures event == Some(Events(log, topic)[i])
    ensures ok == it.at.Some? && PositionedAt(it.at, topic, i + 1, EndOffset(log, topic))
  {
    event := codec.decode(it.window[it.at.value]);
    ok := it.Next();
    NextTopic(it.window.Keys, topic, EndOffset(log, topic), i, it.at);
  }

  method Collect(codec: Codec, ctx: Context, it: RangeIterator, ghost log: Log, topic: Text, start: nat, max: nat)
    returns (r: Outcome<seq<Event>>)
    requires Serves(codec, it.window, log, topic) && start <= MAX_INT64
    modifies it
    ensures ctx == BACKGROUND ==> r == Success(Slice(log, topic, start, max))
    ensures r == Failure(Cancelled) || r == Success(Slice(log, topic, start, max))
  {
    hide EventKey;
    var events: seq<Event> := [];
    SliceGrows(log, topic, start, 0);
    var ok := it.SeekGE(EventKey(topic, start));
    SeekTopic(it.window.Keys, topic, EndOffset(log, topic), start, it.at);
    while ok && |events| < max
      invariant |events| <= max && ok == it.at.Some?
      invariant PositionedAt(it.at, topic, start + |events|, EndOffset(log, topic))
      invariant events == Slice(log, topic, start, |events|)
      decreases max - |events|
    {
      if ctx.Done(1 + |events|) {
        return Failure(Cancelled);
      }
      SliceGrows(log, topic, start, |events|);
      var event;
      event, ok := Take(codec, it, log, topic, start + |events|);
      if event.None? {
        return Failure(CorruptValue);
      }
      events := events + [event.value];
    }
    if !ok {
      SliceEnds(log, topic, start, |events|, max);
    }
    return Success(events);
  }

  method Send(codec: Codec, ctx: Context, it: RangeIterator, ghost log: Log, topic: Text, start: nat)
    returns (sent: seq<Event>, error: Option<LogError>)
    requires Serves(codec, it.window, log, topic) && start <= MAX_INT64
    modifies it
    ensures error == None ==> sent == From(log, topic, start)
    ensures error.Some? ==> error == Some(Cancelled) && ctx != BACKGROUND && sent <= From(log, topic, start)
  {
    hide EventKey;
    sent, error := [], None;
    SliceGrows(log, topic, start, 0);
    var ok := it.SeekGE(EventKey(topic, start));
    SeekTopic(it.window.Keys, topic, EndOffset(log, topic), start, it.at);
    while ok
      invariant ok == it.at.Some? && error == None
      invariant PositionedAt(it.at, topic, start + |sent|, EndOffset(log, topic))
      invariant sent == Slice(log, topic, start, |sent|)
      decreases EndOffset(log, topic) - |sent|, ok
    {
      if ctx.Done(1 + |sent|) {
        SlicePrefix(log, topic, start, |sent|);
        return sent, Some(Cancelled);
      }
      SliceGrows(log, topic, start, |sent|);
      var event;
      event, ok := Take(codec, it, log, topic, start + |sent|);
      if event.None? {
        return sent, Some(CorruptValue);
      }
      assert sent + [event.value] == Slice(log, topic, start, |sent| + 1);
      sent := sent + [event.value];
    }
    SliceGrows(log, topic, start, |sent|);
  }

  // ---- counting ------------------------------------------------------------

  ghost predicate ServesCounters(window: Entries, log: Log) {
    && CounterKeys(window.Keys, log)
    && forall t :: t in log ==>
         |t| < TWO_TO_THE_32 && |log[t]| < TWO_TO_THE_64 && window[OffsetKey(t)] == EncodeOffset(|log[t]|)
  }

  lemma CounterWindowServes(codec: Codec, entries: Entries, log: Log)
    requires Represents(codec, entries, log)
    ensures ServesCounters(Window(entries, [OFFSET_KEY_PREFIX], Some([OFFSET_KEY_PREFIX + 1])), log)
  {
    CounterWindowKeys(codec, entries, log);
    forall t | t in log
      ensures |t| < TWO_TO_THE_32 && |log[t]| < TWO_TO_THE_64
      ensures entries[OffsetKey(t)] == EncodeOffset(|log[t]|)
    {
      assert StoresTopic(codec, entries, t, log[t]);
    }
  }

  ghost function CountedBefore(log: Log, at: Option<Bytes>): (topics: set<Text>)
    ensures topics <= log.Keys
  {
    set t | t in log && (at.Some? ==> LexLt(OffsetKey(t), at.value))
  }

  lemma FirstCounter(log: Log, keys: set<Bytes>, at: Option<Bytes>)
    requires CounterKeys(keys, log) && SeekLands(keys, [OFFSET_KEY_PREFIX], at)
    ensures CountedBefore(log, at) == {} && CountedBefore(log, None) == log.Keys
  {
    forall t | t in log
      ensures at.Some? && !LexLt(OffsetKey(t), at.value)
    {
      LexPrefix([OFFSET_KEY_PREFIX], OffsetKey(t)[1..]);
      assert OffsetKey(t) == [OFFSET_KEY_PREFIX] + OffsetKey(t)[1..];
      assert at.Some? && LexLe(at.value, OffsetKey(t));
      if LexLt(OffsetKey(t), at.value) {
        LexAntisymmetric(OffsetKey(t), at.value);
      }
    }
  }

  /** Moving on from one counter key adds its topic, once, to those counted. */
  lemma CounterStep(log: Log, keys: set<Bytes>, topic: Text, at: Option<Bytes>)
    requires topic in log && CounterKeys(keys, log) && NextLands(keys, OffsetKey(topic), at)
    ensures topic !in CountedBefore(log, Some(OffsetKey(topic)))
    ensures CountedBefore(log, at) == CountedBefore(log, Some(OffsetKey(topic))) + {topic}
  {
    var here := OffsetKey(topic);
    forall t | t in log
      ensures t in CountedBefore(log, at) <==> t in CountedBefore(log, Some(here)) || t == topic
    {
      CounterOrder(here, OffsetKey(t), at);
      if OffsetKey(t) == here {
        OffsetKeyInjective(t, topic);
      }
    }
  }

  /** Every key other than here is before it or not before the key that follows it. */
  lemma CounterOrder(here: Bytes, k: Bytes, at: Option<Bytes>)
    requires at.Some? ==> LexLt(here, at.value)
    requires LexLt(here, k) ==> at.Some? && LexLe(at.value, k)
    ensures (at.Some? ==> LexLt(k, at.value)) <==> LexLt(k, here) || k == here
  {
    LexTotal(k, here);
    if LexLe(k, here) {
      if at.Some? {
        LexTransitive(k, here, at.value);
        if k == at.value {
          LexAntisymmetric(here, k);
        }
      }
    } else if LexLt(k, at.value) {
      LexAntisymmetric(k, at.value);
    }
  }

  ghost predicate Tallied(log: Log, at: Option<Bytes>, counts: map<Text, int>, total: int64) {
    && counts == CountsOf(log, CountedBefore(log, at))
    && total == WrappedTotal(log, CountedBefore(log, at))
  }

  /** The loop body after its context check: count the topic under the iterator. */
  method CountOne(it: RangeIterator, ghost log: Log, counts: map<Text, int>, total: int64)
    returns (error: Option<LogError>, counts': map<Text, int>, total': int64, ok: bool, ghost topic: Text)
    requires ServesCounters(it.window, log) && it.at.Some? && it.at.value in it.window.Keys
    requires Tallied(log, it.at, counts, total)
    modifies it
    ensures topic in log && error == if |log[topic]| > MAX_INT64 then Some(OffsetOverflow) else None
    ensures error == None ==> Tallied(log, it.at, counts', total') && ok == it.at.Some?
    ensures error == None ==> it.at.Some? ==> it.at.value in it.window.Keys
    ensures error == None ==>
      topic !in CountedBefore(log, old(it.at)) && CountedBefore(log, it.at) == CountedBefore(log, old(it.at)) + {topic}
  {
    hide OffsetKey, Wrap64, FromBigEndian, DecodeOffsetTopicKey, WrappedTotal, CountsOf, CountedBefore;
    counts', total', ok := counts, total, true;
    topic :| topic in log && it.at.value == OffsetKey(topic);
    var name := DecodeOffsetTopicKey(it.at.value);
    OffsetKeyDecodes(it.at.value, topic);
    var value := it.window[it.at.value];
    if |value| != 8 {
      return Some(CorruptValue), counts, total, true, topic;
    }
    var count := FromBigEndian(value);
    if count > MAX_INT64 {
      return Some(OffsetOverflow), counts, total, true, topic;
    }
    error := None;
    ghost var before := CountedBefore(log, it.at);
    ok := it.Next();
    CounterStep(log, it.window.Keys, topic, it.at);
    TallyStep(log, before, topic);
    CountsStep(log, before, topic);
    counts' := counts[name.value := count];
    total' := Wrap64(total + count);
  }

  method Count(ctx: Context, it: RangeIterator, ghost log: Log) returns (r: Outcome<Statistics>)
    requires ServesCounters(it.window, log)
    modifies it
    ensures ctx == BACKGROUND ==> r != Failure(Cancelled)
    ensures r != Failure(Cancelled) ==>
      r == if RoomEverywhere(log) then Success(CountedStatistics(log)) else Failure(OffsetOverflow)
  {
    hide OffsetKey, Wrap64, WrappedTotal, CountsOf, CountedBefore;
    var total: int64 := 0;
    var counts: map<Text, int> := map[];
    var checks := 1;
    var ok := it.SeekGE([OFFSET_KEY_PREFIX]);
    FirstCounter(log, it.window.Keys, it.at);
    NothingTallied(log);
    CountsStart(log);
    while ok
      invariant ok == it.at.Some? && (ok ==> it.at.value in it.window.Keys)
      invariant Tallied(log, it.at, counts, total)
      invariant forall t :: t in CountedBefore(log, it.at) ==> |log[t]| <= MAX_INT64
      decreases log.Keys - CountedBefore(log, it.at), ok
    {
      if ctx.Done(checks) {
        return Failure(Cancelled);
      }
      checks := checks + 1;
      ghost var topic;
      var error;
      error, counts, total, ok, topic := CountOne(it, log, counts, total);
      if error.Some? {
        return Failure(error.value);
      }
    }
    SameKeysSameSize(counts, log);
    return Success(Statistics(total, counts, |counts|));
  }

  // ---- what each operation answers, in terms of the log --------------------

  function AppendAnswer(codec: Codec, s: State, topic: Text, event: Option<Event>): Outcome<Event> {
    match AppendGuard(topic, event, s.closed)
    case Some(error) => Failure(error)
    case None =>
      var n := EndOffset(s.log, topic);
      if n > MAX_INT64 then Failure(OffsetOverflow)
      else
        var e := event.value.(offset := n);
        if codec.encode(e).None? then Failure(EncodeFailed) else Success(e)
  }

  ghost function Answers(codec: Codec, s: State, op: Op): Answer {
    match op
    case AppendEvent(topic, event) => Appended(AppendAnswer(codec, s, topic, event))
    case ReadEvents(topic, start, max) =>
      Batch(match ReadGuard(topic, start, max, s.closed)
            case Some(error) => Failure(error)
            case None => Success(Slice(s.log, topic, start, max)))
    case ReplayEvents(topic, start) =>
      Batch(match ReadGuard(topic, start, 0, s.closed)
            case Some(error) => Failure(error)
            case None => Success(From(s.log, topic, start)))
    case GetTopicEndOffset(topic) =>
      Offset(if topic == [] then Failure(EmptyTopic)
             else if s.closed then Failure(ClosedLog)
             else if EndOffset(s.log, topic) > MAX_INT64 then Failure(OffsetOverflow)
             else Success(EndOffset(s.log, topic)))
    case GetStatistics =>
      Stats(if s.closed then Failure(ClosedLog)
            else if !RoomEverywhere(s.log) then Failure(OffsetOverflow)
            else Success(CountedStatistics(s.log)))
    case Close => Ok
  }

  ghost function Next(codec: Codec, s: State, op: Op): State {
    match op
    case AppendEvent(topic, event) =>
      var answer := AppendAnswer(codec, s, topic, event);
      if answer.Success? then s.(log := Append(s.log, topic, answer.value)) else s
    case Close => s.(closed := true)
    case _ => s
  }

  // ---- the log ------------------------------------------------------------

  class PebbleEventLog {
    const codec: Codec
    const db: Store
    var closed: bool
    ghost var log: Log

    ghost predicate Valid()
      reads this, db
    {
      codec.Faithful() && Represents(codec, db.entries, log)
    }

    ghost function View(): State
      reads this
    {
      State(log, closed)
    }

    constructor (codec: Codec)
      requires codec.Faithful()
      ensures Valid() && fresh(db) && this.codec == codec
      ensures View() == State(map[], false)
    {
      this.codec := codec;
      db := new Store();
      closed := false;
      log := map[];
    }

    method GetTopicEndOffsetLocked(topic: Text) returns (r: Outcome<nat>)
      requires Valid()
      ensures r == Success(EndOffset(log, topic))
    {
      CounterOfTopic(codec, db.entries, log, topic);
      var value := db.Get(OffsetKey(topic));
      match value {
        case None =>
          return Success(0);
        case Some(v) =>
          if |v| != 8 {
            return Failure(CorruptValue);
          }
          return Success(FromBigEndian(v));
      }
    }

    method AppendEvent(ctx: Context, topic: Text, event: Option<Event>) returns (r: Outcome<Event>)
      requires Valid() && |topic| < TWO_TO_THE_32
      modifies this, db
      ensures Valid()
      ensures ctx.Done(0) ==> r == Failure(Cancelled) && View() == old(View())
      ensures !ctx.Done(0) ==>
        && Appended(r) == Answers(codec, old(View()), Op.AppendEvent(topic, event))
        && View() == Next(codec, old(View()), Op.AppendEvent(topic, event))
    {
      hide Represents, Append, EventKey, OffsetKey, EncodeOffset;
      if ctx.Done(0) {
        return Failure(Cancelled);
      }
      if topic == [] {
        return Failure(EmptyTopic);
      }
      if event == None {
        return Failure(NilEvent);
      }
      if closed {
        return Failure(ClosedLog);
      }
      var end := GetTopicEndOffsetLocked(topic);
      if end.Failure? {
        return Failure(CorruptValue);
      }
      var nextOffset := end.value;
      if nextOffset > MAX_INT64 {
        return Failure(OffsetOverflow);
      }
      var eventWithOffset := event.value.(offset := nextOffset);
      var encoded := codec.encode(eventWithOffset);
      if encoded.None? {
        return Failure(EncodeFailed);
      }
      ghost var before := db.entries;
      db.Commit(EventKey(topic, nextOffset), encoded.value, OffsetKey(topic), EncodeOffset(nextOffset + 1));
      AppendRepresents(codec, before, db.entries, log, topic, eventWithOffset, encoded.value);
      log := Append(log, topic, eventWithOffset);
      return Success(eventWithOffset);
    }

    method NewTopicIterator(topic: Text) returns (it: RangeIterator)
      requires Valid() && |topic| < TWO_TO_THE_32
      ensures fresh(it) && Serves(codec, it.window, log, topic)
    {
      var prefix := EventTopicPrefix(topic);
      var upper := PrefixUpperBound(prefix);
      it := db.NewIter(prefix, upper);
      TopicWindowServes(codec, db.entries, log, topic);
    }

    method ReadEvents(ctx: Context, topic: Text, start: int64, max: int64) returns (r: Outcome<seq<Event>>)
      requires Valid() && |topic| < TWO_TO_THE_32
      ensures ctx.Done(0) ==> r == Failure(Cancelled)
      ensures ctx == BACKGROUND ==> Batch(r) == Answers(codec, View(), Op.ReadEvents(topic, start, max))
      ensures r == Failure(Cancelled) || Batch(r) == Answers(codec, View(), Op.ReadEvents(topic, start, max))
    {
      if ctx.Done(0) {
        return Failure(Cancelled);
      }
      if topic == [] {
        return Failure(EmptyTopic);
      }
      if start < 0 {
        return Failure(NegativeOffset);
      }
      if max < 0 {
        return Failure(NegativeMaxCount);
      }
      if closed {
        return Failure(ClosedLog);
      }
      if max == 0 {
        SliceGrows(log, topic, start, 0);
        return Success([]);
      }
      r := ReadEventsLocked(ctx, topic, start, max);
    }

    method ReadEventsLocked(ctx: Context, topic: Text, start: nat, max: nat) returns (r: Outcome<seq<Event>>)
      requires Valid() && |topic| < TWO_TO_THE_32 && start <= MAX_INT64
      ensures ctx == BACKGROUND ==> r == Success(Slice(log, topic, start, max))
      ensures r == Failure(Cancelled) || r == Success(Slice(log, topic, start, max))
    {
      var it := NewTopicIterator(topic);
      r := Collect(codec, ctx, it, log, topic, start, max);
    }

    method GetTopicEndOffset(ctx: Context, topic: Text) returns (r: Outcome<int64>)
      requires Valid()
      ensures ctx.Done(0) ==> r == Failure(Cancelled)
      ensures !ctx.Done(0) ==> Offset(r) == Answers(codec, View(), Op.GetTopicEndOffset(topic))
    {
      if ctx.Done(0) {
        return Failure(Cancelled);
      }
      if topic == [] {
        return Failure(EmptyTopic);
      }
      if closed {
        return Failure(ClosedLog);
      }
      var end := GetTopicEndOffsetLocked(topic);
      if end.Failure? {
        return Failure(CorruptValue);
      }
      if end.value > MAX_INT64 {
        return Failure(OffsetOverflow);
      }
      return Success(end.value);
    }

    /** What a replay has sent when it ends, and the error it ends with, if any. */
    method ReplayEvents(ctx: Context, topic: Text, start: int64) returns (sent: seq<Event>, error: Option<LogError>)
      requires Valid() && |topic| < TWO_TO_THE_32
      ensures ctx.Done(0) ==> sent == [] && error == Some(Cancelled)
      ensures error == None ==> Batch(Success(sent)) == Answers(codec, View(), Op.ReplayEvents(topic, start))
      ensures error.Some? && error.value != Cancelled ==>
        sent == [] && Batch(Failure(error.value)) == Answers(codec, View(), Op.ReplayEvents(topic, start))
      ensures error == Some(Cancelled) ==> ctx.doneAfter.Some? && (start >= 0 ==> sent <= From(log, topic, start))
    {
      if ctx.Done(0) {
        return [], Some(Cancelled);
      }
      if topic == [] {
        return [], Some(EmptyTopic);
      }
      if start < 0 {
        return [], Some(NegativeOffset);
      }
      if closed {
        return [], Some(ClosedLog);
      }
      var it := NewTopicIterator(topic);
      sent, error := Send(codec, ctx, it, log, topic, start);
    }

    method GetStatistics(ctx: Context) returns (r: Outcome<Statistics>)
      requires Valid()
      ensures ctx.Done(0) ==> r == Failure(Cancelled)
      ensures ctx == BACKGROUND ==> Stats(r) == Answers(codec, View(), Op.GetStatistics)
      ensures r == Failure(Cancelled) || Stats(r) == Answers(codec, View(), Op.GetStatistics)
    {
      if ctx.Done(0) {
        return Failure(Cancelled);
      }
      if closed {
        return Failure(ClosedLog);
      }
      var it := db.NewIter([OFFSET_KEY_PREFIX], Some([OFFSET_KEY_PREFIX + 1]));
      CounterWindowServes(codec, db.entries, log);
      r := Count(ctx, it, log);
    }

    method Close()
      requires Valid()
      modifies this
      ensures Valid() && View() == Next(codec, old(View()), Op.Close)
    {
      closed := true;
    }
  }
}
