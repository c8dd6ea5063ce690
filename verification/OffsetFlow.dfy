/** Sequences of offsets in which every event is either a repeat or the next one. */
module OffsetFlow {
  import opened Basics
  import opened EventLogSpec

  /** The offsets of one topic, in the order its events appear. */
  function Offsets(events: seq<Event>, topic: Text): seq<int> {
    if events == [] then []
    else (if events[0].topic == topic then [events[0].offset] else []) + Offsets(events[1..], topic)
  }

  lemma OffsetsNone(topic: Text)
    ensures Offsets([], topic) == []
  {
  }

  lemma OffsetsOne(e: Event, topic: Text)
    ensures Offsets([e], topic) == if e.topic == topic then [e.offset] else []
  {
    assert [e][1..] == [];
  }

  /** Splitting off the first event of a queue. */
  lemma OffsetsHead(events: seq<Event>, topic: Text)
    requires events != []
    ensures Offsets(events, topic)
         == (if events[0].topic == topic then [events[0].offset] else []) + Offsets(events[1..], topic)
  {
  }

  lemma {:induction false} OffsetsConcat(a: seq<Event>, b: seq<Event>, topic: Text)
    ensures Offsets(a + b, topic) == Offsets(a, topic) + Offsets(b, topic)
  {
    hide Offsets;
    if a == [] {
      OffsetsNone(topic);
      assert a + b == b && [] + Offsets(b, topic) == Offsets(b, topic);
    } else {
      OffsetsHead(a, topic);
      OffsetsHead(a + b, topic);
      OffsetsConcat(a[1..], b, topic);
      assert (a + b)[1..] == a[1..] + b;
    }
  }

  lemma {:induction false} OffsetsMember(events: seq<Event>, topic: Text, o: int)
    ensures o in Offsets(events, topic) <==> exists e :: e in events && e.topic == topic && e.offset == o
  {
    if events != [] {
      OffsetsMember(events[1..], topic, o);
      assert forall e :: e in events <==> e == events[0] || e in events[1..];
    }
  }

  function Max(a: int, b: int): int {
    if a > b then a else b
  }

  /** Every offset is at least low, and at most the next one expected, starting from next. */
  predicate Smooth(low: int, next: int, offsets: seq<int>)
    decreases |offsets|
  {
    offsets != [] ==>
      && low <= offsets[0] <= next
      && Smooth(low, Max(next, offsets[0] + 1), offsets[1..])
  }

  /** The next offset expected once the sequence has been seen. */
  function Reach(next: int, offsets: seq<int>): (r: int)
    ensures r >= next
    decreases |offsets|
  {
    if offsets == [] then next else Reach(Max(next, offsets[0] + 1), offsets[1..])
  }

  lemma {:induction false} SmoothConcat(low: int, next: int, a: seq<int>, b: seq<int>)
    ensures Smooth(low, next, a + b) <==> Smooth(low, next, a) && Smooth(low, Reach(next, a), b)
    ensures Reach(next, a + b) == Reach(Reach(next, a), b)
    decreases |a|
  {
    if a == [] {
      assert a + b == b;
    } else {
      assert (a + b)[1..] == a[1..] + b;
      SmoothConcat(low, Max(next, a[0] + 1), a[1..], b);
    }
  }

  /** Having seen more never hurts. */
  lemma {:induction false} SmoothMonotone(low: int, next: int, low': int, next': int, offsets: seq<int>)
    requires Smooth(low, next, offsets) && low' <= low && next <= next'
    ensures Smooth(low', next', offsets)
    ensures Reach(next', offsets) == Max(next', Reach(next, offsets))
    decreases |offsets|
  {
    if offsets != [] {
      SmoothMonotone(low, Max(next, offsets[0] + 1), low', Max(next', offsets[0] + 1), offsets[1..]);
    }
  }

  /** Where a queue of undrained offsets begins: at its first, or at what comes next. */
  function Start(offsets: seq<int>, next: int): int {
    if offsets == [] then next else offsets[0]
  }
}
