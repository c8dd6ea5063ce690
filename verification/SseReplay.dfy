/** Validating a resume cursor against the replay budget, and the replay itself. */
module SseReplay {
  import opened Basics
  import opened EventLogSpec
  import opened TopicPattern
  import opened ResumeProtocol

  const MAX_RESUME_TOPICS: nat := 64
  const MAX_RESUME_EVENTS: nat := 10000

  type Cursor = map<Text, int64>

  datatype Verdict = Accepted | TooManyTopics | TooManyEvents | InvalidOffset | EndOffsetFailed

  // What GetTopicEndOffset answers for each topic of an unchanging log.
  type EndOffsets = Text -> Outcome<int64>

  ghost function CoveredTopics(cursor: Cursor, subscriptions: seq<Text>): set<Text> {
    set t | t in cursor && Covered(t, subscriptions)
  }

  /** A topic is covered exactly when the live stream of these subscriptions delivers it. */
  lemma CoveredIsDelivered(topic: Text, subscriptions: seq<Text>)
    ensures var patterns := set p | p in subscriptions;
      Covered(topic, subscriptions) <==> Delivering(patterns, topic) != {}
  {
    var patterns := set p | p in subscriptions;
    if Covered(topic, subscriptions) {
      var i :| 0 <= i < |subscriptions| && Matches(subscriptions[i], topic);
      assert subscriptions[i] in Delivering(patterns, topic);
    }
    if p :| p in Delivering(patterns, topic) {
      var i :| 0 <= i < |subscriptions| && subscriptions[i] == p;
    }
  }

  function After(offset: int64): int {
    offset as int + 1
  }

  /** The events between a cursor and the end of its topic. */
  function Gap(ends: EndOffsets, cursor: Cursor, t: Text): nat
    requires t in cursor
  {
    if ends(t).Success? && ends(t).value > After(cursor[t]) then ends(t).value as int - After(cursor[t]) else 0
  }

  ghost function GapSum(ends: EndOffsets, cursor: Cursor, topics: set<Text>): nat
    requires topics <= cursor.Keys
  {
    if topics == {} then 0
    else
      var t :| t in topics;
      Gap(ends, cursor, t) + GapSum(ends, cursor, topics - {t})
  }

  lemma {:induction false} GapSumTakesAny(ends: EndOffsets, cursor: Cursor, topics: set<Text>, t: Text)
    requires topics <= cursor.Keys && t in topics
    ensures GapSum(ends, cursor, topics) == Gap(ends, cursor, t) + GapSum(ends, cursor, topics - {t})
    decreases topics
  {
    var u :| u in topics && GapSum(ends, cursor, topics) == Gap(ends, cursor, u) + GapSum(ends, cursor, topics - {u});
    if u != t {
      GapSumTakesAny(ends, cursor, topics - {u}, t);
      GapSumTakesAny(ends, cursor, topics - {t}, u);
      assert topics - {u} - {t} == topics - {t} - {u};
    }
  }

  lemma {:induction false} GapSumGrows(ends: EndOffsets, cursor: Cursor, part: set<Text>, all: set<Text>)
    requires part <= all <= cursor.Keys
    ensures GapSum(ends, cursor, part) <= GapSum(ends, cursor, all)
    decreases all - part
  {
    if part != all {
      assert exists t :: t in all && t !in part;
      var t :| t in all && t !in part;
      GapSumTakesAny(ends, cursor, part + {t}, t);
      assert part + {t} - {t} == part;
      GapSumGrows(ends, cursor, part + {t}, all);
    }
  }

  ghost predicate PlanFits(ends: EndOffsets, cursor: Cursor, subscriptions: seq<Text>, maxEvents: nat, maxTopics: nat) {
    && |cursor| <= maxTopics
    && (forall t :: t in CoveredTopics(cursor, subscriptions) ==> ends(t).Success? && cursor[t] < MAX_INT64)
    && GapSum(ends, cursor, CoveredTopics(cursor, subscriptions)) <= maxEvents
  }

  /** No single covered gap brings the running int64 sum past its range. */
  ghost predicate RoomForSum(ends: EndOffsets, cursor: Cursor, subscriptions: seq<Text>, maxEvents: nat) {
    forall t :: t in CoveredTopics(cursor, subscriptions) ==> Gap(ends, cursor, t) + maxEvents <= MAX_INT64
  }

  /** One order in which the cursor's map is walked: each topic once. */
  ghost predicate Walks(walk: seq<Text>, cursor: Cursor) {
    && (forall t :: t in walk <==> t in cursor)
    && (forall i, j :: 0 <= i < j < |walk| ==> walk[i] != walk[j])
  }

  /** What the checks come to when topics are taken in a given order, from a running sum. */
  function Tally(ends: EndOffsets, cursor: Cursor, subscriptions: seq<Text>, walk: seq<Text>, total: int64,
                 maxEvents: nat): Verdict
    requires forall t :: t in walk ==> t in cursor
    decreases |walk|
  {
    if walk == [] then Accepted
    else if !Covered(walk[0], subscriptions) then Tally(ends, cursor, subscriptions, walk[1..], total, maxEvents)
    else
      var t := walk[0];
      if ends(t).Failure? then EndOffsetFailed
      else if cursor[t] == MAX_INT64 then InvalidOffset
      else
        var sum := Wrap64(total as int + Gap(ends, cursor, t));
        if Gap(ends, cursor, t) > 0 && sum > maxEvents then TooManyEvents
        else Tally(ends, cursor, subscriptions, walk[1..], sum, maxEvents)
  }

  /** The topics that a walk has counted. */
  ghost function CountedIn(walk: seq<Text>, subscriptions: seq<Text>): set<Text> {
    set t | t in walk && Covered(t, subscriptions)
  }

  /** With room for the sum, a tally in any order accepts exactly the plans that fit. */
  lemma {:induction false} TallyFitsExactly(ends: EndOffsets, cursor: Cursor, subscriptions: seq<Text>, done: set<Text>,
                                            walk: seq<Text>, total: int64, maxEvents: nat)
    requires RoomForSum(ends, cursor, subscriptions, maxEvents) && maxEvents <= MAX_INT64
    requires forall t :: t in cursor ==> cursor[t] >= 0
    requires forall t :: t in walk ==> t in cursor && t !in done
    requires forall i, j :: 0 <= i < j < |walk| ==> walk[i] != walk[j]
    requires done <= CoveredTopics(cursor, subscriptions)
    requires total == GapSum(ends, cursor, done) <= maxEvents
    ensures Tally(ends, cursor, subscriptions, walk, total, maxEvents) == Accepted <==>
      && (forall t :: t in CountedIn(walk, subscriptions) ==> ends(t).Success? && cursor[t] < MAX_INT64)
      && GapSum(ends, cursor, done + CountedIn(walk, subscriptions)) <= maxEvents
    decreases |walk|
  {
    hide Wrap64, Covered, Tally, Gap, GapSum;
    NothingToTally(ends, cursor, subscriptions, maxEvents);
    if walk == [] {
      assert done + CountedIn(walk, subscriptions) == done;
    } else {
      var t, rest := walk[0], walk[1..];
      assert t !in rest;
      assert walk == [t] + rest;
      if !Covered(t, subscriptions) {
        TallyStep(ends, cursor, subscriptions, t, rest, total, maxEvents);
        assert CountedIn(walk, subscriptions) == CountedIn(rest, subscriptions);
        TallyFitsExactly(ends, cursor, subscriptions, done, rest, total, maxEvents);
      } else {
        TallyCoveredStep(ends, cursor, subscriptions, done, t, rest, total, maxEvents);
        assert walk == [t] + rest;
        if ends(t).Success? && cursor[t] < MAX_INT64 && total as int + Gap(ends, cursor, t) <= maxEvents {
          GapSumTakesAny(ends, cursor, done + {t}, t);
          assert done + {t} - {t} == done;
          var sum: int64 := total as int + Gap(ends, cursor, t);
          TallyFitsExactly(ends, cursor, subscriptions, done + {t}, rest, sum, maxEvents);
        }
      }
    }
  }

  /** One covered topic of the walk is refused, or its gap joins the sum. */
  lemma TallyCoveredStep(ends: EndOffsets, cursor: Cursor, subscriptions: seq<Text>, done: set<Text>,
                         t: Text, rest: seq<Text>, total: int64, maxEvents: nat)
    requires RoomForSum(ends, cursor, subscriptions, maxEvents) && maxEvents <= MAX_INT64
    requires forall u :: u in cursor ==> cursor[u] >= 0
    requires t in cursor && t !in done && t !in rest && Covered(t, subscriptions)
    requires forall u :: u in rest ==> u in cursor && u !in done
    requires done <= CoveredTopics(cursor, subscriptions)
    requires total == GapSum(ends, cursor, done) <= maxEvents
    ensures var walk, gap := [t] + rest, Gap(ends, cursor, t);
      && t in CountedIn(walk, subscriptions)
      && done + CountedIn(walk, subscriptions) == (done + {t}) + CountedIn(rest, subscriptions)
      && (forall u :: u in CountedIn(walk, subscriptions) <==> u == t || u in CountedIn(rest, subscriptions))
      && (ends(t).Success? && cursor[t] < MAX_INT64 ==>
           && (total as int + gap <= maxEvents ==>
                Tally(ends, cursor, subscriptions, walk, total, maxEvents)
                == Tally(ends, cursor, subscriptions, rest, total as int + gap, maxEvents))
           && (total as int + gap > maxEvents ==>
                && Tally(ends, cursor, subscriptions, walk, total, maxEvents) == TooManyEvents
                && GapSum(ends, cursor, done + CountedIn(walk, subscriptions)) > maxEvents))
      && (ends(t).Failure? || cursor[t] == MAX_INT64 ==>
           Tally(ends, cursor, subscriptions, walk, total, maxEvents) in {EndOffsetFailed, InvalidOffset})
  {
    hide Wrap64, Covered, Tally;
    TallyStep(ends, cursor, subscriptions, t, rest, total, maxEvents);
    var walk := [t] + rest;
    GapSumTakesAny(ends, cursor, done + {t}, t);
    assert done + {t} - {t} == done;
    GapSumGrows(ends, cursor, done + {t}, done + CountedIn(walk, subscriptions));
    SumInRange(total as int + Gap(ends, cursor, t));
  }

  lemma SumInRange(x: int)
    ensures 0 <= x <= MAX_INT64 ==> Wrap64(x) == x
  {
  }

  lemma NothingToTally(ends: EndOffsets, cursor: Cursor, subscriptions: seq<Text>, maxEvents: nat)
    ensures forall total :: Tally(ends, cursor, subscriptions, [], total, maxEvents) == Accepted
  {
  }

  lemma TallyStep(ends: EndOffsets, cursor: Cursor, subscriptions: seq<Text>, t: Text, rest: seq<Text>,
                  total: int64, maxEvents: nat)
    requires t in cursor && forall u :: u in rest ==> u in cursor
    ensures
      var sum := Wrap64(total as int + Gap(ends, cursor, t));
      Tally(ends, cursor, subscriptions, [t] + rest, total, maxEvents) ==
        if !Covered(t, subscriptions) then Tally(ends, cursor, subscriptions, rest, total, maxEvents)
        else if ends(t).Failure? then EndOffsetFailed
        else if cursor[t] == MAX_INT64 then InvalidOffset
        else if Gap(ends, cursor, t) > 0 && sum > maxEvents then TooManyEvents
        else Tally(ends, cursor, subscriptions, rest, sum, maxEvents)
  {
    assert ([t] + rest)[1..] == rest;
  }

  /** The loop, in the order the cursor's map happens to be walked in. */
  method TallyGaps(ends: EndOffsets, cursor: Cursor, subscriptions: seq<Text>, maxEvents: nat, walk: seq<Text>)
    returns (verdict: Verdict)
    requires forall t :: t in cursor ==> cursor[t] >= 0
    requires forall t :: t in walk ==> t in cursor
    ensures verdict == Tally(ends, cursor, subscriptions, walk, 0, maxEvents)
  {
    hide Wrap64, Covered, Tally, Gap;
    NothingToTally(ends, cursor, subscriptions, maxEvents);
    var total: int64 := 0;
    for i := 0 to |walk|
      invariant Tally(ends, cursor, subscriptions, walk[i..], total, maxEvents)
             == Tally(ends, cursor, subscriptions, walk, 0, maxEvents)
    {
      assert walk[i..] == [walk[i]] + walk[i + 1..];
      TallyStep(ends, cursor, subscriptions, walk[i], walk[i + 1..], total, maxEvents);
      var topic := walk[i];
      var isCovered := TopicCovered(topic, subscriptions);
      if isCovered {
        var refusal;
        refusal, total := CountTopic(ends, cursor, topic, total, maxEvents);
        if refusal.Some? {
          return refusal.value;
        }
      }
    }
    assert walk[|walk|..] == [];
    return Accepted;
  }

  /** The verdict is the tally in the order the cursor's map is walked in. A plan that fits is
      accepted in every order; with room for the sum no other is in any. */
  method ValidateReplayPlan(ends: EndOffsets, cursor: Cursor, subscriptions: seq<Text>,
                            maxEvents: nat, maxTopics: nat, walk: seq<Text>) returns (verdict: Verdict)
    requires forall t :: t in cursor ==> cursor[t] >= 0
    requires maxEvents <= MAX_INT64 && Walks(walk, cursor)
    ensures verdict == if |cursor| > maxTopics then TooManyTopics
                       else Tally(ends, cursor, subscriptions, walk, 0, maxEvents)
    ensures PlanFits(ends, cursor, subscriptions, maxEvents, maxTopics) ==> verdict == Accepted
    ensures RoomForSum(ends, cursor, subscriptions, maxEvents) ==>
      (verdict == Accepted <==> PlanFits(ends, cursor, subscriptions, maxEvents, maxTopics))
    ensures verdict == InvalidOffset ==>
      exists t :: t in CoveredTopics(cursor, subscriptions) && cursor[t] == MAX_INT64
    ensures verdict == EndOffsetFailed ==>
      exists t :: t in CoveredTopics(cursor, subscriptions) && ends(t).Failure?
  {
    if |cursor| > maxTopics {
      return TooManyTopics;
    }
    WalkedPlanFits(ends, cursor, subscriptions, maxEvents, maxTopics, walk);
    RefusalsMean(ends, cursor, subscriptions, walk, 0, maxEvents);
    hide Tally, RoomForSum, PlanFits;
    verdict := TallyGaps(ends, cursor, subscriptions, maxEvents, walk);
  }

  lemma {:induction false} RefusalsMean(ends: EndOffsets, cursor: Cursor, subscriptions: seq<Text>,
                                        walk: seq<Text>, total: int64, maxEvents: nat)
    requires forall t :: t in walk ==> t in cursor
    ensures var verdict := Tally(ends, cursor, subscriptions, walk, total, maxEvents);
      && (verdict == InvalidOffset ==> exists t :: t in CoveredTopics(cursor, subscriptions) && cursor[t] == MAX_INT64)
      && (verdict == EndOffsetFailed ==> exists t :: t in CoveredTopics(cursor, subscriptions) && ends(t).Failure?)
      && verdict != TooManyTopics
    decreases |walk|
  {
    hide Wrap64, Covered, Gap;
    if walk != [] {
      assert Covered(walk[0], subscriptions) ==> walk[0] in CoveredTopics(cursor, subscriptions);
      RefusalsMean(ends, cursor, subscriptions, walk[1..], total, maxEvents);
      if ends(walk[0]).Success? {
        var sum := Wrap64(total as int + Gap(ends, cursor, walk[0]));
        RefusalsMean(ends, cursor, subscriptions, walk[1..], sum, maxEvents);
      }
    }
  }

  lemma CountedIsCovered(cursor: Cursor, subscriptions: seq<Text>, walk: seq<Text>)
    requires Walks(walk, cursor)
    ensures {} + CountedIn(walk, subscriptions) == CountedIn(walk, subscriptions) ==
      CoveredTopics(cursor, subscriptions)
    ensures {} <= CoveredTopics(cursor, subscriptions)
  {
  }

  lemma FittingWalk(ends: EndOffsets, cursor: Cursor, subscriptions: seq<Text>, maxEvents: nat, walk: seq<Text>)
    requires forall t :: t in cursor ==> cursor[t] >= 0
    requires maxEvents <= MAX_INT64 && Walks(walk, cursor)
    requires PlanFits(ends, cursor, subscriptions, maxEvents, |cursor|)
    ensures Tally(ends, cursor, subscriptions, walk, 0, maxEvents) == Accepted
  {
    CountedIsCovered(cursor, subscriptions, walk);
    NothingYet(ends, cursor);
    hide Tally, Gap, GapSum, CountedIn, CoveredTopics;
    FittingIsAccepted(ends, cursor, subscriptions, {}, walk, 0, maxEvents);
  }

  lemma RoomyWalk(ends: EndOffsets, cursor: Cursor, subscriptions: seq<Text>, maxEvents: nat, walk: seq<Text>)
    requires forall t :: t in cursor ==> cursor[t] >= 0
    requires maxEvents <= MAX_INT64 && Walks(walk, cursor)
    requires RoomForSum(ends, cursor, subscriptions, maxEvents)
    ensures Tally(ends, cursor, subscriptions, walk, 0, maxEvents) == Accepted
       <==> PlanFits(ends, cursor, subscriptions, maxEvents, |cursor|)
  {
    CountedIsCovered(cursor, subscriptions, walk);
    NothingYet(ends, cursor);
    hide Tally, Gap, GapSum, CountedIn, CoveredTopics, RoomForSum;
    TallyFitsExactly(ends, cursor, subscriptions, {}, walk, 0, maxEvents);
  }

  lemma WalkedPlanFits(ends: EndOffsets, cursor: Cursor, subscriptions: seq<Text>, maxEvents: nat, maxTopics: nat,
                       walk: seq<Text>)
    requires forall t :: t in cursor ==> cursor[t] >= 0
    requires maxEvents <= MAX_INT64 && Walks(walk, cursor) && |cursor| <= maxTopics
    ensures PlanFits(ends, cursor, subscriptions, maxEvents, maxTopics) ==>
      Tally(ends, cursor, subscriptions, walk, 0, maxEvents) == Accepted
    ensures RoomForSum(ends, cursor, subscriptions, maxEvents) ==>
      (Tally(ends, cursor, subscriptions, walk, 0, maxEvents) == Accepted
       <==> PlanFits(ends, cursor, subscriptions, maxEvents, maxTopics))
  {
    hide Tally, Gap, GapSum, CoveredTopics, RoomForSum, Walks;
    if RoomForSum(ends, cursor, subscriptions, maxEvents) {
      RoomyWalk(ends, cursor, subscriptions, maxEvents, walk);
    }
    if PlanFits(ends, cursor, subscriptions, maxEvents, maxTopics) {
      FittingWalk(ends, cursor, subscriptions, maxEvents, walk);
    }
  }

  /** While all that is counted fits the budget, no sum wraps and none is refused. */
  lemma {:induction false} FittingIsAccepted(ends: EndOffsets, cursor: Cursor, subscriptions: seq<Text>,
                                             done: set<Text>,
                                             walk: seq<Text>, total: int64, maxEvents: nat)
    requires maxEvents <= MAX_INT64 && forall t :: t in cursor ==> cursor[t] >= 0
    requires forall t :: t in walk ==> t in cursor && t !in done
    requires forall i, j :: 0 <= i < j < |walk| ==> walk[i] != walk[j]
    requires done <= cursor.Keys && total == GapSum(ends, cursor, done)
    requires forall t :: t in CountedIn(walk, subscriptions) ==> ends(t).Success? && cursor[t] < MAX_INT64
    requires GapSum(ends, cursor, done + CountedIn(walk, subscriptions)) <= maxEvents
    ensures Tally(ends, cursor, subscriptions, walk, total, maxEvents) == Accepted
    decreases |walk|
  {
    hide Wrap64, Covered;
    if walk != [] {
      var t, rest := walk[0], walk[1..];
      assert walk == [t] + rest && t !in rest;
      if !Covered(t, subscriptions) {
        assert CountedIn(walk, subscriptions) == CountedIn(rest, subscriptions);
        FittingIsAccepted(ends, cursor, subscriptions, done, rest, total, maxEvents);
      } else {
        assert t in CountedIn(walk, subscriptions);
        assert done + CountedIn(walk, subscriptions) == done + {t} + CountedIn(rest, subscriptions);
        GapSumTakesAny(ends, cursor, done + {t}, t);
        assert done + {t} - {t} == done;
        GapSumGrows(ends, cursor, done + {t}, done + CountedIn(walk, subscriptions));
        SumInRange(total as int + Gap(ends, cursor, t));
        var sum: int64 := total as int + Gap(ends, cursor, t);
        FittingIsAccepted(ends, cursor, subscriptions, done + {t}, rest, sum, maxEvents);
      }
    }
  }

  /** For every budget that is at most half of what int64 holds, with no condition on the
      gaps: a plan is accepted in every order exactly when it fits. One that does not is
      refused at least in the order that takes its largest gap, or a bad offset, first. */
  lemma AcceptedInEveryOrderExactly(ends: EndOffsets, cursor: Cursor, subscriptions: seq<Text>, maxEvents: nat)
    requires forall t :: t in cursor ==> cursor[t] >= 0
    requires 2 * maxEvents <= MAX_INT64
    ensures (forall walk :: Walks(walk, cursor) ==> Tally(ends, cursor, subscriptions, walk, 0, maxEvents) == Accepted)
       <==> PlanFits(ends, cursor, subscriptions, maxEvents, |cursor|)
  {
    if PlanFits(ends, cursor, subscriptions, maxEvents, |cursor|) {
      forall walk | Walks(walk, cursor)
        ensures Tally(ends, cursor, subscriptions, walk, 0, maxEvents) == Accepted
      {
        WalkedPlanFits(ends, cursor, subscriptions, maxEvents, |cursor|, walk);
      }
    } else {
      var walk := RefusingWalk(ends, cursor, subscriptions, maxEvents);
    }
  }

  lemma RefusingWalk(ends: EndOffsets, cursor: Cursor, subscriptions: seq<Text>,
                     maxEvents: nat) returns (walk: seq<Text>)
    requires forall t :: t in cursor ==> cursor[t] >= 0
    requires 2 * maxEvents <= MAX_INT64 && !PlanFits(ends, cursor, subscriptions, maxEvents, |cursor|)
    ensures Walks(walk, cursor) && Tally(ends, cursor, subscriptions, walk, 0, maxEvents) != Accepted
  {
    var covered := CoveredTopics(cursor, subscriptions);
    if t :| t in covered && (ends(t).Failure? || cursor[t] == MAX_INT64 || Gap(ends, cursor, t) > maxEvents) {
      var rest := WalkOf(cursor.Keys - {t});
      walk := [t] + rest;
      assert forall i :: 0 <= i < |rest| ==> rest[i] in rest && rest[i] != t;
      TallyStep(ends, cursor, subscriptions, t, rest, 0, maxEvents);
      GapInRange(ends, cursor, t);
      SumInRange(Gap(ends, cursor, t));
    } else {
      walk := WalkOf(cursor.Keys);
      WalkedPlanFits(ends, cursor, subscriptions, maxEvents, |cursor|, walk);
    }
  }

  lemma GapInRange(ends: EndOffsets, cursor: Cursor, t: Text)
    requires t in cursor && cursor[t] >= 0
    ensures Gap(ends, cursor, t) <= MAX_INT64
  {
  }

  /** Every set of topics can be walked. */
  lemma {:induction false} WalkOf(topics: set<Text>) returns (walk: seq<Text>)
    ensures forall t :: t in walk <==> t in topics
    ensures forall i, j :: 0 <= i < j < |walk| ==> walk[i] != walk[j]
    decreases topics
  {
    if topics == {} {
      walk := [];
    } else {
      var t :| t in topics;
      var rest := WalkOf(topics - {t});
      assert forall i :: 0 <= i < |rest| ==> rest[i] in rest && rest[i] != t;
      walk := [t] + rest;
    }
  }

  /** The loop body for one covered topic: its gap is added as int64 adds it. */
  method CountTopic(ends: EndOffsets, cursor: Cursor, topic: Text, total: int64, maxEvents: nat)
    returns (refusal: Option<Verdict>, total': int64)
    requires topic in cursor && cursor[topic] >= 0
    ensures ends(topic).Failure? ==> refusal == Some(EndOffsetFailed)
    ensures ends(topic).Success? && cursor[topic] == MAX_INT64 ==> refusal == Some(InvalidOffset)
    ensures ends(topic).Success? && cursor[topic] < MAX_INT64 ==>
      && total' == Wrap64(total as int + Gap(ends, cursor, topic))
      && refusal == if Gap(ends, cursor, topic) > 0 && total' > maxEvents then Some(TooManyEvents) else None
  {
    total' := total;
    var endOffset := ends(topic);
    if endOffset.Failure? {
      return Some(EndOffsetFailed), total';
    }
    var nextOffset := Wrap64(After(cursor[topic]));
    if nextOffset < 0 {
      return Some(InvalidOffset), total';
    }
    if nextOffset < endOffset.value {
      total' := Wrap64(total as int + (endOffset.value as int - nextOffset as int));
      if total' > maxEvents {
        return Some(TooManyEvents), total';
      }
    }
    return None, total';
  }

  /** Without that room the order matters. For every budget and every gap that does not
      fit beside it there is a plan, of that gap and a small one, that is refused in one
      order and, its sum wrapping, accepted in the other. */
  lemma OrderMattersWithoutRoom(maxEvents: nat, gap: nat, small: Text, large: Text)
    requires small != large && maxEvents < gap < MAX_INT64 < gap + maxEvents
    ensures
      var cursor: Cursor := map[small := 0, large := 0];
      var ends := TwoEnds(small, MAX_INT64 + 2 - gap, gap + 1);
      var subscriptions := [small, large];
      && Walks([small, large], cursor) && Walks([large, small], cursor)
      && Gap(ends, cursor, small) == MAX_INT64 + 1 - gap && Gap(ends, cursor, large) == gap
      && Tally(ends, cursor, subscriptions, [small, large], 0, maxEvents) == Accepted
      && Tally(ends, cursor, subscriptions, [large, small], 0, maxEvents) == TooManyEvents
  {
    var cursor: Cursor := map[small := 0, large := 0];
    var ends := TwoEnds(small, MAX_INT64 + 2 - gap, gap + 1);
    var subscriptions := [small, large];
    assert subscriptions[0] == small && subscriptions[1] == large;
    assert Matches(small, small) && Matches(large, large);
    assert Covered(small, subscriptions) && Covered(large, subscriptions);
    var rest := [large];
    assert [small, large][1..] == rest && rest[1..] == [] && [large, small][1..] == [small];
    var sum: int64 := MAX_INT64 + 1 - gap;
    assert Wrap64(sum as int + gap) == -TWO_TO_THE_63 && Wrap64(sum) == sum && Wrap64(gap) == gap;
    assert Tally(ends, cursor, subscriptions, [], -TWO_TO_THE_63, maxEvents) == Accepted;
    assert Tally(ends, cursor, subscriptions, rest, sum, maxEvents) == Accepted;
  }

  function TwoEnds(small: Text, smallEnd: int64, largeEnd: int64): EndOffsets {
    (t: Text) => if t == small then Success(smallEnd) else Success(largeEnd)
  }

  // ---- replay ----------------------------------------------------------------

  function OfTopic(events: seq<Event>, topic: Text): seq<Event> {
    if events == [] then []
    else (if events[0].topic == topic then [events[0]] else []) + OfTopic(events[1..], topic)
  }

  lemma OfTopicHead(events: seq<Event>, topic: Text)
    requires events != []
    ensures OfTopic(events, topic) ==
      (if events[0].topic == topic then [events[0]] else []) + OfTopic(events[1..], topic)
  {
  }

  lemma {:induction false} OfTopicConcat(a: seq<Event>, b: seq<Event>, topic: Text)
    ensures OfTopic(a + b, topic) == OfTopic(a, topic) + OfTopic(b, topic)
  {
    if a == [] {
      assert a + b == b;
    } else {
      hide OfTopic;
      assert (a + b)[0] == a[0] && (a + b)[1..] == a[1..] + b;
      OfTopicConcat(a[1..], b, topic);
      OfTopicHead(a, topic);
      OfTopicHead(a + b, topic);
    }
  }

  lemma NothingYet(ends: EndOffsets, cursor: Cursor)
    ensures forall t :: OfTopic([], t) == []
    ensures GapSum(ends, cursor, {}) == 0
  {
  }

  lemma {:induction false} OfTopicAll(events: seq<Event>, topic: Text, t: Text)
    requires forall e :: e in events ==> e.topic == topic
    ensures OfTopic(events, t) == if t == topic then events else []
  {
    if events != [] {
      assert events[0] in events;
      OfTopicAll(events[1..], topic, t);
      assert events == [events[0]] + events[1..];
    }
  }

  /** The batches of one topic, from an offset on; writes fail once the budget is used up. */
  method ReplayTopic(log: Log, topic: Text, start: nat, writes: nat) returns (written: seq<Event>, ok: bool)
    requires Placed(log) && EndOffset(log, topic) <= MAX_INT64
    ensures written <= From(log, topic, start)
    ensures ok ==> written == From(log, topic, start)
    ensures !ok ==> |written| == writes < |From(log, topic, start)|
    ensures |written| <= writes
  {
    hide Slice, From, Placed;
    written := [];
    var nextOffset := start;
    ghost var wanted := From(log, topic, start);
    while true
      invariant nextOffset == start + |written|
      invariant written <= wanted && |written| <= writes
      decreases |wanted| - |written|
    {
      var events := Slice(log, topic, nextOffset, REPLAY_BATCH_SIZE);
      NextBatch(log, topic, start, |written|);
      if events == [] {
        return written, true;
      }
      ghost var k := |written|;
      for i := 0 to |events|
        invariant nextOffset == start + |written| && |written| == k + i && |written| <= writes
        invariant written <= wanted
      {
        if |written| == writes {
          return written, false;
        }
        assert events[i] == wanted[k + i];
        written := written + [events[i]];
        nextOffset := events[i].offset + 1;
      }
      if |events| < REPLAY_BATCH_SIZE {
        return written, true;
      }
    }
  }

  /** A batch read at the replay position is the next stretch of what is wanted, and a
      short batch is the last. */
  lemma NextBatch(log: Log, topic: Text, start: nat, k: nat)
    requires Placed(log) && k <= |From(log, topic, start)|
    ensures var wanted, batch := From(log, topic, start), Slice(log, topic, start + k, REPLAY_BATCH_SIZE);
      && k + |batch| <= |wanted|
      && (|batch| < REPLAY_BATCH_SIZE ==> k + |batch| == |wanted|)
      && forall i :: 0 <= i < |batch| ==> batch[i] == wanted[k + i] && batch[i].offset == start + k + i
  {
    if topic in log {
      assert PlacedIn(topic, log[topic]);
    }
  }

  // ---- the loop as steps of the protocol ---------------------------------------

  predicate InReplay(step: Step) {
    step.Fetch? || step.WriteReplay? || step.FinishTopic?
  }

  predicate AllInReplay(steps: seq<Step>) {
    forall i :: 0 <= i < |steps| ==> InReplay(steps[i])
  }

  /** A topic is being replayed, and what is pending is a stretch of the log. */
  ghost predicate AtTopic(s: System) {
    && Placed(s.log) && s.handler.Replaying? && s.handler.current.Some?
    && var r, end := s.handler.current.value, EndOffset(s.log, s.handler.current.value.topic);
       && 0 <= r.next && r.next + |r.pending| <= end
       && r.pending == Events(s.log, r.topic)[r.next..r.next + |r.pending|]
       && (r.last ==> r.next + |r.pending| == end)
  }

  /** What is left to write of the topic that is being replayed. */
  ghost function Remaining(s: System): seq<Event>
    requires AtTopic(s)
  {
    From(s.log, s.handler.current.value.topic, s.handler.current.value.next)
  }

  /** A step that goes on with the topic and moves what is left to the wire. */
  ghost predicate MovesOn(s: System, s': System)
    requires AtTopic(s)
  {
    && AtTopic(s') && s'.log == s.log && s'.handler.current.value.topic == s.handler.current.value.topic
    && s.wire <= s'.wire && s'.wire + Remaining(s') == s.wire + Remaining(s)
  }

  lemma WriteMovesOn(s: System)
    requires AtTopic(s) && Enabled(s, WriteReplay)
    ensures MovesOn(s, Do(s, WriteReplay))
  {
    var r, s' := s.handler.current.value, Do(s, WriteReplay);
    assert PlacedIn(r.topic, s.log[r.topic]);
    assert r.pending[0] == Events(s.log, r.topic)[r.next] && r.pending[0].offset == r.next;
    assert s'.handler.current == Some(r.(next := r.next + 1, pending := r.pending[1..]));
    assert s'.wire == s.wire + [Events(s.log, r.topic)[r.next]] && s'.log == s.log;
    hide Placed, Do;
    FromNext(s.log, r.topic, r.next);
  }

  lemma FetchMovesOn(s: System)
    requires AtTopic(s) && Enabled(s, Fetch)
    ensures MovesOn(s, Do(s, Fetch))
  {
    hide Placed;
  }

  lemma FinishWritesNothing(s: System)
    requires AtTopic(s) && Enabled(s, FinishTopic)
    ensures var s' := Do(s, FinishTopic);
      s'.handler.Replaying? && s'.handler.current == None && s'.wire == s.wire && Remaining(s) == []
  {
    hide Placed;
  }

  lemma FromNext(log: Log, topic: Text, start: nat)
    requires start < EndOffset(log, topic)
    ensures From(log, topic, start) == [Events(log, topic)[start]] + From(log, topic, start + 1)
  {
  }

  lemma ReplayStepWrites(s: System, step: Step)
    requires AtTopic(s) && InReplay(step) && Enabled(s, step)
    ensures step.FinishTopic? ==>
      var s' := Do(s, step);
      s'.handler.Replaying? && s'.handler.current == None && s'.wire == s.wire && Remaining(s) == []
    ensures !step.FinishTopic? ==> MovesOn(s, Do(s, step))
  {
    hide AtTopic, Do, Enabled, From, MovesOn;
    match step
    case Fetch => FetchMovesOn(s);
    case WriteReplay => WriteMovesOn(s);
    case FinishTopic => FinishWritesNothing(s);
  }

  lemma NothingAfterTheTopic(s: System, steps: seq<Step>, end: System)
    requires s.handler.Replaying? && s.handler.current == None
    requires Runs(s, steps, end) && AllInReplay(steps)
    ensures end == s
  {
  }

  lemma IsReplaying(s: System)
    requires AtTopic(s)
    ensures s.handler.Replaying? && s.handler.current.Some?
  {
  }

  lemma {:induction false} ReplayRunWrites(s: System, steps: seq<Step>, end: System)
    requires AtTopic(s) && Runs(s, steps, end) && AllInReplay(steps)
    ensures s.wire <= end.wire <= s.wire + Remaining(s)
    ensures end.handler.Replaying?
    ensures end.handler.current == None ==> end.wire == s.wire + Remaining(s)
    decreases |steps|
  {
    hide Do, Enabled, AtTopic, Remaining;
    IsReplaying(s);
    if steps != [] {
      ReplayStepWrites(s, steps[0]);
      if steps[0].FinishTopic? {
        NothingAfterTheTopic(Do(s, steps[0]), steps[1..], end);
      } else {
        ReplayRunWrites(Do(s, steps[0]), steps[1..], end);
      }
    }
  }

  /** On an unchanging log the replay steps of a topic, however they are cut short, write
      what the loop writes: what follows the cursor, all of it once the topic is done. */
  lemma TopicRunWrites(s: System, t: Text, steps: seq<Step>, end: System)
    requires Sound(s) && Enabled(s, StartTopic(t))
    requires Runs(Do(s, StartTopic(t)), steps, end) && AllInReplay(steps)
    ensures s.wire <= end.wire <= s.wire + From(s.log, t, s.handler.cursor[t] + 1)
    ensures end.handler.Replaying?
    ensures end.handler.current == None ==> end.wire == s.wire + From(s.log, t, s.handler.cursor[t] + 1)
  {
    assert AtTopic(Do(s, StartTopic(t)));
    ReplayRunWrites(Do(s, StartTopic(t)), steps, end);
  }

  ghost function StepsLeft(s: System): nat
    requires AtTopic(s)
  {
    2 * |Remaining(s)| + if s.handler.current.value.pending == [] && !s.handler.current.value.last then 1 else 0
  }

  lemma NextReplayStep(s: System) returns (step: Step)
    requires AtTopic(s) && EndOffset(s.log, s.handler.current.value.topic) <= MAX_INT64
    ensures InReplay(step) && Enabled(s, step)
    ensures !step.FinishTopic? ==> MovesOn(s, Do(s, step)) && StepsLeft(Do(s, step)) < StepsLeft(s)
  {
    var r := s.handler.current.value;
    hide Placed;
    step := if r.pending != [] then WriteReplay else if r.last then FinishTopic else Fetch;
    ReplayStepWrites(s, step);
  }

  lemma StepThenRun(s: System, step: Step, rest: seq<Step>, end: System)
    requires Enabled(s, step) && Runs(Do(s, step), rest, end) && InReplay(step) && AllInReplay(rest)
    ensures Runs(s, [step] + rest, end) && AllInReplay([step] + rest)
  {
    hide Do, Enabled;
    assert ([step] + rest)[1..] == rest;
  }

  /** And they can always be taken to the end of the topic. */
  lemma {:induction false} TopicCanFinish(s: System) returns (steps: seq<Step>, end: System)
    requires AtTopic(s) && EndOffset(s.log, s.handler.current.value.topic) <= MAX_INT64
    ensures Runs(s, steps, end) && AllInReplay(steps)
    ensures end.handler.Replaying? && end.handler.current == None
    decreases StepsLeft(s)
  {
    hide Do, Enabled, AtTopic, StepsLeft, Remaining;
    var step := NextReplayStep(s);
    ReplayStepWrites(s, step);
    if step.FinishTopic? {
      steps, end := [], Do(s, step);
    } else {
      steps, end := TopicCanFinish(Do(s, step));
    }
    StepThenRun(s, step, steps, end);
    steps := [step] + steps;
  }

  ghost function Wanted(log: Log, cursor: Cursor, subscriptions: seq<Text>, t: Text): seq<Event>
    requires t in cursor ==> cursor[t] >= 0
  {
    if t in CoveredTopics(cursor, subscriptions) then From(log, t, After(cursor[t])) else []
  }

  /** What is wanted of a covered topic are the log's events at the offsets after the cursor. */
  lemma WantedFollowsTheCursor(log: Log, cursor: Cursor, subscriptions: seq<Text>, t: Text)
    requires t in cursor && cursor[t] >= 0
    ensures var wanted, left := Wanted(log, cursor, subscriptions, t), EndOffset(log, t) - cursor[t] as int - 1;
      && |wanted| == (if Covered(t, subscriptions) && left > 0 then left else 0)
      && forall i :: 0 <= i < |wanted| ==> wanted[i] == Events(log, t)[cursor[t] as int + 1 + i]
  {
    hide Covered;
  }

  /** The answers of a log whose topics all have room. */
  function EndsOf(log: Log): EndOffsets
    requires RoomEverywhere(log)
  {
    (t: Text) => if t in log && |log[t]| <= MAX_INT64 then Success(|log[t]|) else Success(0)
  }

  /** Of the topics done all that is wanted is written, and of the others nothing. */
  ghost predicate WrittenFor(written: seq<Event>, log: Log, cursor: Cursor, done: set<Text>)
    requires done <= cursor.Keys && forall t :: t in done ==> cursor[t] >= 0
  {
    forall t :: OfTopic(written, t) == if t in done then From(log, t, After(cursor[t])) else []
  }

  lemma NothingWritten(ends: EndOffsets, log: Log, cursor: Cursor)
    ensures WrittenFor([], log, cursor, {})
    ensures GapSum(ends, cursor, {}) == 0
  {
  }

  lemma MoreOfTopic(log: Log, topic: Text, start: nat, written: seq<Event>, more: seq<Event>)
    requires Placed(log) && more <= From(log, topic, start)
    ensures forall t :: OfTopic(written + more, t) == OfTopic(written, t) + if t == topic then more else []
  {
    hide Placed, From, OfTopic;
    forall t
      ensures OfTopic(written + more, t) == OfTopic(written, t) + if t == topic then more else []
    {
      OfTopicConcat(written, more, t);
      FromIsOfTopic(log, topic, start);
      OfTopicAll(more, topic, t);
    }
  }

  lemma OneTopicWritten(log: Log, cursor: Cursor, done: set<Text>, topic: Text, written: seq<Event>, more: seq<Event>)
    requires Placed(log) && done <= cursor.Keys && topic in cursor && topic !in done
    requires cursor[topic] >= 0 && forall t :: t in done ==> cursor[t] >= 0
    requires WrittenFor(written, log, cursor, done) && more == From(log, topic, After(cursor[topic]))
    ensures WrittenFor(written + more, log, cursor, done + {topic})
  {
    hide Placed, From, OfTopic;
    MoreOfTopic(log, topic, After(cursor[topic]), written, more);
    forall t
      ensures OfTopic(written + more, t) == if t in done + {topic} then From(log, t, After(cursor[t])) else []
    {
      assert OfTopic(written, t) == if t in done then From(log, t, After(cursor[t])) else [];
    }
  }

  lemma PartOfTopicWritten(log: Log, cursor: Cursor, subscriptions: seq<Text>, done: set<Text>, topic: Text,
                           written: seq<Event>, more: seq<Event>)
    requires Placed(log) && forall t :: t in cursor ==> cursor[t] >= 0
    requires done <= CoveredTopics(cursor, subscriptions) && topic in CoveredTopics(cursor, subscriptions) - done
    requires WrittenFor(written, log, cursor, done) && more <= From(log, topic, After(cursor[topic]))
    ensures forall t :: OfTopic(written + more, t) <= Wanted(log, cursor, subscriptions, t)
  {
    hide Placed, From, OfTopic, Covered;
    MoreOfTopic(log, topic, After(cursor[topic]), written, more);
    forall t
      ensures OfTopic(written + more, t) <= Wanted(log, cursor, subscriptions, t)
    {
      hide Wanted;
      TopicWritten(log, cursor, subscriptions, done, written, t);
      if t == topic {
        WantedOf(log, cursor, subscriptions, t);
        assert OfTopic(written, t) + more == more;
      } else {
        assert OfTopic(written, t) + [] == OfTopic(written, t);
      }
    }
  }

  lemma WantedOf(log: Log, cursor: Cursor, subscriptions: seq<Text>, t: Text)
    requires t in CoveredTopics(cursor, subscriptions) && cursor[t] >= 0
    ensures Wanted(log, cursor, subscriptions, t) == From(log, t, After(cursor[t]))
  {
  }

  lemma TopicWritten(log: Log, cursor: Cursor, subscriptions: seq<Text>, done: set<Text>, written: seq<Event>, t: Text)
    requires forall u :: u in cursor ==> cursor[u] >= 0
    requires done <= CoveredTopics(cursor, subscriptions) && WrittenFor(written, log, cursor, done)
    ensures OfTopic(written, t) == if t in done then Wanted(log, cursor, subscriptions, t) else []
  {
    hide From, OfTopic, Covered;
    assert OfTopic(written, t) == if t in done then From(log, t, After(cursor[t])) else [];
  }

  lemma TopicsWritten(log: Log, cursor: Cursor, subscriptions: seq<Text>, done: set<Text>, written: seq<Event>)
    requires forall t :: t in cursor ==> cursor[t] >= 0
    requires done <= CoveredTopics(cursor, subscriptions) && WrittenFor(written, log, cursor, done)
    ensures forall t :: OfTopic(written, t) <= Wanted(log, cursor, subscriptions, t)
    ensures done == CoveredTopics(cursor, subscriptions) ==>
      forall t :: OfTopic(written, t) == Wanted(log, cursor, subscriptions, t)
  {
    hide From, OfTopic, Covered;
  }

  lemma OneTopicCounted(log: Log, cursor: Cursor, done: set<Text>, topic: Text)
    requires RoomEverywhere(log) && done <= cursor.Keys && topic in cursor && topic !in done
    requires 0 <= cursor[topic] && forall t :: t in done ==> cursor[t] >= 0
    ensures GapSum(EndsOf(log), cursor, done + {topic}) ==
      GapSum(EndsOf(log), cursor, done) + |From(log, topic, After(cursor[topic]))|
  {
    hide GapSum, Gap, From, EndsOf, RoomEverywhere;
    GapIsWhatFollows(log, cursor, topic);
    GapSumTakesAny(EndsOf(log), cursor, done + {topic}, topic);
    assert done + {topic} - {topic} == done;
  }

  /** On an unchanging log, replay ends; unless a write fails or a covered offset is the
      last one, it has written, per covered cursor topic, exactly what follows the cursor:
      as many events as the plan counted. */
  method ReplayCursor(log: Log, cursor: Cursor, subscriptions: seq<Text>, writes: nat)
    returns (written: seq<Event>, ok: bool)
    requires Placed(log) && RoomEverywhere(log)
    requires forall t :: t in cursor ==> 0 <= cursor[t]
    ensures ok ==> forall t :: OfTopic(written, t) == Wanted(log, cursor, subscriptions, t)
    ensures ok ==> |written| == GapSum(EndsOf(log), cursor, CoveredTopics(cursor, subscriptions))
    ensures !ok && |written| != writes ==>
      exists t :: (t in CoveredTopics(cursor, subscriptions) && cursor[t] == MAX_INT64)
    ensures ok ==> forall t :: t in CoveredTopics(cursor, subscriptions) ==> cursor[t] < MAX_INT64
    ensures forall t :: OfTopic(written, t) <= Wanted(log, cursor, subscriptions, t)
  {
    hide Covered, From, OfTopic, GapSum, Wrap64, Placed, EndsOf, WrittenFor, Wanted;
    written, ok := [], true;
    NothingWritten(EndsOf(log), log, cursor);
    ghost var covered := CoveredTopics(cursor, subscriptions);
    ghost var done: set<Text> := {};
    var rest := cursor.Keys;
    while rest != {}
      invariant rest <= cursor.Keys && |written| <= writes
      invariant forall t :: t in done <==> t in covered && t !in rest
      invariant WrittenFor(written, log, cursor, done) && |written| == GapSum(EndsOf(log), cursor, done)
      invariant forall t :: t in done ==> cursor[t] < MAX_INT64
      decreases rest
    {
      TopicsWritten(log, cursor, subscriptions, done, written);
      var topic :| topic in rest;
      rest := rest - {topic};
      var isCovered := TopicCovered(topic, subscriptions);
      if isCovered {
        // reading from a negative offset is an error
        NextOffset(cursor[topic]);
        var nextOffset := Wrap64(After(cursor[topic]));
        if nextOffset < 0 {
          assert topic in covered;
          return written, false;
        }
        var more;
        more, ok := ReplayTopic(log, topic, nextOffset, writes - |written|);
        if !ok {
          PartOfTopicWritten(log, cursor, subscriptions, done, topic, written, more);
          return written + more, false;
        }
        OneTopicWritten(log, cursor, done, topic, written, more);
        OneTopicCounted(log, cursor, done, topic);
        written, done := written + more, done + {topic};
      }
    }
    assert done == covered;
    TopicsWritten(log, cursor, subscriptions, done, written);
  }

  lemma NextOffset(offset: int64)
    requires offset >= 0
    ensures offset < MAX_INT64 ==> Wrap64(After(offset)) == After(offset)
    ensures offset == MAX_INT64 ==> Wrap64(After(offset)) < 0
  {
  }

  lemma GapIsWhatFollows(log: Log, cursor: Cursor, topic: Text)
    requires RoomEverywhere(log) && topic in cursor && cursor[topic] >= 0
    ensures |From(log, topic, After(cursor[topic]))| == Gap(EndsOf(log), cursor, topic)
  {
  }

  lemma FromIsOfTopic(log: Log, topic: Text, start: nat)
    requires Placed(log)
    ensures forall e :: e in From(log, topic, start) ==> e.topic == topic
  {
    if topic in log {
      assert PlacedIn(topic, log[topic]);
    }
  }
}
