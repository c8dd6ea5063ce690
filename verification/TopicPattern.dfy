/** Subscription patterns: dot-separated segments, of which "*" matches any one. */
module TopicPattern {
  import opened Basics

  const DOT: byte := 0x2e
  const STAR: byte := 0x2a

  // strings.Split(s, ".")
  function Split(s: Text): (parts: seq<Text>)
    ensures parts != []
  {
    if s == [] then [[]]
    else
      var rest := Split(s[1..]);
      if s[0] == DOT then [[]] + rest else [[s[0]] + rest[0]] + rest[1..]
  }

  function Join(parts: seq<Text>): Text
    requires parts != []
  {
    if |parts| == 1 then parts[0] else parts[0] + [DOT] + Join(parts[1..])
  }

  lemma JoinPrepend(c: byte, first: Text, more: seq<Text>)
    ensures Join([[c] + first] + more) == [c] + Join([first] + more)
  {
    var longer := [[c] + first] + more;
    assert longer[1..] == more && ([first] + more)[1..] == more;
    if more != [] {
      assert Join(longer) == ([c] + first) + [DOT] + Join(more);
      assert ([c] + first) + [DOT] + Join(more) == [c] + (first + [DOT] + Join(more));
    }
  }

  lemma JoinEmptySegment(parts: seq<Text>)
    requires parts != []
    ensures Join([[]] + parts) == [DOT] + Join(parts)
  {
    assert ([[]] + parts)[1..] == parts;
    assert [] + [DOT] == [DOT];
  }

  lemma {:induction false} JoinSplit(s: Text)
    ensures Join(Split(s)) == s
  {
    if s != [] {
      JoinSplit(s[1..]);
      var rest := Split(s[1..]);
      assert rest == [rest[0]] + rest[1..];
      if s[0] == DOT {
        JoinEmptySegment(rest);
      } else {
        JoinPrepend(s[0], rest[0], rest[1..]);
      }
    }
  }

  lemma {:induction false} SegmentsHaveNoDot(s: Text)
    ensures forall p :: p in Split(s) ==> DOT !in p
  {
    if s != [] {
      SegmentsHaveNoDot(s[1..]);
      var rest := Split(s[1..]);
      assert rest[0] in rest && forall p :: p in rest[1..] ==> p in rest;
    }
  }

  lemma {:induction false} SplitAtDot(segment: Text, rest: Text)
    requires DOT !in segment
    ensures Split(segment) == [segment] && Split(segment + [DOT] + rest) == [segment] + Split(rest)
  {
    var s := segment + [DOT] + rest;
    if segment == [] {
      assert s[0] == DOT && s[1..] == rest;
    } else {
      var tail := segment[1..];
      assert segment == [segment[0]] + tail && segment[0] != DOT;
      assert s[0] == segment[0] && s[1..] == tail + [DOT] + rest;
      SplitAtDot(tail, rest);
    }
  }

  /** Splitting gives back whatever segments were joined: it cuts at every dot and nowhere else. */
  lemma {:induction false} SplitJoin(parts: seq<Text>)
    requires parts != [] && forall p :: p in parts ==> DOT !in p
    ensures Split(Join(parts)) == parts
    decreases |parts|
  {
    assert parts[0] in parts;
    if |parts| == 1 {
      SplitAtDot(parts[0], []);
    } else {
      SplitJoin(parts[1..]);
      SplitAtDot(parts[0], Join(parts[1..]));
    }
  }

  predicate SegmentsMatch(pattern: seq<Text>, topic: seq<Text>) {
    && |pattern| == |topic|
    && forall i :: 0 <= i < |pattern| ==> pattern[i] == [STAR] || pattern[i] == topic[i]
  }

  predicate Matches(pattern: Text, topic: Text) {
    SegmentsMatch(Split(pattern), Split(topic))
  }

  /** The equality fast path changes nothing. */
  method MatchesPattern(pattern: Text, topic: Text) returns (matches: bool)
    ensures matches == Matches(pattern, topic)
  {
    if pattern == topic {
      return true;
    }
    var patternParts, topicParts := Split(pattern), Split(topic);
    if |patternParts| != |topicParts| {
      return false;
    }
    for i := 0 to |patternParts|
      invariant SegmentsMatch(patternParts[..i], topicParts[..i])
    {
      if patternParts[i] != [STAR] && patternParts[i] != topicParts[i] {
        return false;
      }
    }
    assert patternParts[..|patternParts|] == patternParts && topicParts[..|patternParts|] == topicParts;
    return true;
  }

  /** The law of matching, in terms of segments alone: as many on either side, and each of
      the pattern's is "*" or the topic's. */
  lemma MatchesSegmentwise(ps: seq<Text>, ts: seq<Text>)
    requires ps != [] && ts != []
    requires (forall p :: p in ps ==> DOT !in p) && (forall t :: t in ts ==> DOT !in t)
    ensures Matches(Join(ps), Join(ts)) <==>
      |ps| == |ts| && forall i :: 0 <= i < |ps| ==> ps[i] == [STAR] || ps[i] == ts[i]
  {
    SplitJoin(ps);
    SplitJoin(ts);
  }

  /** A pattern without a "*" segment matches its own topic and no other. */
  lemma LiteralMatchesOnlyItself(pattern: Text, topic: Text)
    requires [STAR] !in Split(pattern)
    ensures Matches(pattern, topic) <==> pattern == topic
  {
    JoinSplit(pattern);
    JoinSplit(topic);
    if Matches(pattern, topic) {
      assert Split(pattern) == Split(topic);
    }
  }

  /** "*" alone matches the one-segment topics: those without a dot. */
  lemma {:induction false} StarMatchesOneSegment(topic: Text)
    ensures Matches([STAR], topic) <==> DOT !in topic
  {
    var star: Text := [STAR];
    assert star[1..] == [] && Split(star[1..]) == [[]];
    assert [star[0]] + [] == star;
    assert Split(star) == [star];
    OneSegment(topic);
  }

  lemma {:induction false} OneSegment(topic: Text)
    ensures |Split(topic)| == 1 <==> DOT !in topic
  {
    if topic != [] {
      OneSegment(topic[1..]);
      assert topic == [topic[0]] + topic[1..];
    }
  }

  // topicCoveredBySubscriptions
  predicate Covered(topic: Text, patterns: seq<Text>) {
    exists i :: 0 <= i < |patterns| && Matches(patterns[i], topic)
  }

  method TopicCovered(topic: Text, patterns: seq<Text>) returns (covered: bool)
    ensures covered == Covered(topic, patterns)
  {
    for i := 0 to |patterns|
      invariant forall j :: 0 <= j < i ==> !Matches(patterns[j], topic)
    {
      var matches := MatchesPattern(patterns[i], topic);
      if matches {
        return true;
      }
    }
    return false;
  }
}
