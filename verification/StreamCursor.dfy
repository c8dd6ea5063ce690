/** The resume cursor that a streaming client keeps of the events it has parsed. */
module StreamCursor {
  import opened Basics

  datatype EventCursor = EventCursor(nodeId: Text, topic: Text, offset: int64)

  datatype Resume = Resume(nodeId: Text, offsets: map<Text, int64>)

  predicate Decodable(c: EventCursor) {
    c.nodeId != [] && c.topic != [] && c.offset >= 0
  }

  function Recorded(r: Resume, c: EventCursor): Resume {
    var offsets := if r.nodeId == [] || r.nodeId == c.nodeId then r.offsets else map[];
    Resume(c.nodeId,
           if c.topic !in offsets || c.offset > offsets[c.topic] then offsets[c.topic := c.offset] else offsets)
  }

  function RecordedAll(r: Resume, cs: seq<EventCursor>): Resume
    decreases |cs|
  {
    if cs == [] then r else RecordedAll(Recorded(r, cs[0]), cs[1..])
  }

  /** value is the largest offset of the topic among those held and those recorded. */
  ghost predicate IsMaximum(held: map<Text, int64>, cs: seq<EventCursor>, topic: Text, value: int64) {
    && ((topic in held && held[topic] == value) || exists c :: c in cs && c.topic == topic && c.offset == value)
    && (topic in held ==> held[topic] <= value)
    && (forall c :: c in cs && c.topic == topic ==> c.offset <= value)
  }

  /** While one node serves the stream, the cursor holds each topic's maximum,
      whatever order and however often offsets arrive. */
  lemma {:induction false} CursorHoldsMaxima(r: Resume, cs: seq<EventCursor>, node: Text, topic: Text)
    requires node != [] && r.nodeId in {[], node} && forall c :: c in cs ==> c.nodeId == node
    ensures topic in RecordedAll(r, cs).offsets <==>
      topic in r.offsets || exists c :: c in cs && c.topic == topic
    ensures topic in RecordedAll(r, cs).offsets ==>
      IsMaximum(r.offsets, cs, topic, RecordedAll(r, cs).offsets[topic])
    decreases |cs|
  {
    if cs != [] {
      assert cs[0] in cs && forall c :: c in cs <==> c == cs[0] || c in cs[1..];
      CursorHoldsMaxima(Recorded(r, cs[0]), cs[1..], node, topic);
    }
  }

  lemma {:induction false} RecordedInTwo(r: Resume, a: seq<EventCursor>, b: seq<EventCursor>)
    ensures RecordedAll(r, a + b) == RecordedAll(RecordedAll(r, a), b)
    decreases |a|
  {
    if a == [] {
      assert a + b == b;
    } else {
      assert (a + b)[1..] == a[1..] + b;
      RecordedInTwo(Recorded(r, a[0]), a[1..], b);
    }
  }

  /** The node of the latest event, or of the cursor when there is none. */
  function LastNode(r: Resume, cs: seq<EventCursor>): Text {
    if cs == [] then r.nodeId else cs[|cs| - 1].nodeId
  }

  lemma HeldNodeIsTheLast(r: Resume, cs: seq<EventCursor>)
    ensures RecordedAll(r, cs).nodeId == LastNode(r, cs)
  {
    if cs != [] {
      var k := |cs| - 1;
      assert cs == cs[..k] + [cs[k]] && [cs[k]][1..] == [];
      RecordedInTwo(r, cs[..k], [cs[k]]);
    }
  }

  lemma ChangeStartsOver(r: Resume, x: EventCursor)
    requires r.nodeId != [] && x.nodeId != r.nodeId
    ensures Recorded(r, x) == Recorded(Resume([], map[]), x)
  {
  }

  /** When another node takes over, nothing of what was held before remains: the cursor is
      of the new node, holds the topics of its events and no other, and of each the maximum. */
  lemma NewNodeStartsOver(r: Resume, before: seq<EventCursor>, x: EventCursor, after: seq<EventCursor>, topic: Text)
    requires forall c :: c in before + [x] + after ==> Decodable(c)
    requires LastNode(r, before) != [] && x.nodeId != LastNode(r, before)
    requires forall c :: c in after ==> c.nodeId == x.nodeId
    ensures var held := RecordedAll(r, before + [x] + after);
      && held.nodeId == x.nodeId
      && (topic in held.offsets <==> exists c :: c in [x] + after && c.topic == topic)
      && (topic in held.offsets ==>
           && (exists c :: c in [x] + after && c.topic == topic && c.offset == held.offsets[topic])
           && (forall c :: c in [x] + after && c.topic == topic ==> c.offset <= held.offsets[topic]))
  {
    hide Recorded;
    var cs := [x] + after;
    assert before + [x] + after == before + cs && cs[0] == x && cs[1..] == after;
    assert x in before + [x] + after && Decodable(x);
    RecordedInTwo(r, before, cs);
    HeldNodeIsTheLast(r, before);
    ChangeStartsOver(RecordedAll(r, before), x);
    CursorHoldsMaxima(Resume([], map[]), cs, x.nodeId, topic);
    HeldNodeIsTheLast(Resume([], map[]), cs);
    assert cs[|cs| - 1] in cs && forall c :: c in cs <==> c == x || c in after;
  }

  class StreamClient {
    var resumeNodeID: Text
    var resumeOffsets: map<Text, int64>

    ghost function View(): Resume
      reads this
    {
      Resume(resumeNodeID, resumeOffsets)
    }

    constructor ()
      ensures View() == Resume([], map[])
    {
      resumeNodeID, resumeOffsets := [], map[];
    }

    // decoded is what the event ID decodes to, when it is present and decodes at all.
    method RecordResumeEventID(decoded: Option<EventCursor>)
      requires decoded.Some? ==> Decodable(decoded.value)
      modifies this
      ensures View() == if decoded.Some? then Recorded(old(View()), decoded.value) else old(View())
    {
      if decoded.None? {
        return;
      }
      var cursor := decoded.value;
      if resumeNodeID == [] {
        resumeNodeID := cursor.nodeId;
      }
      if resumeNodeID != cursor.nodeId {
        resumeNodeID := cursor.nodeId;
        resumeOffsets := map[];
      }
      if cursor.topic !in resumeOffsets || cursor.offset > resumeOffsets[cursor.topic] {
        resumeOffsets := resumeOffsets[cursor.topic := cursor.offset];
      }
    }

    method ResumeCursorHeader() returns (header: Option<Resume>)
      ensures header == if resumeOffsets == map[] || resumeNodeID == [] then None else Some(View())
    {
      if |resumeOffsets| == 0 {
        return None;
      }
      var offsets: map<Text, int64> := map[];
      var rest := resumeOffsets.Keys;
      while rest != {}
        invariant rest <= resumeOffsets.Keys
        invariant offsets == map t | t in resumeOffsets && t !in rest :: resumeOffsets[t]
        decreases rest
      {
        var topic :| topic in rest;
        offsets := offsets[topic := resumeOffsets[topic]];
        rest := rest - {topic};
      }
      assert offsets == resumeOffsets;
      if resumeNodeID == [] || |offsets| == 0 {
        return None;
      }
      return Some(Resume(resumeNodeID, offsets));
    }
  }
}
