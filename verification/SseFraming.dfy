/** The text of an event stream: what the server writes and how the client reads it. */
module SseFraming {
  import opened Basics

  // A stream is text here, characters rather than bytes, because trimming goes by characters.
  // The body stands for everything a message carries besides its event ID.
  datatype EventMessage = EventMessage(eventId: string, body: string)

  /** JSON, of which it matters that it is one line and decodes to what it encodes. */
  datatype Codec = Codec(marshal: EventMessage -> Option<string>, unmarshal: string -> Option<EventMessage>) {
    ghost predicate Faithful() {
      forall m :: marshal(m).Some? ==> unmarshal(marshal(m).value) == Some(m) && OneLine(marshal(m).value)
    }
  }

  predicate OneLine(data: string) {
    '\n' !in data && !(data != "" && data[|data| - 1] == '\r')
  }

  datatype Frame = Message(message: EventMessage) | Comment(text: string)

  datatype WriteError = NoEventId | MarshalFailed

  // ---- writing -----------------------------------------------------------------

  function MessageText(id: string, data: string): string {
    ("id: " + id + "\n") + ("data: " + data + "\n" + ("" + "\n"))
  }

  predicate Writable(codec: Codec, f: Frame) {
    match f
    case Message(m) => m.eventId != "" && codec.marshal(m).Some?
    case Comment(text) => '\n' !in text
  }

  function Render(codec: Codec, f: Frame): string
    requires Writable(codec, f)
  {
    match f
    case Message(m) => MessageText(m.eventId, codec.marshal(m).value)
    case Comment(text) => ": " + text + "\n" + ("" + "\n")
  }

  function RenderAll(codec: Codec, frames: seq<Frame>): string
    requires forall f :: f in frames ==> Writable(codec, f)
  {
    if frames == [] then "" else Render(codec, frames[0]) + RenderAll(codec, frames[1..])
  }

  /** Appends a message to the stream, or refuses it. */
  method WriteSSEMessage(codec: Codec, stream: string, m: EventMessage)
    returns (after: string, error: Option<WriteError>)
    ensures error == None <==> Writable(codec, Message(m))
    ensures error == Some(NoEventId) <==> m.eventId == ""
    ensures after == if error == None then stream + Render(codec, Message(m)) else stream
  {
    if m.eventId == "" {
      return stream, Some(NoEventId);
    }
    var data := codec.marshal(m);
    if data.None? {
      return stream, Some(MarshalFailed);
    }
    return stream + MessageText(m.eventId, data.value), None;
  }

  // ---- reading -------------------------------------------------------------------

  function DropCR(line: string): string {
    if line != "" && line[|line| - 1] == '\r' then line[..|line| - 1] else line
  }

  function LineEnd(text: string): (n: nat)
    ensures n <= |text| && '\n' !in text[..n]
    ensures n < |text| ==> text[n] == '\n'
  {
    if text == "" || text[0] == '\n' then 0
    else
      var n := LineEnd(text[1..]);
      assert text[..n + 1] == [text[0]] + text[1..][..n];
      n + 1
  }

  // bufio.ScanLines: a last line without a newline still counts.
  function Lines(text: string): seq<string>
    decreases |text|
  {
    if text == "" then []
    else
      var n := LineEnd(text);
      [DropCR(text[..n])] + if n < |text| then Lines(text[n + 1..]) else []
  }

  // unicode.IsSpace
  predicate IsSpace(c: char) {
    || '\t' <= c <= '\r' || c == ' ' || c == '\U{0085}' || c == '\U{00A0}' || c == '\U{1680}'
    || '\U{2000}' <= c <= '\U{200a}' || c == '\U{2028}' || c == '\U{2029}' || c == '\U{202f}'
    || c == '\U{205f}' || c == '\U{3000}'
  }

  function TrimSpace(s: string): (r: string)
    ensures |r| <= |s|
    ensures r == s <==> (s == "" || (!IsSpace(s[0]) && !IsSpace(s[|s| - 1])))
    ensures r == "" || (!IsSpace(r[0]) && !IsSpace(r[|r| - 1]))
    ensures forall c :: c in r ==> c in s
    decreases |s|
  {
    if s == "" then ""
    else if IsSpace(s[0]) then TrimSpace(s[1..])
    else if IsSpace(s[|s| - 1]) then TrimSpace(s[..|s| - 1])
    else s
  }

  // parseSSEField for a field name with its colon
  function Field(line: string, name: string): (value: seq<string>)
    ensures |value| <= 1
  {
    if name <= line then
      var value := line[|name|..];
      [if " " <= value then value[1..] else value]
    else []
  }

  /** An ID in the body goes before the one of the id line. */
  function Stamped(m: EventMessage, current: string): EventMessage {
    if m.eventId == "" then m.(eventId := current) else m
  }

  function Decoded(codec: Codec, line: string): Option<EventMessage> {
    if Field(line, "data:") == [] then None else codec.unmarshal(Field(line, "data:")[0])
  }

  // Data that do not decode are skipped and leave the pending ID alone.
  function ParseLines(codec: Codec, lines: seq<string>, current: string): seq<EventMessage>
    decreases |lines|
  {
    if lines == [] then []
    else if Field(lines[0], "id:") != [] then ParseLines(codec, lines[1..], TrimSpace(Field(lines[0], "id:")[0]))
    else if Decoded(codec, lines[0]).Some? then
      [Stamped(Decoded(codec, lines[0]).value, current)] + ParseLines(codec, lines[1..], "")
    else ParseLines(codec, lines[1..], current)
  }

  /** The ID pending after some lines. */
  function Pending(codec: Codec, lines: seq<string>, current: string): string
    decreases |lines|
  {
    if lines == [] then current
    else if Field(lines[0], "id:") != [] then Pending(codec, lines[1..], TrimSpace(Field(lines[0], "id:")[0]))
    else Pending(codec, lines[1..], if Decoded(codec, lines[0]).Some? then "" else current)
  }

  function Read(codec: Codec, text: string): seq<EventMessage> {
    ParseLines(codec, Lines(text), "")
  }

  lemma NothingRead(codec: Codec, current: string)
    ensures ParseLines(codec, Lines(""), current) == []
  {
  }

  lemma ReadOneLine(codec: Codec, text: string, current: string)
    requires text != ""
    ensures
      var n := LineEnd(text);
      var line := DropCR(text[..n]);
      var rest := if n < |text| then text[n + 1..] else "";
      ParseLines(codec, Lines(text), current) ==
        if Field(line, "id:") != [] then ParseLines(codec, Lines(rest), TrimSpace(Field(line, "id:")[0]))
        else if Decoded(codec, line).Some? then
          [Stamped(Decoded(codec, line).value, current)] + ParseLines(codec, Lines(rest), "")
        else ParseLines(codec, Lines(rest), current)
  {
    hide TrimSpace, Field, ParseLines, Lines, DropCR, Decoded;
    var n := LineEnd(text);
    LinesStep(text);
    ParseLinesStep(codec, DropCR(text[..n]), Lines(if n < |text| then text[n + 1..] else ""), current);
  }

  lemma LinesStep(text: string)
    requires text != ""
    ensures var n := LineEnd(text);
      Lines(text) == [DropCR(text[..n])] + Lines(if n < |text| then text[n + 1..] else "")
  {
  }

  lemma ParseLinesStep(codec: Codec, line: string, rest: seq<string>, current: string)
    ensures ParseLines(codec, [line] + rest, current) ==
      if Field(line, "id:") != [] then ParseLines(codec, rest, TrimSpace(Field(line, "id:")[0]))
      else if Decoded(codec, line).Some? then
        [Stamped(Decoded(codec, line).value, current)] + ParseLines(codec, rest, "")
      else ParseLines(codec, rest, current)
    ensures Pending(codec, [line] + rest, current) ==
      if Field(line, "id:") != [] then Pending(codec, rest, TrimSpace(Field(line, "id:")[0]))
      else Pending(codec, rest, if Decoded(codec, line).Some? then "" else current)
  {
    hide TrimSpace, Field, Decoded;
    assert ([line] + rest)[1..] == rest;
  }

  /** The client's loop, one scanned line at a time. */
  method ProcessStream(codec: Codec, text: string) returns (events: seq<EventMessage>)
    ensures events == Read(codec, text)
  {
    hide ParseLines, TrimSpace, Field, Lines, DropCR;
    events := [];
    var currentEventID := "";
    var rest := text;
    assert [] + ParseLines(codec, Lines(rest), currentEventID) == Read(codec, text);
    while rest != ""
      invariant events + ParseLines(codec, Lines(rest), currentEventID) == Read(codec, text)
      decreases |rest|
    {
      ReadOneLine(codec, rest, currentEventID);
      var n := LineEnd(rest);
      var line := DropCR(rest[..n]);
      rest := if n < |rest| then rest[n + 1..] else "";
      var id, data := Field(line, "id:"), Field(line, "data:");
      if id != [] {
        currentEventID := TrimSpace(id[0]);
      } else if data != [] {
        var event := codec.unmarshal(data[0]);
        if event.Some? {
          var e := event.value;
          if e.eventId == "" {
            e := e.(eventId := currentEventID);
          }
          ghost var more := ParseLines(codec, Lines(rest), "");
          assert events + ([e] + more) == (events + [e]) + more;
          events := events + [e];
          currentEventID := "";
        }
      }
    }
    NothingRead(codec, currentEventID);
  }

  // ---- texts and lines put together --------------------------------------------------

  lemma EndsInLine(a: string)
    requires a != "" && a[|a| - 1] == '\n'
    ensures LineEnd(a) < |a|
  {
    var n := LineEnd(a);
    assert forall i :: 0 <= i < n ==> a[i] == a[..n][i];
  }

  lemma {:induction false} LinesJoin(a: string, b: string)
    requires a != "" && a[|a| - 1] == '\n'
    ensures Lines(a + b) == Lines(a) + Lines(b)
    decreases |a|
  {
    hide Lines, DropCR;
    var n := LineEnd(a);
    EndsInLine(a);
    SameLineEnd(a, b);
    LinesStep(a);
    LinesStep(a + b);
    var rest := a[n + 1..];
    assert (a + b)[..n] == a[..n] && (a + b)[n + 1..] == rest + b;
    if rest == "" {
      assert rest + b == b;
      NoLines();
    } else {
      LinesJoin(rest, b);
    }
  }

  lemma NoLines()
    ensures Lines("") == []
  {
  }

  lemma SameLineEnd(a: string, b: string)
    requires LineEnd(a) < |a|
    ensures LineEnd(a + b) == LineEnd(a)
  {
    var n, k := LineEnd(a), LineEnd(a + b);
    assert (a + b)[n] == '\n';
    assert (a + b)[..n] == a[..n] && forall i :: 0 <= i < n ==> (a + b)[i] == a[..n][i];
    assert forall i :: 0 <= i < k ==> (a + b)[i] == (a + b)[..k][i];
  }

  lemma {:induction false} ParseJoin(codec: Codec, a: seq<string>, b: seq<string>, current: string)
    ensures ParseLines(codec, a + b, current)
         == ParseLines(codec, a, current) + ParseLines(codec, b, Pending(codec, a, current))
    decreases |a|
  {
    hide ParseLines, Pending, Field, Decoded, TrimSpace;
    if a == [] {
      assert a + b == b;
      NoneParsed(codec, current);
    } else {
      var line, rest := a[0], a[1..];
      assert a == [line] + rest && a + b == [line] + (rest + b);
      ParseLinesStep(codec, line, rest, current);
      ParseLinesStep(codec, line, rest + b, current);
      if Field(line, "id:") != [] {
        ParseJoin(codec, rest, b, TrimSpace(Field(line, "id:")[0]));
      } else {
        ParseJoin(codec, rest, b, if Decoded(codec, line).Some? then "" else current);
      }
    }
  }

  lemma NoneParsed(codec: Codec, current: string)
    ensures ParseLines(codec, [], current) == [] && Pending(codec, [], current) == current
  {
  }

  lemma OneLineText(line: string)
    requires '\n' !in line
    ensures Lines(line + "\n") == [DropCR(line)]
  {
    var text := line + "\n";
    var n := LineEnd(text);
    assert forall i :: 0 <= i < n ==> text[i] == text[..n][i];
    assert forall i :: 0 <= i < |line| ==> text[i] == line[i];
    assert text[..n] == line;
  }

  // ---- one message -------------------------------------------------------------------

  function IdLines(id: string): seq<string> {
    Lines("id: " + id + "\n")
  }

  /** Nothing in the ID reads as a message of its own. */
  predicate Quiet(codec: Codec, id: string) {
    forall l :: l in IdLines(id) ==> Field(l, "id:") != [] || Decoded(codec, l).None?
  }

  lemma {:induction false} NothingDecodedExactly(codec: Codec, lines: seq<string>, current: string)
    ensures ParseLines(codec, lines, current) == [] <==>
      forall l :: l in lines ==> Field(l, "id:") != [] || Decoded(codec, l).None?
    decreases |lines|
  {
    hide Field, Decoded, TrimSpace;
    if lines != [] {
      assert forall l :: l in lines <==> l == lines[0] || l in lines[1..];
      if Field(lines[0], "id:") != [] {
        NothingDecodedExactly(codec, lines[1..], TrimSpace(Field(lines[0], "id:")[0]));
      } else {
        NothingDecodedExactly(codec, lines[1..], current);
      }
    }
  }

  lemma NoNewlineIsQuiet(codec: Codec, id: string)
    requires '\n' !in id
    ensures IdLines(id) == ["id: " + DropCR(id)] && Quiet(codec, id)
    ensures Pending(codec, IdLines(id), "") == TrimSpace(DropCR(id))
  {
    hide TrimSpace;
    OneLineText("id: " + id);
    var line := "id: " + DropCR(id);
    assert DropCR("id: " + id) == line;
    assert line[3..] == " " + DropCR(id) && Field(line, "id:") == [DropCR(id)];
    var lines := [line];
    assert lines[1..] == [];
  }

  /** A message is read as what its ID hides, if anything, and what its data decode to. */
  lemma MessageRead(codec: Codec, id: string, data: string, rest: string, current: string)
    requires OneLine(data)
    ensures
      var hidden, pending := ParseLines(codec, IdLines(id), current), Pending(codec, IdLines(id), current);
      ParseLines(codec, Lines(MessageText(id, data) + rest), current) ==
        match codec.unmarshal(data)
        case Some(m) => hidden + ([Stamped(m, pending)] + ParseLines(codec, Lines(rest), ""))
        case None => hidden + ParseLines(codec, Lines(rest), pending)
  {
    hide ParseLines, Lines, TrimSpace, Field, Decoded, Pending;
    var x, d := "id: " + id + "\n", "data: " + data + "\n";
    assert MessageText(id, data) + rest == x + (d + ("\n" + rest));
    LinesJoin(x, d + ("\n" + rest));
    LinesJoin(d, "\n" + rest);
    LinesJoin("\n", rest);
    OneLineText("data: " + data);
    OneLineText("");
    assert "" + "\n" == "\n" && DropCR("data: " + data) == "data: " + data;
    DataLine(codec, data);
    var pending := Pending(codec, IdLines(id), current);
    ParseJoin(codec, IdLines(id), ["data: " + data] + ([""] + Lines(rest)), current);
    ParseLinesStep(codec, "data: " + data, [""] + Lines(rest), pending);
    ParseLinesStep(codec, "", Lines(rest), "");
    ParseLinesStep(codec, "", Lines(rest), pending);
  }

  lemma DataLine(codec: Codec, data: string)
    ensures Field("data: " + data, "id:") == [] && Decoded(codec, "data: " + data) == codec.unmarshal(data)
    ensures Field("", "id:") == [] && Decoded(codec, "") == None
  {
    var line := "data: " + data;
    assert line[0] == 'd' && line[5..] == " " + data && Field(line, "data:") == [data];
  }

  /** A comment is read as nothing, and leaves a pending ID alone. */
  lemma CommentRead(codec: Codec, text: string, rest: string, current: string)
    requires '\n' !in text
    ensures ParseLines(codec, Lines(Render(codec, Comment(text)) + rest), current)
         == ParseLines(codec, Lines(rest), current)
  {
    hide ParseLines, Lines;
    var x := ": " + text;
    assert Render(codec, Comment(text)) + rest == (x + "\n") + ("\n" + rest);
    LinesJoin(x + "\n", "\n" + rest);
    LinesJoin("\n", rest);
    OneLineText(x);
    OneLineText("");
    assert "" + "\n" == "\n";
    assert DropCR(x)[0] == ':';
    assert Field(DropCR(x), "id:") == [] && Field(DropCR(x), "data:") == [];
    ParseLinesStep(codec, DropCR(x), [""] + Lines(rest), current);
    DataLine(codec, "");
    ParseLinesStep(codec, "", Lines(rest), current);
  }

  /** A body without an ID, such as another server may send, takes the ID of its id line,
      without the space around it. */
  lemma BodyWithoutIdTakesTheLines(codec: Codec, id: string, data: string)
    requires OneLine(data) && '\n' !in id
    requires codec.unmarshal(data).Some? && codec.unmarshal(data).value.eventId == ""
    ensures Read(codec, MessageText(id, data)) == [codec.unmarshal(data).value.(eventId := TrimSpace(DropCR(id)))]
  {
    hide ParseLines, Lines, Pending, TrimSpace;
    MessageRead(codec, id, data, "", "");
    NothingRead(codec, "");
    NoNewlineIsQuiet(codec, id);
    NothingDecodedExactly(codec, IdLines(id), "");
    assert MessageText(id, data) + "" == MessageText(id, data);
  }

  lemma FieldValue(name: string, value: string)
    ensures Field(name + " " + value, name) == [value]
    ensures (value == "" || value[0] != ' ') ==> Field(name + value, name) == [value]
  {
    var spaced := " " + value;
    assert name + " " + value == name + spaced && (name + spaced)[|name|..] == spaced && spaced[1..] == value;
    assert (name + value)[|name|..] == value;
  }

  /** Lines that are neither an ID nor decodable data: comments, blank lines, broken data. */
  predicate Noise(codec: Codec, lines: seq<string>) {
    forall l :: l in lines ==> Field(l, "id:") == [] && Decoded(codec, l).None?
  }

  lemma {:induction false} NoiseIsSkipped(codec: Codec, noise: seq<string>, rest: seq<string>, current: string)
    requires Noise(codec, noise)
    ensures ParseLines(codec, noise + rest, current) == ParseLines(codec, rest, current)
    decreases |noise|
  {
    hide Field, Decoded, ParseLines;
    if noise == [] {
      assert noise + rest == rest;
    } else {
      assert noise + rest == [noise[0]] + (noise[1..] + rest);
      assert noise[0] in noise && forall l :: l in noise[1..] ==> l in noise;
      ParseLinesStep(codec, noise[0], noise[1..] + rest, current);
      NoiseIsSkipped(codec, noise[1..], rest, current);
    }
  }

  lemma DataIsRead(codec: Codec, data: string, rest: seq<string>, current: string)
    requires codec.unmarshal(data).Some?
    ensures ParseLines(codec, ["data: " + data] + rest, current) ==
      [Stamped(codec.unmarshal(data).value, current)] + ParseLines(codec, rest, "")
  {
    FieldValue("data:", data);
    assert "data: " + data == "data:" + " " + data;
    assert ("data: " + data)[0] == 'd';
    hide Field;
    DataIsNoId("data: " + data);
    ParseLinesStep(codec, "data: " + data, rest, current);
  }

  lemma DataIsNoId(line: string)
    requires line != "" && line[0] == 'd'
    ensures Field(line, "id:") == []
  {
  }

  /** The ID of an id line, trimmed, goes to the next message that brings none of its own,
      whatever noise comes between, and to no message after that; an ID in a body stays. */
  lemma IdIsUsedOnce(codec: Codec, id: string, first: seq<string>, a: string, second: seq<string>, b: string,
                     current: string)
    requires Noise(codec, first) && Noise(codec, second)
    requires codec.unmarshal(a).Some? && codec.unmarshal(b).Some?
    ensures
      var m, n := codec.unmarshal(a).value, codec.unmarshal(b).value;
      ParseLines(codec, ["id: " + id] + (first + (["data: " + a] + (second + (["data: " + b] + [])))), current) ==
        [if m.eventId == "" then m.(eventId := TrimSpace(id)) else m, n]
  {
    var last := ["data: " + b] + [];
    var middle := ["data: " + a] + (second + last);
    FieldValue("id:", id);
    assert "id: " + id == "id:" + " " + id;
    ParseLinesStep(codec, "id: " + id, first + middle, current);
    hide Field, TrimSpace, ParseLines, Decoded;
    NoiseIsSkipped(codec, first, middle, TrimSpace(id));
    DataIsRead(codec, a, second + last, TrimSpace(id));
    NoiseIsSkipped(codec, second, last, "");
    DataIsRead(codec, b, [], "");
    NoMoreLines(codec, "");
  }

  lemma NoMoreLines(codec: Codec, current: string)
    ensures ParseLines(codec, [], current) == []
  {
  }

  // ---- the round trip --------------------------------------------------------------

  function Messages(frames: seq<Frame>): seq<EventMessage> {
    if frames == [] then []
    else (if frames[0].Message? then [frames[0].message] else []) + Messages(frames[1..])
  }

  predicate AllQuiet(codec: Codec, frames: seq<Frame>) {
    forall f :: f in frames && f.Message? ==> Quiet(codec, f.message.eventId)
  }

  /** What the server writes, messages and pings mixed, is read back as the messages written
      exactly when no event ID hides a message behind a line break. */
  lemma RoundTripExactly(codec: Codec, frames: seq<Frame>)
    requires codec.Faithful() && forall f :: f in frames ==> Writable(codec, f)
    ensures Read(codec, RenderAll(codec, frames)) == Messages(frames) <==> AllQuiet(codec, frames)
  {
    ReadCounts(codec, frames, "");
  }

  lemma {:induction false} ReadCounts(codec: Codec, frames: seq<Frame>, current: string)
    requires codec.Faithful() && forall f :: f in frames ==> Writable(codec, f)
    ensures var events := ParseLines(codec, Lines(RenderAll(codec, frames)), current);
      && |events| >= |Messages(frames)|
      && (|events| == |Messages(frames)| <==> AllQuiet(codec, frames))
      && (AllQuiet(codec, frames) ==> events == Messages(frames))
    decreases |frames|
  {
    hide ParseLines, Lines, Pending, Quiet;
    if frames == [] {
      NothingRead(codec, current);
    } else {
      var f, rest := frames[0], frames[1..];
      assert f in frames && Writable(codec, f);
      assert forall x :: x in frames <==> x == f || x in rest;
      assert AllQuiet(codec, frames) <==> (f.Message? ==> Quiet(codec, f.message.eventId)) && AllQuiet(codec, rest);
      var text := RenderAll(codec, rest);
      match f
      case Comment(c) =>
        CommentRead(codec, c, text, current);
        ReadCounts(codec, rest, current);
      case Message(m) =>
        MessageRead(codec, m.eventId, codec.marshal(m).value, text, current);
        ReadCounts(codec, rest, "");
        QuietMeans(codec, m.eventId, current);
    }
  }

  lemma QuietMeans(codec: Codec, id: string, current: string)
    ensures ParseLines(codec, IdLines(id), current) == [] <==> Quiet(codec, id)
  {
    NothingDecodedExactly(codec, IdLines(id), current);
  }

  /** So one message is read back as itself whatever else its ID holds, space around it
      included. */
  lemma MessageSurvivesExactly(codec: Codec, m: EventMessage)
    requires codec.Faithful() && Writable(codec, Message(m))
    ensures Read(codec, Render(codec, Message(m))) == [m] <==> Quiet(codec, m.eventId)
    ensures '\n' !in m.eventId ==> Read(codec, Render(codec, Message(m))) == [m]
  {
    hide ParseLines, Lines, Quiet, Render;
    var frames := [Message(m)];
    RoundTripExactly(codec, frames);
    assert frames[1..] == [] && RenderAll(codec, frames) == Render(codec, Message(m)) + "";
    assert Render(codec, Message(m)) + "" == Render(codec, Message(m));
    assert Messages(frames) == [m];
    assert AllQuiet(codec, frames) <==> Quiet(codec, m.eventId) by {
      assert Message(m) in frames;
    }
    if '\n' !in m.eventId {
      NoNewlineIsQuiet(codec, m.eventId);
    }
  }
}
