/** The frames of the event stream (internal/daemon/events.go) and the client's parser of them
    (scripts/daemon-example.py), for text/event-stream of the HTML Standard, section 9.2. */
module SseFrames {
  import opened Wrappers
  import opened Seqs

  /** An event to write; one without a name is a heartbeat. */
  datatype Frame = Frame(name: string, id: string, data: string)

  function Line(field: string, value: string): string {
    field + ": " + value + "\n"
  }

  function Written(f: Frame): string {
    if f.name == "" then ": heartbeat\n" + "\n"
    else Line("event", f.name) + (Line("id", f.id) + (Line("data", f.data) + "\n"))
  }

  function Concat(texts: seq<string>): string {
    if texts == [] then "" else texts[0] + Concat(texts[1..])
  }

  function Stream(frames: seq<Frame>): string {
    Concat(seq(|frames|, i requires 0 <= i < |frames| => Written(frames[i])))
  }

  // ----- The parser -----

  predicate IsColon(c: char) {
    c == ':'
  }

  predicate IsNewline(c: char) {
    c == '\n'
  }

  /** The lines of a response, each with its line feed; the last one may lack it. */
  function Lines(s: string): seq<string> {
    if s == "" then []
    else
      var i := IndexOf(s, IsNewline);
      if i == |s| then [s] else [s[..i + 1]] + Lines(s[i + 1..])
  }

  function RStrip(s: string): string {
    if s != "" && s[|s| - 1] in "\r\n" then RStrip(s[..|s| - 1]) else s
  }

  function Join(parts: seq<string>): string {
    if parts == [] then "" else if |parts| == 1 then parts[0] else parts[0] + "\n" + Join(parts[1..])
  }

  datatype Event = Event(event: string, id: Option<string>, data: string)

  /** What is known of the current event, and what was yielded. */
  datatype Parser = Parser(event: string, id: Option<string>, data: seq<string>, events: seq<Event>)

  function Fresh(events: seq<Event>): Parser {
    Parser("message", None, [], events)
  }

  function Parse(p: Parser, raw: string): Parser {
    var line := RStrip(raw);
    if line == "" then Fresh(if p.data != [] then p.events + [Event(p.event, p.id, Join(p.data))] else p.events)
    else if line[0] == ':' then p
    else
      var colon := IndexOf(line, IsColon);
      var field, rest := line[..colon], if colon < |line| then line[colon + 1..] else "";
      var value := if rest != "" && rest[0] == ' ' then rest[1..] else rest;
      if field == "event" then p.(event := value)
      else if field == "id" then p.(id := Some(value))
      else if field == "data" then p.(data := p.data + [value])
      else p
  }

  function ParseAll(p: Parser, lines: seq<string>): Parser
    decreases lines
  {
    if lines == [] then p else ParseAll(Parse(p, lines[0]), lines[1..])
  }

  /** The events the client's generator yields for a response. */
  function Events(response: string): seq<Event> {
    ParseAll(Fresh([]), Lines(response)).events
  }

  /** The generator's loop over the lines of a response. */
  method SseEvents(response: string) returns (events: seq<Event>)
    ensures events == Events(response)
  {
    var lines := Lines(response);
    var event, id, data := "message", Option<string>.None, [];
    events := [];
    for i := 0 to |lines|
      invariant ParseAll(Fresh([]), lines) == ParseAll(Parser(event, id, data, events), lines[i..])
    {
      assert lines[i..][1..] == lines[i + 1..];
      var line := RStrip(lines[i]);
      if line == "" {
        if data != [] {
          events := events + [Event(event, id, Join(data))];
        }
        event, id, data := "message", None, [];
        continue;
      }
      if line[0] == ':' {
        continue;
      }
      var colon := IndexOf(line, IsColon);
      var field, value := line[..colon], if colon < |line| then line[colon + 1..] else "";
      if value != "" && value[0] == ' ' {
        value := value[1..];
      }
      if field == "event" {
        event := value;
      } else if field == "id" {
        id := Some(value);
      } else if field == "data" {
        data := data + [value];
      }
    }
  }

  // ----- Round trip -----

  /** A field that fits on a line: without a line feed, and not ending in a carriage return. */
  predicate FitsLine(s: string) {
    '\n' !in s && (s != "" ==> s[|s| - 1] != '\r')
  }

  predicate Fits(f: Frame) {
    FitsLine(f.name) && FitsLine(f.id) && FitsLine(f.data)
  }

  /** The named events, as the client should see them. */
  function Named(frames: seq<Frame>): seq<Event> {
    Flatten(seq(|frames|, i requires 0 <= i < |frames| => Shown(frames[i])))
  }

  function Flatten(parts: seq<seq<Event>>): seq<Event> {
    if parts == [] then [] else parts[0] + Flatten(parts[1..])
  }

  function Shown(f: Frame): seq<Event> {
    if f.name == "" then [] else [Event(f.name, Some(f.id), f.data)]
  }

  lemma Assoc(a: string, b: string, c: string)
    ensures (a + b) + c == a + (b + c)
  {
  }

  /** A complete line: its line feed is its last character, and its only one. */
  predicate IsLine(line: string) {
    line != "" && line[|line| - 1] == '\n' && '\n' !in line[..|line| - 1]
  }

  lemma FirstLine(line: string, rest: string)
    requires IsLine(line)
    ensures Lines(line + rest) == [line] + Lines(rest)
  {
    var s := line + rest;
    var i := IndexOf(s, IsNewline);
    assert s[|line| - 1] == '\n';
    assert forall k :: 0 <= k < |line| - 1 ==> s[k] == line[..|line| - 1][k] && s[k] != '\n';
    assert i == |line| - 1;
    assert s[..i + 1] == line && s[i + 1..] == rest;
  }

  lemma Stripped(line: string)
    requires FitsLine(line)
    ensures RStrip(line + "\n") == line
  {
    assert (line + "\n")[..|line|] == line;
  }

  predicate IsField(field: string) {
    field == "event" || field == "id" || field == "data"
  }

  lemma LineShape(field: string, value: string)
    requires IsField(field) && FitsLine(value)
    ensures IsLine(Line(field, value)) && RStrip(Line(field, value)) == field + ": " + value
  {
    var line := field + ": " + value;
    assert line[|line| - 1] == if value == "" then ' ' else value[|value| - 1];
    assert Line(field, value)[..|line|] == line;
    Stripped(line);
  }

  lemma FieldAndValue(field: string, value: string)
    requires ':' !in field
    ensures var line := field + ": " + value;
            && IndexOf(line, IsColon) == |field| < |line|
            && line[..|field|] == field && line[|field| + 1..] == " " + value && (" " + value)[1..] == value
  {
    var line := field + ": " + value;
    assert line == field + (": " + value);
    assert line[|field|] == ':';
    var colon := IndexOf(line, IsColon);
    assert forall k :: 0 <= k < |field| ==> line[k] == field[k];
    assert line[|field| + 1..] == (": " + value)[1..];
  }

  /** A line of a field sets it to the value. */
  lemma FieldLine(p: Parser, field: string, value: string)
    requires IsField(field) && FitsLine(value)
    ensures Parse(p, Line(field, value)) ==
            if field == "event" then p.(event := value)
            else if field == "id" then p.(id := Some(value)) else p.(data := p.data + [value])
  {
    LineShape(field, value);
    FieldAndValue(field, value);
    assert (field + ": " + value)[0] == field[0];
  }

  function FrameLines(f: Frame): seq<string> {
    if f.name == "" then [": heartbeat\n", "\n"]
    else [Line("event", f.name), Line("id", f.id), Line("data", f.data), "\n"]
  }

  lemma NextLine(line: string, more: string, rest: string)
    requires IsLine(line)
    ensures Lines((line + more) + rest) == [line] + Lines(more + rest)
  {
    Assoc(line, more, rest);
    FirstLine(line, more + rest);
  }

  lemma TwoLines(a: string, b: string, rest: string)
    requires IsLine(a) && IsLine(b)
    ensures Lines((a + b) + rest) == [a, b] + Lines(rest)
  {
    NextLine(a, b, rest);
    FirstLine(b, rest);
  }

  lemma FourItems<T>(a: T, b: T, c: T, d: T, rest: seq<T>)
    ensures [a] + ([b] + ([c, d] + rest)) == [a, b, c, d] + rest
  {
  }

  lemma FourLines(a: string, b: string, c: string, d: string, rest: string)
    requires IsLine(a) && IsLine(b) && IsLine(c) && IsLine(d)
    ensures Lines((a + (b + (c + d))) + rest) == [a, b, c, d] + Lines(rest)
  {
    NextLine(a, b + (c + d), rest);
    NextLine(b, c + d, rest);
    TwoLines(c, d, rest);
    FourItems(a, b, c, d, Lines(rest));
  }

  lemma LinesOfFrame(f: Frame, rest: string)
    requires Fits(f)
    ensures Lines(Written(f) + rest) == FrameLines(f) + Lines(rest)
  {
    if f.name == "" {
      TwoLines(": heartbeat\n", "\n", rest);
    } else {
      LineShape("event", f.name);
      LineShape("id", f.id);
      LineShape("data", f.data);
      FourLines(Line("event", f.name), Line("id", f.id), Line("data", f.data), "\n", rest);
    }
  }

  lemma {:induction false} ParseAppended(p: Parser, a: seq<string>, b: seq<string>)
    ensures ParseAll(p, a + b) == ParseAll(ParseAll(p, a), b)
    decreases a
  {
    if a == [] {
      assert a + b == b;
    } else {
      assert (a + b)[1..] == a[1..] + b;
      ParseAppended(Parse(p, a[0]), a[1..], b);
    }
  }

  /** A frame yields its event and leaves the parser as it was at the start of an event. */
  lemma FrameParsed(f: Frame, events: seq<Event>)
    requires Fits(f)
    ensures ParseAll(Fresh(events), FrameLines(f)) == Fresh(events + Shown(f))
  {
    if f.name == "" {
      Stripped(": heartbeat");
      assert ": heartbeat" + "\n" == ": heartbeat\n";
      Blank(Fresh(events));
      assert ParseAll(Fresh(events), FrameLines(f)) == ParseAll(Fresh(events), ["\n"]);
    } else {
      var p0 := Fresh(events);
      FieldLine(p0, "event", f.name);
      var p1 := p0.(event := f.name);
      FieldLine(p1, "id", f.id);
      var p2 := p1.(id := Some(f.id));
      FieldLine(p2, "data", f.data);
      var p3 := p2.(data := [f.data]);
      var lines := FrameLines(f);
      assert ParseAll(p0, lines) == ParseAll(p1, lines[1..]);
      assert ParseAll(p1, lines[1..]) == ParseAll(p2, lines[2..]) by { assert lines[1..][1..] == lines[2..]; }
      assert ParseAll(p2, lines[2..]) == ParseAll(p3, ["\n"]) by { assert lines[2..][1..] == ["\n"]; }
      Blank(p3);
    }
  }

  lemma Blank(p: Parser)
    ensures ParseAll(p, ["\n"]) == Fresh(if p.data != [] then p.events + [Event(p.event, p.id, Join(p.data))] else p.events)
  {
    Stripped("");
    assert "" + "\n" == "\n";
  }

  /** The parser after a text, by the events yielded before it. */
  function After(): (string, seq<Event>) -> Parser {
    (text: string, events: seq<Event>) => ParseAll(Fresh(events), Lines(text))
  }

  /** A text that yields events, whatever was yielded before and follows after. */
  ghost predicate Yields(after: (string, seq<Event>) -> Parser, text: string, shown: seq<Event>) {
    forall rest, events :: after(text + rest, events) == after(rest, events + shown)
  }

  lemma FrameYields(f: Frame)
    requires Fits(f)
    ensures Yields(After(), Written(f), Shown(f))
  {
    forall rest, events ensures After()(Written(f) + rest, events) == After()(rest, events + Shown(f)) {
      LinesOfFrame(f, rest);
      ParseAppended(Fresh(events), FrameLines(f), Lines(rest));
      FrameParsed(f, events);
    }
  }

  lemma {:induction false} AllYield(
    after: (string, seq<Event>) -> Parser, texts: seq<string>, shown: seq<seq<Event>>, rest: string, events: seq<Event>)
    requires |texts| == |shown| && forall i :: 0 <= i < |texts| ==> Yields(after, texts[i], shown[i])
    ensures after(Concat(texts) + rest, events) == after(rest, events + Flatten(shown))
    decreases texts
  {
    if texts == [] {
      assert "" + rest == rest && events + [] == events;
    } else {
      Assoc(texts[0], Concat(texts[1..]), rest);
      assert Yields(after, texts[0], shown[0]);
      AllYield(after, texts[1..], shown[1..], rest, events + shown[0]);
      assert events + shown[0] + Flatten(shown[1..]) == events + Flatten(shown);
    }
  }

  lemma StreamYields(frames: seq<Frame>, rest: string)
    requires forall f :: f in frames ==> Fits(f)
    ensures Events(Stream(frames) + rest) == ParseAll(Fresh(Named(frames)), Lines(rest)).events
  {
    forall f | f in frames ensures Yields(After(), Written(f), Shown(f)) { FrameYields(f); }
    AllYield(After(), seq(|frames|, i requires 0 <= i < |frames| => Written(frames[i])),
             seq(|frames|, i requires 0 <= i < |frames| => Shown(frames[i])), rest, []);
    assert [] + Named(frames) == Named(frames);
  }

  /** The client yields exactly the named events that the daemon wrote, in order, with their IDs and data. */
  lemma RoundTrip(frames: seq<Frame>)
    requires forall f :: f in frames ==> Fits(f)
    ensures Events(Stream(frames)) == Named(frames)
  {
    StreamYields(frames, "");
    assert Stream(frames) + "" == Stream(frames);
  }

  // ----- Lost connections -----

  /** A line that is not blank. */
  predicate Starts(line: string) {
    line != "" && line[0] !in "\r\n"
  }

  lemma {:induction false} StartsStripped(line: string)
    requires Starts(line)
    ensures RStrip(line) != ""
  {
    if line[|line| - 1] in "\r\n" { StartsStripped(line[..|line| - 1]); }
  }

  lemma {:induction false} NothingYielded(p: Parser, lines: seq<string>)
    requires forall l :: l in lines ==> Starts(l)
    ensures ParseAll(p, lines).events == p.events
    decreases lines
  {
    if lines != [] {
      StartsStripped(lines[0]);
      NothingYielded(Parse(p, lines[0]), lines[1..]);
    }
  }

  lemma PartialLine(line: string)
    requires line != "" && '\n' !in line
    ensures Lines(line) == [line]
  {
    assert forall k :: 0 <= k < |line| ==> line[k] in line && line[k] != '\n';
    assert IndexOf(line, IsNewline) == |line|;
  }

  /** Cutting complete lines leaves no blank one. */
  lemma {:induction false} CutLines(lines: seq<string>, k: nat)
    requires (forall l :: l in lines ==> IsLine(l) && Starts(l)) && k <= |Concat(lines)|
    ensures forall l :: l in Lines(Concat(lines)[..k]) ==> Starts(l)
    decreases lines
  {
    if lines == [] || k == 0 {
      assert Concat(lines)[..k] == "";
    } else {
      var line, rest := lines[0], Concat(lines[1..]);
      var cut := Concat(lines)[..k];
      assert line in lines;
      if k < |line| {
        assert cut == line[..|line| - 1][..k];
        assert cut[0] == line[0];
        assert forall i :: 0 <= i < |cut| ==> cut[i] == line[..|line| - 1][i];
        PartialLine(cut);
      } else {
        assert cut == line + rest[..k - |line|];
        FirstLine(line, rest[..k - |line|]);
        CutLines(lines[1..], k - |line|);
      }
    }
  }

  lemma CutAt(text: string, k: nat)
    requires k <= |text|
    ensures (text + "\n")[..k] == text[..k]
  {
  }

  /** A part of a frame has no blank line. */
  lemma CutFrame(f: Frame, k: nat)
    requires Fits(f) && k < |Written(f)|
    ensures forall l :: l in Lines(Written(f)[..k]) ==> Starts(l)
  {
    var lines := if f.name == "" then [": heartbeat\n"] else [Line("event", f.name), Line("id", f.id), Line("data", f.data)];
    if f.name != "" {
      LineShape("event", f.name);
      LineShape("id", f.id);
      LineShape("data", f.data);
      Three(Line("event", f.name), Line("id", f.id), Line("data", f.data));
    } else {
      assert Concat([": heartbeat\n"][1..]) == "";
    }
    assert Written(f) == Concat(lines) + "\n";
    CutAt(Concat(lines), k);
    CutLines(lines, k);
  }

  lemma Three(a: string, b: string, c: string)
    ensures a + (b + (c + "\n")) == Concat([a, b, c]) + "\n"
  {
    assert [a, b, c][1..] == [b, c] && [b, c][1..] == [c] && [c][1..] == [];
    assert Concat([c]) == c;
    Assoc(b, c, "\n");
    Assoc(a, b + c, "\n");
  }

  /** When the connection breaks within a frame, the client has yielded exactly the complete ones. */
  lemma CutStream(frames: seq<Frame>, f: Frame, k: nat)
    requires (forall g :: g in frames ==> Fits(g)) && Fits(f) && k < |Written(f)|
    ensures Events(Stream(frames) + Written(f)[..k]) == Named(frames)
  {
    StreamYields(frames, Written(f)[..k]);
    CutFrame(f, k);
    NothingYielded(Fresh(Named(frames)), Lines(Written(f)[..k]));
  }
}
