/**
 The event-stream codec: what the kernel prints for one event (src/server/sse.ts) and the incremental
 reader of the run path (apps/next/src/core/kernel.ts). Text after a `data:` is kept as text: the
 decoded JSON value is a function of it.
 */
module EventStream {
  import opened Text

  const BREAK: string := "\n\n"

  /** One event about to be printed: its type name and its JSON text. */
  datatype Wire = Wire(name: string, json: string)

  datatype Frame = Frame(event: string, data: string)

  function EventLine(w: Wire): string {
    "event: " + w.name
  }

  function DataLine(w: Wire): string {
    "data: " + w.json
  }

  function Body(w: Wire): string {
    EventLine(w) + ['\n'] + DataLine(w)
  }

  function Serialize(w: Wire): string {
    Body(w) + BREAK
  }

  function SerializeAll(ws: seq<Wire>): string {
    if ws == [] then "" else Serialize(ws[0]) + SerializeAll(ws[1..])
  }

  // ----- The stream grammar -----

  function OptionSeq<F>(frame: Option<F>): seq<F> {
    match frame case None => [] case Some(f) => [f]
  }

  /** The frames that a block parser finds in a stream: one attempt for each text before a break. */
  function Frames<F>(parse: string -> Option<F>, s: string): seq<F>
    decreases |s|
  {
    var i := IndexOf(s, BREAK);
    if i < 0 then [] else OptionSeq(parse(s[..i])) + Frames(parse, s[i + 2..])
  }

  /** What follows the last break: an unfinished block. */
  function Rest(s: string): string
    decreases |s|
  {
    var i := IndexOf(s, BREAK);
    if i < 0 then s else Rest(s[i + 2..])
  }

  /** Reading `a` and later `b` finds the frames that reading `a + b` at once finds. */
  lemma {:induction false} FramesOfAppend<F>(parse: string -> Option<F>, a: string, b: string)
    ensures Frames(parse, a + b) == Frames(parse, a) + Frames(parse, Rest(a) + b)
    ensures Rest(a + b) == Rest(Rest(a) + b)
    decreases |a|
  {
    var i := IndexOf(a, BREAK);
    if i >= 0 {
      FirstSurvivesAppend(a, b, BREAK);
      assert (a + b)[..i] == a[..i];
      assert (a + b)[i + 2..] == a[i + 2..] + b;
      FramesOfAppend(parse, a[i + 2..], b);
      AppendAssociates(OptionSeq(parse(a[..i])), Frames(parse, a[i + 2..]), Frames(parse, Rest(a) + b));
    }
  }

  lemma FramesOfLonger<F>(parse: string -> Option<F>, text: string, rest: string)
    ensures Frames(parse, text) <= Frames(parse, text + rest)
  {
    FramesOfAppend(parse, text, rest);
  }

  /** A text that a break can close: it neither contains one nor runs into it. */
  predicate IsBlock(raw: string) {
    IndexOf(raw + BREAK, BREAK) == |raw|
  }

  lemma FramesOfClosed<F>(parse: string -> Option<F>, raw: string, rest: string)
    requires IsBlock(raw)
    ensures Frames(parse, raw + BREAK + rest) == OptionSeq(parse(raw)) + Frames(parse, rest)
    ensures Rest(raw + BREAK + rest) == Rest(rest)
  {
    var s := raw + BREAK + rest;
    FirstSurvivesAppend(raw + BREAK, rest, BREAK);
    assert s[..|raw|] == raw && s[|raw| + 2..] == rest;
  }

  /** Text without two adjacent line breaks and not ending in one is a block. */
  lemma LinesMakeBlock(raw: string)
    requires raw != "" ==> raw[|raw| - 1] != '\n'
    requires forall k | 0 <= k < |raw| - 1 :: raw[k] == '\n' ==> raw[k + 1] != '\n'
    ensures IsBlock(raw)
  {
    var s := raw + BREAK;
    assert s[|raw|..|raw| + 2] == BREAK;
    forall k: nat | k < |raw|
      ensures !OccursAt(s, BREAK, k)
    {
      assert s[k] == raw[k] && (k + 1 < |raw| ==> s[k + 1] == raw[k + 1]);
      assert s[k] != '\n' || s[k + 1] != '\n';
      assert s[k..k + 2][0] == s[k] && s[k..k + 2][1] == s[k + 1];
    }
    FirstIsIndex(s, BREAK, |raw|);
  }

  // ----- One block -----

  function EventName(lines: seq<string>): string {
    if lines == [] then "message"
    else
      var line := lines[|lines| - 1];
      if "event:" <= line then Trim(line[6..]) else EventName(lines[..|lines| - 1])
  }

  function DataLines(lines: seq<string>): seq<string> {
    if lines == [] then []
    else
      var line := lines[|lines| - 1];
      DataLines(lines[..|lines| - 1]) + if "data:" <= line then [Trim(line[5..])] else []
  }

  function ParseBlock(raw: string): Option<Frame> {
    var lines := Split(raw, '\n');
    if DataLines(lines) == [] then None
    else Some(Frame(EventName(lines), Join(DataLines(lines), "\n")))
  }

  // ----- The reader -----

  method ReadBlock(raw: string) returns (frame: Option<Frame>)
    ensures frame == ParseBlock(raw)
  {
    var event := "message";
    var dataLines: seq<string> := [];
    var lines := Split(raw, '\n');
    for i := 0 to |lines|
      invariant event == EventName(lines[..i])
      invariant dataLines == DataLines(lines[..i])
    {
      var line := lines[i];
      assert lines[..i + 1][..i] == lines[..i];
      if "event:" <= line {
        assert line[0] == 'e';
        event := Trim(line[6..]);
      } else if "data:" <= line {
        dataLines := dataLines + [Trim(line[5..])];
      }
    }
    assert lines[..|lines|] == lines;
    if dataLines == [] {
      return None;
    }
    return Some(Frame(event, Join(dataLines, "\n")));
  }

  /**
   The read loop of `streamKernelMessage`: `chunks` are the decoded reads up to the end of the body, the
   abort, or a read error; `frames` are the calls of `onFrame` in order.
   */
  method StreamKernelMessage(chunks: seq<string>) returns (frames: seq<Frame>, buf: string)
    ensures frames == Frames(ParseBlock, Concat(chunks))
    ensures buf == Rest(Concat(chunks))
  {
    buf := "";
    frames := [];
    for n := 0 to |chunks|
      invariant frames == Frames(ParseBlock, Concat(chunks[..n]))
      invariant buf == Rest(Concat(chunks[..n]))
    {
      assert chunks[..n + 1][..n] == chunks[..n];
      FramesOfAppend(ParseBlock, Concat(chunks[..n]), chunks[n]);
      var delivered;
      delivered, buf := DrainBuffer(buf + chunks[n]);
      frames := frames + delivered;
    }
    assert chunks[..|chunks|] == chunks;
  }

  /** The inner loop: hands every complete block of the buffer on and keeps what is left. */
  method DrainBuffer(text: string) returns (frames: seq<Frame>, buf: string)
    ensures frames == Frames(ParseBlock, text)
    ensures buf == Rest(text)
  {
    buf := text;
    frames := [];
    var idx := IndexOf(buf, BREAK);
    while idx != -1
      invariant idx == IndexOf(buf, BREAK)
      invariant frames + Frames(ParseBlock, buf) == Frames(ParseBlock, text)
      invariant Rest(text) == Rest(buf)
      decreases |buf|
    {
      var frame := ReadBlock(buf[..idx]);
      buf := buf[idx + 2..];
      AppendAssociates(frames, OptionSeq(frame), Frames(ParseBlock, buf));
      frames := frames + OptionSeq(frame);
      idx := IndexOf(buf, BREAK);
    }
  }

  // ----- Round trip -----

  /** A type name that survives `trim`: it has no line break and no white space at either end. */
  predicate IsToken(name: string) {
    '\n' !in name && Trimmed(name)
  }

  /** JSON text of an object as `JSON.stringify` prints it: one line between braces. */
  predicate IsJsonObject(json: string) {
    |json| >= 2 && json[0] == '{' && json[|json| - 1] == '}' && '\n' !in json
  }

  predicate Printable(w: Wire) {
    IsToken(w.name) && IsJsonObject(w.json)
  }

  lemma PrintedIsBlock(w: Wire)
    requires Printable(w)
    ensures IsBlock(Body(w))
  {
    var n := |EventLine(w)|;
    var raw := Body(w);
    assert raw[n] == '\n' && raw[n + 1] == 'd';
    assert forall k | 0 <= k < |raw| && k != n :: raw[k] != '\n' by {
      assert '\n' !in EventLine(w) && '\n' !in DataLine(w);
    }
    LinesMakeBlock(raw);
  }

  lemma EventLineReads(name: string, before: seq<string>)
    requires IsToken(name)
    ensures EventName(before + ["event: " + name]) == name
    ensures DataLines(before + ["event: " + name]) == DataLines(before)
  {
    var line := "event: " + name;
    assert line[6..] == " " + name;
    TrimAfterSpace(name);
    assert "event:" <= line && line[0] == 'e';
    assert (before + [line])[..|before|] == before;
  }

  lemma EventLineParses(w: Wire)
    requires Printable(w)
    ensures EventName([EventLine(w)]) == w.name && DataLines([EventLine(w)]) == []
  {
    EventLineReads(w.name, []);
    assert [] + [EventLine(w)] == [EventLine(w)];
  }

  lemma DataLineReads(text: string, before: seq<string>)
    requires Trimmed(text)
    ensures EventName(before + ["data: " + text]) == EventName(before)
    ensures DataLines(before + ["data: " + text]) == DataLines(before) + [text]
  {
    var line := "data: " + text;
    assert line[5..] == " " + text;
    TrimAfterSpace(text);
    assert "data:" <= line && line[0] == 'd';
    assert (before + [line])[..|before|] == before;
  }

  lemma DataLineParses(w: Wire, before: seq<string>)
    requires Printable(w)
    ensures EventName(before + [DataLine(w)]) == EventName(before)
    ensures DataLines(before + [DataLine(w)]) == DataLines(before) + [w.json]
  {
    DataLineReads(w.json, before);
  }

  lemma ParsePrinted(w: Wire)
    requires Printable(w)
    ensures ParseBlock(Body(w)) == Some(Frame(w.name, w.json))
  {
    assert '\n' !in EventLine(w) && '\n' !in DataLine(w);
    SplitAtSep(EventLine(w), DataLine(w), '\n');
    SplitNone(DataLine(w), '\n');
    assert Split(Body(w), '\n') == [EventLine(w)] + [DataLine(w)];
    EventLineParses(w);
    DataLineParses(w, [EventLine(w)]);
  }

  function Printed(ws: seq<Wire>): seq<Frame> {
    if ws == [] then [] else [Frame(ws[0].name, ws[0].json)] + Printed(ws[1..])
  }

  /** The reader of a printed list of events recovers the list and leaves nothing over. */
  lemma {:induction false} RoundTrip(ws: seq<Wire>)
    requires forall w | w in ws :: Printable(w)
    ensures Frames(ParseBlock, SerializeAll(ws)) == Printed(ws)
    ensures Rest(SerializeAll(ws)) == ""
  {
    if ws != [] {
      PrintedIsBlock(ws[0]);
      ParsePrinted(ws[0]);
      RoundTrip(ws[1..]);
      FramesOfClosed(ParseBlock, Body(ws[0]), SerializeAll(ws[1..]));
    } else {
      assert IndexOf("", BREAK) == -1;
    }
  }

  /** However a printed list of events is cut into chunks, the read loop delivers exactly the list. */
  method ReadPrinted(ws: seq<Wire>, chunks: seq<string>) returns (frames: seq<Frame>, buf: string)
    requires forall w | w in ws :: Printable(w)
    requires Concat(chunks) == SerializeAll(ws)
    ensures frames == Printed(ws) && buf == ""
  {
    RoundTrip(ws);
    frames, buf := StreamKernelMessage(chunks);
  }

  /** The last event line gives the name, and every data line a line of data, trimmed, an empty one included. */
  lemma FieldLinesRead(before: seq<string>, text: string)
    ensures EventName(before + ["event:" + text]) == Trim(text)
    ensures DataLines(before + ["event:" + text]) == DataLines(before)
    ensures DataLines(before + ["data:" + text]) == DataLines(before) + [Trim(text)]
    ensures EventName(before + ["data:" + text]) == EventName(before)
  {
    var name, data := "event:" + text, "data:" + text;
    assert (before + [name])[..|before|] == before && name[6..] == text && name[0] == 'e';
    assert (before + [data])[..|before|] == before && data[5..] == text && data[0] == 'd';
  }

  // ----- Texts of several lines -----

  /** A line for each line of a text. */
  function DataBlock(lines: seq<string>): seq<string> {
    if lines == [] then [] else DataBlock(lines[..|lines| - 1]) + ["data: " + lines[|lines| - 1]]
  }

  /** The lines before the data: an event line, or none. */
  function Heading(name: Option<string>): seq<string> {
    if name.Some? then ["event: " + name.value] else []
  }

  function BlockLines(name: Option<string>, text: string): seq<string> {
    Heading(name) + DataBlock(Split(text, '\n'))
  }

  /** A block of an event line, if there is a name, and a text of one line or more. */
  function NamedBlock(name: Option<string>, text: string): string {
    Join(BlockLines(name, text), "\n")
  }

  /** No line of the text begins or ends with white space, which would be trimmed away. */
  predicate TidyLines(text: string) {
    forall l | l in Split(text, '\n') :: Trimmed(l)
  }

  lemma {:induction false} DataBlockReads(front: seq<string>, lines: seq<string>)
    requires forall l | l in lines :: Trimmed(l)
    ensures DataLines(front + DataBlock(lines)) == DataLines(front) + lines
    ensures EventName(front + DataBlock(lines)) == EventName(front)
  {
    if lines == [] {
      assert front + DataBlock(lines) == front;
    } else {
      var init, last := lines[..|lines| - 1], lines[|lines| - 1];
      assert last in lines && forall l | l in init :: l in lines;
      DataBlockReads(front, init);
      OneMoreDataLine(front, init, last);
      assert lines == init + [last];
    }
  }

  lemma OneMoreDataLine(front: seq<string>, init: seq<string>, last: string)
    requires Trimmed(last)
    requires DataLines(front + DataBlock(init)) == DataLines(front) + init
    requires EventName(front + DataBlock(init)) == EventName(front)
    ensures DataLines(front + (DataBlock(init) + ["data: " + last])) == DataLines(front) + (init + [last])
    ensures EventName(front + (DataBlock(init) + ["data: " + last])) == EventName(front)
  {
    AppendAssociates(front, DataBlock(init), ["data: " + last]);
    DataLineReads(last, front + DataBlock(init));
    AppendAssociates(DataLines(front), init, [last]);
  }

  lemma {:induction false} DataBlockLines(lines: seq<string>)
    requires forall l | l in lines :: '\n' !in l
    ensures |DataBlock(lines)| == |lines|
    ensures forall l | l in DataBlock(lines) :: '\n' !in l && l != "" && l[0] == 'd'
  {
    if lines != [] {
      assert lines[|lines| - 1] in lines;
      DataBlockLines(lines[..|lines| - 1]);
    }
  }

  /** The lines of a block are event and data lines only. */
  lemma BlockLinesAreFields(name: Option<string>, text: string)
    requires name.Some? ==> '\n' !in name.value
    ensures BlockLines(name, text) != []
    ensures forall l | l in BlockLines(name, text) :: '\n' !in l && l != "" && (l[0] == 'd' || l[0] == 'e')
  {
    DataBlockLines(Split(text, '\n'));
  }

  lemma HeadingReads(name: Option<string>)
    requires name.Some? ==> IsToken(name.value)
    ensures EventName(Heading(name)) == (if name.Some? then name.value else "message")
    ensures DataLines(Heading(name)) == []
  {
    if name.Some? {
      EventLineReads(name.value, []);
      assert [] + Heading(name) == Heading(name);
    }
  }

  lemma NamedLinesRead(name: Option<string>, text: string)
    requires TidyLines(text) && (name.Some? ==> IsToken(name.value))
    ensures var lines := Split(NamedBlock(name, text), '\n');
            && lines == BlockLines(name, text) && DataLines(lines) == Split(text, '\n')
            && EventName(lines) == (if name.Some? then name.value else "message")
            && Join(DataLines(lines), "\n") == text
  {
    BlockLinesAreFields(name, text);
    SplitJoin(BlockLines(name, text), '\n');
    JoinSplit(text, '\n');
    HeadingReads(name);
    DataBlockReads(Heading(name), Split(text, '\n'));
    assert [] + Split(text, '\n') == Split(text, '\n');
  }

  /** A text of any lines is read back from its data lines, under its event name, or `message` without one. */
  lemma NamedBlockParses(name: Option<string>, text: string)
    requires TidyLines(text) && (name.Some? ==> IsToken(name.value))
    ensures ParseBlock(NamedBlock(name, text)) == Some(Frame(if name.Some? then name.value else "message", text))
  {
    NamedLinesRead(name, text);
  }

  lemma {:induction false} CommentsSayNothing(lines: seq<string>)
    requires forall l | l in lines :: l == "" || l[0] == ':'
    ensures DataLines(lines) == [] && EventName(lines) == "message"
  {
    if lines != [] {
      assert lines[|lines| - 1] in lines;
      CommentsSayNothing(lines[..|lines| - 1]);
    }
  }

  /** Without data there is no frame, whatever the comments and the name. */
  lemma NothingWithoutData(lines: seq<string>, name: string)
    requires forall l | l in lines :: '\n' !in l && (l == "" || l[0] == ':')
    requires '\n' !in name
    ensures ParseBlock(Join(lines + ["event: " + name], "\n")) == None
  {
    var named := "event: " + name;
    CommentsSayNothing(lines);
    assert (lines + [named])[..|lines|] == lines && '\n' !in named && named[0] == 'e';
    SplitJoin(lines + [named], '\n');
  }
}
