/**
 The resumable chat stream (apps/next/src/core/chat.ts): frames with ids, a reader that stops at `close`,
 and the loop that reconnects from the last id it saw. `num` stands for `Number(text)` restricted to
 finite results.
 */
module ChatStream {
  import opened Text
  import opened EventStream

  datatype RawFrame = RawFrame(id: Option<int>, event: string, data: Option<string>)

  type Numbers = string -> Option<int>

  // ----- One block -----

  function IdOf(num: Numbers, lines: seq<string>): Option<int> {
    if lines == [] then None
    else
      var line := lines[|lines| - 1];
      var n := if "id:" <= line then num(Trim(line[3..])) else None;
      if n.Some? then n else IdOf(num, lines[..|lines| - 1])
  }

  function ParseFrame(num: Numbers, raw: string): Option<RawFrame> {
    var lines := Split(raw, '\n');
    if DataLines(lines) == [] && EventName(lines) == "message" then None
    else
      Some(RawFrame(IdOf(num, lines), EventName(lines),
                    if DataLines(lines) == [] then None else Some(Join(DataLines(lines), "\n"))))
  }

  function Parser(num: Numbers): string -> Option<RawFrame> {
    raw => ParseFrame(num, raw)
  }

  method ReadFrame(num: Numbers, raw: string) returns (frame: Option<RawFrame>)
    ensures frame == Parser(num)(raw)
  {
    var id := None;
    var event := "message";
    var dataLines: seq<string> := [];
    var lines := Split(raw, '\n');
    for i := 0 to |lines|
      invariant id == IdOf(num, lines[..i])
      invariant event == EventName(lines[..i])
      invariant dataLines == DataLines(lines[..i])
    {
      var line := lines[i];
      assert lines[..i + 1][..i] == lines[..i];
      if line == "" || line[0] == ':' {
        continue;
      }
      if "id:" <= line {
        assert line[0] == 'i';
        var n := num(Trim(line[3..]));
        if n.Some? {
          id := n;
        }
      } else if "event:" <= line {
        assert line[0] == 'e';
        event := Trim(line[6..]);
      } else if "data:" <= line {
        dataLines := dataLines + [Trim(line[5..])];
      }
    }
    assert lines[..|lines|] == lines;
    if dataLines == [] && event == "message" {
      return None;
    }
    return Some(RawFrame(id, event, if dataLines == [] then None else Some(Join(dataLines, "\n"))));
  }

  // ----- One connection -----

  /** The frames up to and including the first `close`. */
  function UntilClose(fs: seq<RawFrame>): seq<RawFrame> {
    if fs == [] then []
    else if fs[0].event == "close" then [fs[0]]
    else [fs[0]] + UntilClose(fs[1..])
  }

  predicate HasClose(fs: seq<RawFrame>) {
    exists f | f in fs :: f.event == "close"
  }

  lemma {:induction false} UntilCloseOfAppend(a: seq<RawFrame>, b: seq<RawFrame>)
    ensures UntilClose(a + b) == if HasClose(a) then UntilClose(a) else a + UntilClose(b)
  {
    if a == [] {
      assert a + b == b;
    } else {
      assert (a + b)[1..] == a[1..] + b;
      UntilCloseOfAppend(a[1..], b);
      assert a == [a[0]] + a[1..];
      assert HasClose(a) <==> a[0].event == "close" || HasClose(a[1..]);
      AppendAssociates([a[0]], a[1..], UntilClose(b));
    }
  }

  lemma {:induction false} UntilCloseIsPrefix(fs: seq<RawFrame>)
    ensures UntilClose(fs) <= fs
  {
    if fs != [] {
      UntilCloseIsPrefix(fs[1..]);
    }
  }

  /** They are a front of the frames, with no `close` but perhaps at its end, and all of them if none is a `close`. */
  lemma {:induction false} UntilCloseMeans(fs: seq<RawFrame>)
    ensures var n := |UntilClose(fs)|;
            && n <= |fs| && UntilClose(fs) == fs[..n]
            && (forall i | 0 <= i < n - 1 :: fs[i].event != "close")
            && (n < |fs| ==> n > 0 && fs[n - 1].event == "close")
  {
    if fs != [] && fs[0].event != "close" {
      var rest := UntilClose(fs[1..]);
      UntilCloseMeans(fs[1..]);
      assert fs[1..][..|rest|] == fs[1..|rest| + 1];
      assert fs[..|rest| + 1] == [fs[0]] + fs[1..|rest| + 1];
    }
  }

  /** The read loop of `readSse`. */
  method ReadSse(num: Numbers, chunks: seq<string>) returns (frames: seq<RawFrame>, closed: bool)
    ensures frames == UntilClose(Frames(Parser(num), Concat(chunks)))
    ensures closed == HasClose(Frames(Parser(num), Concat(chunks)))
  {
    frames := [];
    var buf := "";
    for n := 0 to |chunks|
      invariant frames == Frames(Parser(num), Concat(chunks[..n]))
      invariant !HasClose(frames)
      invariant buf == Rest(Concat(chunks[..n]))
    {
      assert chunks[..n + 1][..n] == chunks[..n];
      FramesOfAppend(Parser(num), Concat(chunks[..n]), chunks[n]);
      var delivered;
      delivered, buf, closed := DrainUntilClose(num, buf + chunks[n]);
      UntilCloseOfAppend(frames, Frames(Parser(num), Rest(Concat(chunks[..n])) + chunks[n]));
      if closed {
        LaterChunks(num, chunks, n + 1);
        return frames + delivered, true;
      }
      frames := frames + delivered;
    }
    assert chunks[..|chunks|] == chunks;
    UntilCloseOfAppend(frames, []);
    assert frames + [] == frames;
    closed := false;
  }

  lemma {:induction false} LaterChunks(num: Numbers, chunks: seq<string>, n: nat)
    requires n <= |chunks|
    requires HasClose(Frames(Parser(num), Concat(chunks[..n])))
    ensures HasClose(Frames(Parser(num), Concat(chunks)))
    ensures UntilClose(Frames(Parser(num), Concat(chunks))) == UntilClose(Frames(Parser(num), Concat(chunks[..n])))
    decreases |chunks| - n
  {
    if n == |chunks| {
      assert chunks[..n] == chunks;
    } else {
      assert chunks[..n + 1][..n] == chunks[..n];
      var before := Concat(chunks[..n]);
      FramesOfAppend(Parser(num), before, chunks[n]);
      UntilCloseOfAppend(Frames(Parser(num), before), Frames(Parser(num), Rest(before) + chunks[n]));
      LaterChunks(num, chunks, n + 1);
    }
  }

  method DrainUntilClose(num: Numbers, text: string) returns (frames: seq<RawFrame>, buf: string, closed: bool)
    ensures frames == UntilClose(Frames(Parser(num), text))
    ensures closed == HasClose(Frames(Parser(num), text))
    ensures !closed ==> frames == Frames(Parser(num), text) && buf == Rest(text)
  {
    buf := text;
    frames := [];
    var idx := IndexOf(buf, BREAK);
    while idx != -1
      invariant idx == IndexOf(buf, BREAK)
      invariant frames + Frames(Parser(num), buf) == Frames(Parser(num), text)
      invariant !HasClose(frames)
      invariant Rest(text) == Rest(buf)
      decreases |buf|
    {
      var frame := ReadFrame(num, buf[..idx]);
      buf := buf[idx + 2..];
      AppendAssociates(frames, OptionSeq(frame), Frames(Parser(num), buf));
      frames := frames + OptionSeq(frame);
      if frame.Some? && frame.value.event == "close" {
        UntilCloseOfAppend(frames[..|frames| - 1], [frame.value]);
        UntilCloseOfAppend(frames, Frames(Parser(num), buf));
        assert frames == frames[..|frames| - 1] + [frame.value];
        return frames, buf, true;
      }
      idx := IndexOf(buf, BREAK);
    }
    UntilCloseOfAppend(frames, []);
    assert frames + [] == frames;
    closed := false;
  }

  // ----- Ids and the log -----

  function IdFrames(fs: seq<RawFrame>): seq<RawFrame> {
    if fs == [] then []
    else (if fs[0].id.Some? then [fs[0]] else []) + IdFrames(fs[1..])
  }

  lemma {:induction false} IdFramesOfAppend(a: seq<RawFrame>, b: seq<RawFrame>)
    ensures IdFrames(a + b) == IdFrames(a) + IdFrames(b)
  {
    if a == [] {
      assert a + b == b;
    } else {
      assert (a + b)[1..] == a[1..] + b;
      IdFramesOfAppend(a[1..], b);
      AppendAssociates(if a[0].id.Some? then [a[0]] else [], IdFrames(a[1..]), IdFrames(b));
    }
  }

  /** The cursor after the callback has seen `fs`: the last id, or the cursor as it was. */
  function CursorAfter(cursor: int, fs: seq<RawFrame>): int
    decreases fs
  {
    if fs == [] then cursor
    else CursorAfter(if fs[0].id.Some? then fs[0].id.value else cursor, fs[1..])
  }

  lemma {:induction false} CursorAfterAppend(cursor: int, a: seq<RawFrame>, b: seq<RawFrame>)
    decreases a
    ensures CursorAfter(cursor, a + b) == CursorAfter(CursorAfter(cursor, a), b)
  {
    if a == [] {
      assert a + b == b;
    } else {
      assert (a + b)[1..] == a[1..] + b;
      CursorAfterAppend(if a[0].id.Some? then a[0].id.value else cursor, a[1..], b);
    }
  }

  lemma {:induction false} CursorAfterIds(cursor: int, fs: seq<RawFrame>)
    ensures CursorAfter(cursor, fs) == CursorAfter(cursor, IdFrames(fs))
    decreases fs
  {
    if fs != [] {
      CursorAfterIds(if fs[0].id.Some? then fs[0].id.value else cursor, fs[1..]);
      if fs[0].id.Some? {
        assert IdFrames(fs)[1..] == IdFrames(fs[1..]);
      } else {
        assert IdFrames(fs) == IdFrames(fs[1..]);
      }
    }
  }

  /** A run's event log: every entry has an id, and ids increase. */
  ghost predicate IsLog(log: seq<RawFrame>) {
    && (forall i | 0 <= i < |log| :: log[i].id.Some?)
    && (forall i, j | 0 <= i < j < |log| :: log[i].id.value < log[j].id.value)
  }

  /** Entries numbered as they come are a log. */
  lemma NumberedIsLog(log: seq<RawFrame>, first: int)
    requires forall i | 0 <= i < |log| :: log[i].id == Some(first + i)
    ensures IsLog(log)
  {
  }

  /** The log entries with an id above `c`, in order. */
  function Above(log: seq<RawFrame>, c: int): seq<RawFrame> {
    if log == [] then []
    else (if log[0].id.Some? && log[0].id.value > c then [log[0]] else []) + Above(log[1..], c)
  }

  lemma {:induction false} AboveAll(log: seq<RawFrame>, c: int)
    requires IsLog(log)
    requires log != [] ==> log[0].id.value > c
    ensures Above(log, c) == log
  {
    if log != [] {
      AboveAll(log[1..], c);
    }
  }

  lemma LogRest(log: seq<RawFrame>)
    requires IsLog(log) && log != []
    ensures IsLog(log[1..])
  {
  }

  lemma {:induction false} AboveLast(log: seq<RawFrame>, n: nat)
    requires IsLog(log) && 0 < n <= |log|
    ensures Above(log, log[n - 1].id.value) == log[n..]
  {
    LogRest(log);
    AboveSkips(log, log[n - 1].id.value);
    if n == 1 {
      AboveAll(log[1..], log[0].id.value);
    } else {
      AboveLast(log[1..], n - 1);
      DropTwice(log, n);
    }
  }

  lemma AboveSkips(log: seq<RawFrame>, c: int)
    requires log != [] && log[0].id.Some? && log[0].id.value <= c
    ensures Above(log, c) == Above(log[1..], c)
  {
  }

  lemma DropTwice(log: seq<RawFrame>, n: nat)
    requires 1 < n <= |log|
    ensures log[1..][n - 2] == log[n - 1] && log[1..][n - 1..] == log[n..]
  {
  }

  lemma CursorOfPrefix(log: seq<RawFrame>, c: int, n: nat)
    requires IsLog(log) && 0 < n <= |log|
    ensures CursorAfter(c, log[..n]) == log[n - 1].id.value
  {
    CursorAfterAppend(c, log[..n - 1], [log[n - 1]]);
    assert log[..n] == log[..n - 1] + [log[n - 1]];
  }

  /** What is above the last id of a prefix of the answer is the rest of the answer. */
  lemma {:induction false} AboveAfterPrefix(log: seq<RawFrame>, c: int, n: nat)
    requires IsLog(log)
    requires n <= |Above(log, c)|
    ensures CursorAfter(c, Above(log, c)[..n]) >= c
    ensures Above(log, CursorAfter(c, Above(log, c)[..n])) == Above(log, c)[n..]
    decreases |log|
  {
    if n > 0 {
      if log[0].id.value > c {
        AboveAll(log, c);
        CursorOfPrefix(log, c, n);
        AboveLast(log, n);
      } else {
        assert Above(log, c) == Above(log[1..], c);
        AboveAfterPrefix(log[1..], c, n);
      }
    }
  }

  // ----- Reconnecting -----

  /** What one request for the stream gets back. `body` holds the chunks up to its end or a read error. */
  datatype Reply = NetworkError | Response(status: int, body: Option<seq<string>>)

  datatype Outcome = Closed | Rejected(status: int) | Unreachable

  /**
   The client between two requests: what `onFrame` was called with, the cursor, the retry counter, and for
   each request that was not rejected whether its body was read.
   */
  datatype Client = Client(frames: seq<RawFrame>, cursor: int, attempts: nat, opens: seq<bool>,
        outcome: Option<Outcome>)

  const MAX_ATTEMPTS := 5

  predicate Hard(r: Reply) {
    r.Response? && 400 <= r.status < 500
  }

  predicate Opens(r: Reply) {
    r.Response? && 200 <= r.status < 300 && r.body.Some?
  }

  function BodyText(r: Reply): string
    requires Opens(r)
  {
    Concat(r.body.value)
  }

  function Received(num: Numbers, text: string): seq<RawFrame> {
    UntilClose(Frames(Parser(num), text))
  }

  /** One turn of the loop: `answer` is the reply as a function of the cursor asked from. */
  function Turn(num: Numbers, c: Client, answer: int -> Reply): Client {
    if c.outcome.Some? then c
    else
      var r := answer(c.cursor);
      if Hard(r) then c.(outcome := Some(Rejected(r.status)))
      else if Opens(r) then
        var fs := Received(num, BodyText(r));
        Client(c.frames + fs, CursorAfter(c.cursor, fs), 1, c.opens + [true],
               if HasClose(Frames(Parser(num), BodyText(r))) then Some(Closed) else None)
      else
        Client(c.frames, c.cursor, c.attempts + 1, c.opens + [false],
               if c.attempts + 1 > MAX_ATTEMPTS then Some(Unreachable) else None)
  }

  /** The client after the requests answered by `net`; the abort comes when `net` is used up. */
  function Follow(num: Numbers, net: seq<int -> Reply>, since: int): Client {
    if net == [] then Client([], since, 0, [], None)
    else Turn(num, Follow(num, net[..|net| - 1], since), net[|net| - 1])
  }

  lemma {:induction false} Stopped(num: Numbers, net: seq<int -> Reply>, since: int, k: nat)
    requires k <= |net| && Follow(num, net[..k], since).outcome.Some?
    ensures Follow(num, net, since) == Follow(num, net[..k], since)
  {
    if k == |net| {
      assert net[..k] == net;
    } else {
      assert net[..|net| - 1][..k] == net[..k];
      Stopped(num, net[..|net| - 1], since, k);
    }
  }

  method OpenChatEventStream(num: Numbers, net: seq<int -> Reply>, since: int) returns (c: Client)
    ensures c == Follow(num, net, since)
  {
    c := Client([], since, 0, [], None);
    for i := 0 to |net|
      invariant c == Follow(num, net[..i], since) && c.outcome.None?
    {
      assert net[..i + 1][..i] == net[..i];
      var res := net[i](c.cursor);
      if Hard(res) {
        c := c.(outcome := Some(Rejected(res.status)));
      } else if !Opens(res) {
        c := c.(attempts := c.attempts + 1, opens := c.opens + [false]);
        if c.attempts > MAX_ATTEMPTS {
          c := c.(outcome := Some(Unreachable));
        }
      } else {
        c := c.(attempts := 0, opens := c.opens + [true]);
        var frames, closed := ReadSse(num, res.body.value);
        c := c.(frames := c.frames + frames, cursor := CursorAfter(c.cursor, frames));
        if closed {
          c := c.(outcome := Some(Closed));
        }
        // Stream ended without an explicit close: reconnect from the cursor.
        c := c.(attempts := c.attempts + 1);
        if c.attempts > MAX_ATTEMPTS {
          // Giving up here never happens: the body was opened, so this is the first attempt.
          assert false;
        }
      }
      if c.outcome.Some? {
        Stopped(num, net, since, i + 1);
        return;
      }
    }
    assert net[..|net|] == net;
  }

  // ----- Exactly once -----

  function JoinBlocks(raws: seq<string>): string {
    if raws == [] then "" else raws[0] + BREAK + JoinBlocks(raws[1..])
  }

  function ParseAll(num: Numbers, raws: seq<string>): seq<RawFrame> {
    if raws == [] then [] else OptionSeq(Parser(num)(raws[0])) + ParseAll(num, raws[1..])
  }

  lemma {:induction false} FramesOfBlocks(num: Numbers, raws: seq<string>)
    requires forall raw | raw in raws :: IsBlock(raw)
    ensures Frames(Parser(num), JoinBlocks(raws)) == ParseAll(num, raws)
  {
    if raws == [] {
      assert IndexOf("", BREAK) == -1;
    } else {
      FramesOfBlocks(num, raws[1..]);
      FramesOfClosed(Parser(num), raws[0], JoinBlocks(raws[1..]));
    }
  }

  /** The blocks `raws` carry exactly the log above `c`: heartbeats and other frames without an id may come between. */
  ghost predicate Answers(num: Numbers, log: seq<RawFrame>, c: int, raws: seq<string>) {
    (forall raw | raw in raws :: IsBlock(raw)) && IdFrames(ParseAll(num, raws)) == Above(log, c)
  }

  /** `text` is what arrived of a full answer: the connection may be cut after any character. */
  ghost predicate Faithful(num: Numbers, log: seq<RawFrame>, c: int, text: string) {
    exists raws :: Answers(num, log, c, raws) && text <= JoinBlocks(raws)
  }

  ghost predicate HonestServer(num: Numbers, log: seq<RawFrame>, answer: int -> Reply) {
    forall c :: Opens(answer(c)) ==> Faithful(num, log, c, BodyText(answer(c)))
  }

  lemma IdFramesOfPrefix(a: seq<RawFrame>, b: seq<RawFrame>)
    requires a <= b
    ensures IdFrames(a) <= IdFrames(b)
  {
    IdFramesOfAppend(a, b[|a|..]);
    assert b == a + b[|a|..];
  }

  /** Whatever arrived, the id-bearing frames delivered are the first ones above the cursor. */
  lemma ReceivedIsPrefix(num: Numbers, log: seq<RawFrame>, c: int, text: string)
    requires Faithful(num, log, c, text)
    ensures IdFrames(Received(num, text)) <= Above(log, c)
  {
    var raws :| Answers(num, log, c, raws) && text <= JoinBlocks(raws);
    FramesOfBlocks(num, raws);
    FramesOfPart(num, text, JoinBlocks(raws));
    UntilCloseIsPrefix(Frames(Parser(num), text));
    IdFramesOfPrefix(Received(num, text), ParseAll(num, raws));
  }

  lemma FramesOfPart(num: Numbers, text: string, full: string)
    requires text <= full
    ensures Frames(Parser(num), text) <= Frames(Parser(num), full)
  {
    PrefixAndRest(text, full);
    FramesOfLonger(Parser(num), text, full[|text|..]);
  }

  /** Delivered so far, followed by what a request from the cursor is still owed, is the log above `since`. */
  lemma {:induction false} ExactlyOnce(num: Numbers, log: seq<RawFrame>, net: seq<int -> Reply>, since: int)
    requires IsLog(log)
    requires forall i | 0 <= i < |net| :: HonestServer(num, log, net[i])
    ensures var c := Follow(num, net, since);
            IdFrames(c.frames) + Above(log, c.cursor) == Above(log, since)
  {
    if net != [] {
      var before := Follow(num, net[..|net| - 1], since);
      ExactlyOnce(num, log, net[..|net| - 1], since);
      var answer := net[|net| - 1];
      var r := answer(before.cursor);
      assert HonestServer(num, log, answer);
      if before.outcome.None? && !Hard(r) && Opens(r) {
        DeliveryStep(num, log, since, before, BodyText(r));
      }
    }
  }

  lemma AdvanceCursor(log: seq<RawFrame>, since: int, before: Client, fs: seq<RawFrame>)
    requires IsLog(log)
    requires IdFrames(fs) <= Above(log, before.cursor)
    requires IdFrames(before.frames) + Above(log, before.cursor) == Above(log, since)
    ensures IdFrames(before.frames + fs) + Above(log, CursorAfter(before.cursor, fs)) == Above(log, since)
  {
    IdFramesOfAppend(before.frames, fs);
    CursorAfterIds(before.cursor, fs);
    var owed, got := Above(log, before.cursor), IdFrames(fs);
    AboveAfterPrefix(log, before.cursor, |got|);
    assert got == owed[..|got|];
    AppendAssociates(IdFrames(before.frames), got, owed[|got|..]);
    assert owed == got + owed[|got|..];
  }

  lemma DeliveryStep(num: Numbers, log: seq<RawFrame>, since: int, before: Client, text: string)
    requires IsLog(log)
    requires Faithful(num, log, before.cursor, text)
    requires IdFrames(before.frames) + Above(log, before.cursor) == Above(log, since)
    ensures var fs := Received(num, text);
            IdFrames(before.frames + fs) + Above(log, CursorAfter(before.cursor, fs)) == Above(log, since)
  {
    var fs := Received(num, text);
    ReceivedIsPrefix(num, log, before.cursor, text);
    AdvanceCursor(log, since, before, fs);
  }

  lemma {:induction false} UntilCloseAtLast(fs: seq<RawFrame>, last: RawFrame)
    requires !HasClose(fs) && last.event == "close"
    ensures UntilClose(fs + [last]) == fs + [last] && HasClose(fs + [last])
  {
    UntilCloseOfAppend(fs, [last]);
    assert last in fs + [last];
  }

  lemma {:induction false} ParseAllOfAppend(num: Numbers, a: seq<string>, raw: string)
    ensures ParseAll(num, a + [raw]) == ParseAll(num, a) + OptionSeq(Parser(num)(raw))
  {
    if a == [] {
      assert a + [raw] == [raw];
    } else {
      var rest := a[1..];
      assert (a + [raw])[1..] == rest + [raw] && (a + [raw])[0] == a[0];
      ParseAllOfAppend(num, rest, raw);
      AppendAssociates(OptionSeq(Parser(num)(a[0])), ParseAll(num, rest), OptionSeq(Parser(num)(raw)));
    }
  }

  /** A request that is answered in full, up to its `close`, ends the loop with the whole log delivered. */
  lemma CompleteAnswerEnds(num: Numbers, log: seq<RawFrame>, net: seq<int -> Reply>, since: int,
                           raws: seq<string>, close: string)
    requires IsLog(log)
    requires net != [] && forall i | 0 <= i < |net| :: HonestServer(num, log, net[i])
    requires Follow(num, net[..|net| - 1], since).outcome.None?
    requires var c := Follow(num, net[..|net| - 1], since).cursor; var r := net[|net| - 1](c);
             && Opens(r) && BodyText(r) == JoinBlocks(raws + [close])
             && Answers(num, log, c, raws + [close])
    requires !HasClose(ParseAll(num, raws))
    requires Parser(num)(close).Some? && Parser(num)(close).value.event == "close"
    ensures var c := Follow(num, net, since);
            c.outcome == Some(Closed) && IdFrames(c.frames) == Above(log, since)
  {
    var before := Follow(num, net[..|net| - 1], since);
    var text := BodyText(net[|net| - 1](before.cursor));
    ExactlyOnce(num, log, net[..|net| - 1], since);
    FramesOfBlocks(num, raws + [close]);
    ParseAllOfAppend(num, raws, close);
    UntilCloseAtLast(ParseAll(num, raws), Parser(num)(close).value);
    IdFramesOfAppend(before.frames, Received(num, text));
  }

  // ----- What each answer does -----

  /** A success with a body to read. */
  predicate IsStream(r: Reply) {
    r.Response? && 200 <= r.status <= 299 && r.body.Some?
  }

  /**
   Wherever the loop has got to, the next answer ends it with a rejection exactly when its status is one of 400 to
   499. Only a success with a body is read. Everything else, a 503 or a redirect, leaves frames and cursor alone and
   ends the loop exactly when five attempts are already spent.
   */
  lemma AnswerByStatus(num: Numbers, net: seq<int -> Reply>, answer: int -> Reply, since: int)
    requires Follow(num, net, since).outcome.None?
    ensures var c, n := Follow(num, net, since), Follow(num, net + [answer], since);
            var r := answer(c.cursor);
            && (r.Response? && 400 <= r.status <= 499 ==> n == c.(outcome := Some(Rejected(r.status))))
            && (IsStream(r) ==> n.opens == c.opens + [true] && n.outcome in {None, Some(Closed)})
            && (!IsStream(r) ==> n.frames == c.frames && n.cursor == c.cursor)
            && (!IsStream(r) && !(r.Response? && 400 <= r.status <= 499) ==>
                  && n.opens == c.opens + [false]
                  && n.outcome == if Spent(c.opens) >= 5 then Some(Unreachable) else None)
  {
    var all := net + [answer];
    assert all[..|net|] == net && all[|net|] == answer;
    GivesUpAtLimit(num, net, since);
  }

  /** A stream is read up to its first `close`, which ends the loop; one without leaves it open. */
  lemma StreamByClose(num: Numbers, net: seq<int -> Reply>, answer: int -> Reply, since: int)
    requires Follow(num, net, since).outcome.None?
    requires IsStream(answer(Follow(num, net, since).cursor))
    ensures var c, n := Follow(num, net, since), Follow(num, net + [answer], since);
            var fs := Frames(Parser(num), Concat(answer(c.cursor).body.value));
            && (n.outcome == Some(Closed) <==> exists f | f in fs :: f.event == "close")
            && n.frames == c.frames + UntilClose(fs)
  {
    var all := net + [answer];
    assert all[..|net|] == net && all[|net|] == answer;
  }

  // ----- Giving up -----

  /** How many of the latest requests failed one after the other. */
  function Streak(opens: seq<bool>): nat {
    if opens == [] || opens[|opens| - 1] then 0 else 1 + Streak(opens[..|opens| - 1])
  }

  /** The attempts spent: the failing streak, and one for the body that ended before it. */
  function Spent(opens: seq<bool>): nat {
    Streak(opens) + if true in opens then 1 else 0
  }

  /** The loop gives up exactly when the attempts spent pass the limit, and never spends more before. */
  lemma {:induction false} GivesUpAtLimit(num: Numbers, net: seq<int -> Reply>, since: int)
    ensures var c := Follow(num, net, since);
            && (c.outcome == Some(Unreachable) <==> Spent(c.opens) > 5)
            && (c.outcome == None ==> c.attempts == Spent(c.opens))
            && forall k | 0 <= k < |c.opens| :: Spent(c.opens[..k]) <= 5
  {
    if net != [] {
      var before := Follow(num, net[..|net| - 1], since);
      var after := Follow(num, net, since);
      GivesUpAtLimit(num, net[..|net| - 1], since);
      if after.opens != before.opens {
        var ok := after.opens[|before.opens|];
        SpentStep(before.opens, ok);
        assert after.opens == before.opens + [ok];
        forall k | 0 <= k < |after.opens|
          ensures Spent(after.opens[..k]) <= 5
        {
          assert after.opens[..k] == if k < |before.opens| then before.opens[..k] else before.opens;
        }
      }
    }
  }

  lemma SpentStep(opens: seq<bool>, ok: bool)
    ensures Spent(opens + [ok]) == if ok then 1 else Spent(opens) + 1
  {
    assert (opens + [ok])[..|opens|] == opens;
  }

  /** No more than six failures in a row fit in a list of opens that spends within the limit until its last. */
  lemma ShortStreaks(opens: seq<bool>, i: nat, j: nat)
    requires i <= j <= |opens| && true !in opens[i..j]
    requires forall k | 0 <= k < |opens| :: Spent(opens[..k]) <= 5
    ensures j - i <= 6
  {
    var upTo := opens[..j];
    assert upTo[i..] == opens[i..j];
    StreakCovers(upTo, i);
    if j > 0 {
      assert upTo == opens[..j - 1] + [opens[j - 1]];
      SpentStep(opens[..j - 1], opens[j - 1]);
    }
  }

  /** At most six opens fail one after the other, wherever in the run they are. */
  lemma AtMostSixFailuresInARow(num: Numbers, net: seq<int -> Reply>, since: int, i: nat, j: nat)
    requires var opens := Follow(num, net, since).opens;
             i <= j <= |opens| && true !in opens[i..j]
    ensures j - i <= 6
  {
    GivesUpAtLimit(num, net, since);
    ShortStreaks(Follow(num, net, since).opens, i, j);
  }

  lemma {:induction false} StreakCovers(opens: seq<bool>, i: nat)
    requires i <= |opens| && true !in opens[i..]
    ensures Streak(opens) >= |opens| - i
  {
    if i < |opens| {
      assert opens[|opens| - 1] in opens[i..];
      assert forall b | b in opens[..|opens| - 1][i..] :: b in opens[i..];
      StreakCovers(opens[..|opens| - 1], i);
    }
  }

  // ----- A log entry on the wire -----

  function IdLine(id: string): string {
    "id: " + id
  }

  /** An entry printed with its id first is one block and parses back to the entry. */
  lemma PrintedEntryParses(num: Numbers, id: string, n: int, w: Wire)
    requires Printable(w) && Trimmed(id) && '\n' !in id && num(id) == Some(n)
    ensures ParseFrame(num, IdLine(id) + ['\n'] + Body(w)) == Some(RawFrame(Some(n), w.name, Some(w.json)))
  {
    var raw := IdLine(id) + ['\n'] + Body(w);
    assert '\n' !in EventLine(w) && '\n' !in DataLine(w) && '\n' !in IdLine(id);
    SplitAtSep(IdLine(id), Body(w), '\n');
    SplitAtSep(EventLine(w), DataLine(w), '\n');
    SplitNone(DataLine(w), '\n');
    assert Split(raw, '\n') == [IdLine(id), EventLine(w)] + [DataLine(w)];
    DataLineParses(w, [IdLine(id), EventLine(w)]);
    EventLineParses(w);
    EntryLines(num, id, n, w);
  }

  lemma EntryLines(num: Numbers, id: string, n: int, w: Wire)
    requires Printable(w) && Trimmed(id) && num(id) == Some(n)
    ensures var two := [IdLine(id), EventLine(w)];
            && EventName(two) == w.name && DataLines(two) == []
            && IdOf(num, two + [DataLine(w)]) == Some(n)
  {
    var two := [IdLine(id), EventLine(w)];
    assert [IdLine(id)][..0] == [] && two[..1] == [IdLine(id)] && (two + [DataLine(w)])[..2] == two;
    assert IdLine(id)[3..] == " " + id && IdLine(id)[0] == 'i' && "id:" <= IdLine(id);
    assert EventLine(w)[0] == 'e' && DataLine(w)[0] == 'd';
    assert EventLine(w)[6..] == " " + w.name && "event:" <= EventLine(w);
    TrimAfterSpace(id);
    TrimAfterSpace(w.name);
    assert DataLines([IdLine(id)]) == [];
    assert IdOf(num, [IdLine(id)]) == Some(n);
    assert IdOf(num, two) == Some(n);
  }

  // ----- What a block is read as -----

  /** An id line sets the id to the number it spells, an empty one included, and leaves it if it spells none. */
  lemma IdLineReads(num: Numbers, before: seq<string>, text: string)
    ensures IdOf(num, before + ["id:" + text]) ==
              if num(Trim(text)).Some? then num(Trim(text)) else IdOf(num, before)
  {
    var line := "id:" + text;
    assert (before + [line])[..|before|] == before && line[3..] == text;
  }

  lemma {:induction false} NoIdRead(num: Numbers, lines: seq<string>)
    requires forall l | l in lines :: l == "" || l[0] != 'i'
    ensures IdOf(num, lines) == None
  {
    if lines != [] {
      assert lines[|lines| - 1] in lines && "id:"[0] == 'i';
      NoIdRead(num, lines[..|lines| - 1]);
    }
  }

  /** A text of any lines is read back from its data lines, under its event name, or `message` without one. */
  lemma NamedBlockReads(num: Numbers, name: Option<string>, text: string)
    requires TidyLines(text) && (name.Some? ==> IsToken(name.value))
    ensures ParseFrame(num, NamedBlock(name, text)) ==
              Some(RawFrame(None, if name.Some? then name.value else "message", Some(text)))
  {
    NamedLinesRead(name, text);
    BlockLinesAreFields(name, text);
    NoIdRead(num, BlockLines(name, text));
  }

  /** Comments and blank lines alone are no frame. */
  lemma CommentsAreDropped(num: Numbers, lines: seq<string>)
    requires lines != [] && forall l | l in lines :: '\n' !in l && (l == "" || l[0] == ':')
    ensures ParseFrame(num, Join(lines, "\n")) == None
  {
    CommentsSayNothing(lines);
    SplitJoin(lines, '\n');
  }

  /** A name alone is a frame without data. */
  lemma NameAlone(num: Numbers, name: string)
    requires IsToken(name) && name != "message"
    ensures ParseFrame(num, "event: " + name) == Some(RawFrame(None, name, None))
  {
    var named := "event: " + name;
    SplitNone(named, '\n');
    EventLineReads(name, []);
    assert [] + [named] == [named];
    NoIdRead(num, [named]);
  }
}
