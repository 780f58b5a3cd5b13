/**
 The durable transcript of a run (src/server/db/persistence.ts): what is stored for the assistant's message, and
 that it agrees with the settled result and with what the live view showed.
 */
module Transcript {
  import opened Text
  import opened Events
  import opened Translator
  import S = SettlementModel
  import Identity

  datatype Record = Record(tool: string, callID: string, toolState: ToolState, raw: Option<string>,
        content: Option<string>)

  /** The fold over a stream; `byCall` maps a call id to the position of its record. */
  datatype Fold = Fold(chunks: seq<string>, finalText: string, records: seq<Record>, byCall: map<string, nat>)

  const EMPTY := Fold([], "", [], map[])

  function CallLabel(n: nat): string {
    "call-" + Decimal(n)
  }

  function Outcome(ok: bool): ToolState {
    if ok then Completed else Errored
  }

  function Step(s: Fold, ev: EngineEvent): Fold {
    match ev
    case StreamChunk(text) => if text != "" then s.(chunks := s.chunks + [text]) else s
    case FinalText(text) => s.(finalText := text)
    case ToolCall(name, args, callId) =>
      var id := Identity.OrElse(callId, CallLabel(|s.records|));
      s.(records := s.records + [Record(name, id, Running, Some(args), None)], byCall := s.byCall[id := |s.records|])
    case ToolResult(ok, output, callId) =>
      var id := Identity.OrElse(callId, "");
      if id in s.byCall && s.byCall[id] < |s.records| then
        var i := s.byCall[id];
        s.(records := s.records[i := s.records[i].(toolState := Outcome(ok), content := output)])
      else
        var callID := if id != "" then id else CallLabel(|s.records|);
        s.(records := s.records + [Record("tool", callID, Outcome(ok), None, output)])
    case _ => s
  }

  function StepAll(evs: seq<EngineEvent>): Fold {
    if evs == [] then EMPTY else Step(StepAll(evs[..|evs| - 1]), evs[|evs| - 1])
  }

  /** One entry of the stored list; the list and the index share it. */
  class ToolCallAcc {
    const tool: string
    const callID: string
    var toolState: ToolState
    const raw: Option<string>
    var content: Option<string>

    constructor (tool: string, callID: string, toolState: ToolState, raw: Option<string>, content: Option<string>)
      ensures Value() == Record(tool, callID, toolState, raw, content)
    {
      this.tool, this.callID, this.toolState, this.raw, this.content := tool, callID, toolState, raw, content;
    }

    function Value(): Record
      reads this
    {
      Record(tool, callID, toolState, raw, content)
    }
  }

  class RunTranscript {
    var contentChunks: seq<string>
    var toolCalls: seq<ToolCallAcc>
    var toolByCall: map<string, ToolCallAcc>
    var finalText: string
    ghost var folded: Fold

    ghost predicate Valid()
      reads this, toolCalls
    {
      && contentChunks == folded.chunks && finalText == folded.finalText
      && |toolCalls| == |folded.records|
      && (forall i | 0 <= i < |toolCalls| :: toolCalls[i].Value() == folded.records[i])
      && (forall i, j | 0 <= i < j < |toolCalls| :: toolCalls[i] != toolCalls[j])
      && toolByCall.Keys == folded.byCall.Keys
      && (forall id | id in toolByCall ::
            folded.byCall[id] < |toolCalls| && toolByCall[id] == toolCalls[folded.byCall[id]])
    }

    constructor ()
      ensures Valid() && folded == EMPTY
    {
      contentChunks, toolCalls, toolByCall, finalText, folded := [], [], map[], "", EMPTY;
    }

    method OnEvent(ev: EngineEvent)
      requires Valid()
      modifies this, toolCalls
      ensures Valid() && folded == Step(old(folded), ev)
      ensures forall o | o in toolCalls :: o in old(toolCalls) || fresh(o)
    {
      match ev {
        case StreamChunk(text) =>
          if text != "" {
            contentChunks := contentChunks + [text];
          }
          folded := Step(folded, ev);
        case FinalText(text) =>
          finalText := text;
          folded := Step(folded, ev);
        case ToolCall(name, args, callId) => OnCall(ev);
        case ToolResult(ok, output, callId) => OnResult(ev);
        case _ =>
      }
    }

    method OnCall(ev: EngineEvent)
      requires Valid() && ev.ToolCall?
      modifies this
      ensures Valid() && folded == Step(old(folded), ev)
      ensures forall o | o in toolCalls :: o in old(toolCalls) || fresh(o)
    {
      var id := if ev.callId.Some? then ev.callId.value else CallLabel(|toolCalls|);
      var entry := new ToolCallAcc(ev.name, id, Running, Some(ev.args), None);
      toolByCall := toolByCall[id := entry];
      toolCalls := toolCalls + [entry];
      folded := Step(folded, ev);
    }

    method OnResult(ev: EngineEvent)
      requires Valid() && ev.ToolResult?
      modifies this, toolCalls
      ensures Valid() && folded == Step(old(folded), ev)
      ensures forall o | o in toolCalls :: o in old(toolCalls) || fresh(o)
    {
      var id := if ev.callId.Some? then ev.callId.value else "";
      if id in toolByCall {
        Amend(toolByCall[id], folded.byCall[id], Outcome(ev.ok), ev.output);
      } else {
        var callID := if id != "" then id else CallLabel(|toolCalls|);
        var entry := new ToolCallAcc("tool", callID, Outcome(ev.ok), None, ev.output);
        toolCalls := toolCalls + [entry];
        folded := Step(folded, ev);
      }
    }

    /** Writes through the shared entry, so the list sees it. */
    method Amend(entry: ToolCallAcc, ghost i: nat, state: ToolState, content: Option<string>)
      requires Valid() && i < |toolCalls| && toolCalls[i] == entry
      modifies this`folded, entry
      ensures Valid()
      ensures var amended := old(folded).records[i].(toolState := state, content := content);
              folded == old(folded).(records := old(folded).records[i := amended])
    {
      entry.toolState := state;
      entry.content := content;
      folded := folded.(records := folded.records[i := folded.records[i].(toolState := state, content := content)]);
    }

    /** The assistant message that `settle` stores. */
    method Settle(result: RunResult) returns (content: string, tools: seq<Record>)
      requires Valid()
      ensures content == Stored(folded, result) && tools == folded.records
    {
      content := if result.finalText != "" then result.finalText
                 else if finalText != "" then finalText else Concat(contentChunks);
      tools := seq(|toolCalls|, i requires 0 <= i < |toolCalls| reads this, toolCalls => toolCalls[i].Value());
      assert tools == folded.records;
    }
  }

  function Stored(s: Fold, result: RunResult): string {
    if result.finalText != "" then result.finalText else if s.finalText != "" then s.finalText else Concat(s.chunks)
  }

  // ----- The stored text -----

  lemma {:induction false} FoldedText(evs: seq<EngineEvent>)
    ensures StepAll(evs).finalText == LastFinal(evs) && Concat(StepAll(evs).chunks) == Chunks(evs)
  {
    if evs != [] {
      FoldedText(evs[..|evs| - 1]);
      ChunkStep(StepAll(evs[..|evs| - 1]), evs[|evs| - 1]);
    }
  }

  lemma ChunkStep(s: Fold, ev: EngineEvent)
    ensures Concat(Step(s, ev).chunks) == Concat(s.chunks) + if ev.StreamChunk? then ev.text else ""
  {
    if ev.StreamChunk? && ev.text != "" {
      assert (s.chunks + [ev.text])[..|s.chunks|] == s.chunks;
    } else {
      assert Concat(s.chunks) + "" == Concat(s.chunks);
    }
  }

  /** For the result settled on the same stream, the stored text is the settled text and no fallback disagrees. */
  lemma StoredTextIsSettled(runId: string, evs: seq<EngineEvent>)
    ensures var settled := S.ResultOf(runId, evs);
            && Stored(StepAll(evs), settled) == settled.finalText
            && Stored(StepAll(evs), settled.(finalText := "")) == settled.finalText
  {
    FoldedText(evs);
  }

  // ----- The stored tools -----

  datatype Call = Call(name: string, args: string, id: string)

  function CallsOf(evs: seq<EngineEvent>): seq<Call> {
    if evs == [] then []
    else
      var ev := evs[|evs| - 1];
      CallsOf(evs[..|evs| - 1]) + if ev.ToolCall? then [Call(ev.name, ev.args, CallKey(ev.callId))] else []
  }

  /** Every call has an id of its own, and every result answers an earlier call. */
  predicate Matched(evs: seq<EngineEvent>) {
    evs == [] ||
    (var before, ev := evs[..|evs| - 1], evs[|evs| - 1];
     && Matched(before)
     && (ev.ToolCall? ==> CallKey(ev.callId) != "" && !HasCall(CallsOf(before), CallKey(ev.callId)))
     && (ev.ToolResult? ==> CallKey(ev.callId) != "" && HasCall(CallsOf(before), CallKey(ev.callId))))
  }

  predicate HasCall(calls: seq<Call>, id: string) {
    exists c :: c in calls && c.id == id
  }

  /** Some event is a result of the call. */
  predicate Answered(evs: seq<EngineEvent>, id: string) {
    exists ev | ev in evs :: ev.ToolResult? && CallKey(ev.callId) == id
  }

  /** The last thing the live view showed for a call. */
  function LastShown(frames: seq<IslandFrame>, id: string): Option<IslandFrame> {
    if frames == [] then None
    else if frames[|frames| - 1].ToolUse? && frames[|frames| - 1].callId == Some(id) then Some(frames[|frames| - 1])
    else LastShown(frames[..|frames| - 1], id)
  }

  predicate Shows(frame: Option<IslandFrame>, r: Record) {
    frame.Some? && frame.value.ToolUse? && frame.value.tool == r.tool && frame.value.state == r.toolState
    && frame.value.content == r.content
  }

  /** The same, with the name that the live view falls back to for an unnamed tool that was answered. */
  predicate ShowsOrTool(frame: Option<IslandFrame>, r: Record) {
    Shows(frame, if r.tool == "" && r.toolState != Running then r.(tool := "tool") else r)
  }

  lemma LastShownOne(frames: seq<IslandFrame>, f: IslandFrame, id: string)
    ensures LastShown(frames + [f], id) == if f.ToolUse? && f.callId == Some(id) then Some(f) else LastShown(frames, id)
  {
    assert (frames + [f])[..|frames|] == frames;
  }

  lemma AnsweredOneMore(evs: seq<EngineEvent>, ev: EngineEvent, id: string)
    ensures Answered(evs + [ev], id) <==> Answered(evs, id) || (ev.ToolResult? && CallKey(ev.callId) == id)
  {
    if Answered(evs, id) {
      var e :| e in evs && e.ToolResult? && CallKey(e.callId) == id;
      assert e in evs + [ev];
    }
    assert ev in evs + [ev];
  }

  /** The id under which a call is filed after `before`; one without an id gets a label. */
  function FiledId(before: seq<EngineEvent>, call: EngineEvent): string
    requires call.ToolCall?
  {
    Identity.OrElse(call.callId, CallLabel(|StepAll(before).records|))
  }

  /** The index points into the records. */
  ghost predicate InRange(s: Fold) {
    forall id | id in s.byCall :: s.byCall[id] < |s.records|
  }

  lemma {:induction false} AllInRange(evs: seq<EngineEvent>)
    ensures InRange(StepAll(evs))
  {
    if evs != [] {
      AllInRange(evs[..|evs| - 1]);
    }
  }

  /** Some call is filed under the id. */
  predicate Called(evs: seq<EngineEvent>, id: string) {
    evs != [] &&
    (var before, ev := evs[..|evs| - 1], evs[|evs| - 1];
     Called(before, id) || (ev.ToolCall? && FiledId(before, ev) == id))
  }

  /** What a stored tool is opened with. */
  datatype Opening = Opening(tool: string, raw: Option<string>, callID: string)

  /** The id that came with an event, or one that counts the tools stored before it. */
  function GivenId(callId: Option<string>, stored: nat): string {
    match callId
    case Some(id) => id
    case None => "call-" + Decimal(stored)
  }

  /** The name and arguments of every call, and a bare `tool` for every result that no earlier call is filed under. */
  function Opened(evs: seq<EngineEvent>): seq<Opening> {
    if evs == [] then []
    else
      var before, ev := evs[..|evs| - 1], evs[|evs| - 1];
      Opened(before)
      + if ev.ToolCall? then [Opening(ev.name, Some(ev.args), GivenId(ev.callId, |Opened(before)|))]
        else if ev.ToolResult? && !Called(before, CallKey(ev.callId)) then
          [Opening("tool", None, GivenId(if ev.callId == Some("") then None else ev.callId, |Opened(before)|))]
        else []
  }

  lemma {:induction false} IndexedIsCalled(evs: seq<EngineEvent>, id: string)
    ensures id in StepAll(evs).byCall <==> Called(evs, id)
  {
    if evs != [] {
      IndexedIsCalled(evs[..|evs| - 1], id);
    }
  }

  /** Whatever a stream has, the stored tools are its calls and its results without a call, in order. */
  lemma {:induction false} StoredToolsInOrder(evs: seq<EngineEvent>)
    ensures var records, entries := StepAll(evs).records, Opened(evs);
            && |records| == |entries|
            && forall i | 0 <= i < |records| ::
                 Opening(records[i].tool, records[i].raw, records[i].callID) == entries[i]
  {
    if evs != [] {
      var before, ev := evs[..|evs| - 1], evs[|evs| - 1];
      StoredToolsInOrder(before);
      AllInRange(before);
      if ev.ToolResult? {
        IndexedIsCalled(before, CallKey(ev.callId));
      }
    }
  }

  /** A result without a call is stored as it came: its outcome and its output. */
  lemma OrphanIsStored(before: seq<EngineEvent>, ev: EngineEvent)
    requires ev.ToolResult? && !Called(before, CallKey(ev.callId))
    ensures var records, n := StepAll(before + [ev]).records, |StepAll(before).records|;
            && |records| == n + 1 && records[..n] == StepAll(before).records
            && records[n].content == ev.output && records[n].toolState == (if ev.ok then Completed else Errored)
  {
    assert (before + [ev])[..|before|] == before;
    IndexedIsCalled(before, CallKey(ev.callId));
  }

  /** With `before` behind it, no call of `after` is filed under `id`. */
  predicate KeepsId(before: seq<EngineEvent>, after: seq<EngineEvent>, id: string) {
    after == [] ||
    (var init, ev := after[..|after| - 1], after[|after| - 1];
     KeepsId(before, init, id) && (ev.ToolCall? ==> FiledId(before + init, ev) != id))
  }

  /** The record at `n` is the call's, the names are too, and the live view has last shown it as it is stored. */
  ghost predicate Follows(s: Fold, t: TState, frames: seq<IslandFrame>, n: nat, call: EngineEvent, answered: bool)
    requires call.ToolCall?
  {
    var id := CallKey(call.callId);
    && n < |s.records| && id in t.names && t.names[id] == call.name
    && (forall other | other in s.byCall :: s.byCall[other] == n <==> other == id) && id in s.byCall
    && var r := s.records[n];
       && r.tool == call.name && r.callID == id && r.raw == Some(call.args)
       && ShowsOrTool(LastShown(frames, id), r) && (r.toolState != Running <==> answered)
  }

  lemma CallFollows(s: Fold, t: TState, frames: seq<IslandFrame>, call: EngineEvent)
    requires call.ToolCall? && CallKey(call.callId) != "" && InRange(s)
    ensures Follows(Step(s, call), After(t, call), frames + FramesFor(t, call), |s.records|, call, false)
  {
    LastShownOne(frames, FramesFor(t, call)[0], CallKey(call.callId));
  }

  lemma ResultFollows(s: Fold, t: TState, frames: seq<IslandFrame>, n: nat, call: EngineEvent, answered: bool,
                      ev: EngineEvent)
    requires call.ToolCall? && CallKey(call.callId) != "" && ev.ToolResult?
    requires Follows(s, t, frames, n, call, answered)
    ensures Follows(Step(s, ev), After(t, ev), frames + FramesFor(t, ev), n, call,
                    answered || CallKey(ev.callId) == CallKey(call.callId))
  {
    LastShownOne(frames, FramesFor(t, ev)[0], CallKey(call.callId));
  }

  lemma OtherFollows(s: Fold, t: TState, frames: seq<IslandFrame>, n: nat, call: EngineEvent, answered: bool,
                     ev: EngineEvent)
    requires call.ToolCall? && CallKey(call.callId) != "" && !ev.ToolResult?
    requires Follows(s, t, frames, n, call, answered)
    requires ev.ToolCall? ==> Identity.OrElse(ev.callId, CallLabel(|s.records|)) != CallKey(call.callId)
    ensures Follows(Step(s, ev), After(t, ev), frames + FramesFor(t, ev), n, call, answered)
  {
    if FramesFor(t, ev) == [] {
      assert frames + [] == frames;
    } else {
      assert FramesFor(t, ev) == [FramesFor(t, ev)[0]];
      LastShownOne(frames, FramesFor(t, ev)[0], CallKey(call.callId));
    }
  }

  lemma {:induction false} CallIsFollowed(before: seq<EngineEvent>, call: EngineEvent, after: seq<EngineEvent>)
    requires call.ToolCall? && CallKey(call.callId) != ""
    requires KeepsId(before + [call], after, CallKey(call.callId))
    ensures var evs := before + [call] + after;
            Follows(StepAll(evs), AfterAll(INITIAL, evs), AllFrames(INITIAL, evs), |StepAll(before).records|, call,
                    Answered(after, CallKey(call.callId)))
  {
    if after == [] {
      assert before + [call] + [] == before + [call] && (before + [call])[..|before|] == before;
      AllInRange(before);
      CallFollows(StepAll(before), AfterAll(INITIAL, before), AllFrames(INITIAL, before), call);
    } else {
      var init, ev := after[..|after| - 1], after[|after| - 1];
      var sofar := before + [call] + init;
      CallIsFollowed(before, call, init);
      assert before + [call] + after == sofar + [ev] && (sofar + [ev])[..|sofar|] == sofar && after == init + [ev];
      AnsweredOneMore(init, ev, CallKey(call.callId));
      StepFollows(sofar, |StepAll(before).records|, call, Answered(init, CallKey(call.callId)), ev);
    }
  }

  lemma StepFollows(sofar: seq<EngineEvent>, n: nat, call: EngineEvent, answered: bool, ev: EngineEvent)
    requires call.ToolCall? && CallKey(call.callId) != ""
    requires Follows(StepAll(sofar), AfterAll(INITIAL, sofar), AllFrames(INITIAL, sofar), n, call, answered)
    requires ev.ToolCall? ==> FiledId(sofar, ev) != CallKey(call.callId)
    ensures Follows(Step(StepAll(sofar), ev), After(AfterAll(INITIAL, sofar), ev),
                    AllFrames(INITIAL, sofar) + FramesFor(AfterAll(INITIAL, sofar), ev), n, call,
                    answered || (ev.ToolResult? && CallKey(ev.callId) == CallKey(call.callId)))
  {
    var s, t, frames := StepAll(sofar), AfterAll(INITIAL, sofar), AllFrames(INITIAL, sofar);
    if ev.ToolResult? {
      ResultFollows(s, t, frames, n, call, answered, ev);
    } else {
      OtherFollows(s, t, frames, n, call, answered, ev);
    }
  }

  /**
   Whatever else a stream has, a call with an id that no later call takes over is stored with its name and arguments,
   and in the last state, and with the last output, that the live view showed under its id. The name shown is the same,
   or `tool` for an unnamed tool that was answered.
   */
  lemma CallIsStoredAsShown(before: seq<EngineEvent>, call: EngineEvent, after: seq<EngineEvent>)
    requires call.ToolCall? && CallKey(call.callId) != ""
    requires KeepsId(before + [call], after, CallKey(call.callId))
    ensures var evs, id, n := before + [call] + after, CallKey(call.callId), |StepAll(before).records|;
            && n < |StepAll(evs).records|
            && var r, shown := StepAll(evs).records[n], LastShown(AllFrames(INITIAL, evs), id);
               && r.tool == call.name && r.callID == id && r.raw == Some(call.args)
               && shown.Some? && shown.value.ToolUse?
               && shown.value.state == r.toolState && shown.value.content == r.content
               && shown.value.tool == if call.name == "" && Answered(after, id) then "tool" else call.name
  {
    CallIsFollowed(before, call, after);
  }

  // ----- The list of stored tools -----

  lemma {:induction false} CallPlace(evs: seq<EngineEvent>, k: nat)
    returns (before: seq<EngineEvent>, call: EngineEvent, after: seq<EngineEvent>)
    requires k < |CallsOf(evs)|
    ensures evs == before + [call] + after && call.ToolCall? && |CallsOf(before)| == k
    ensures CallsOf(evs)[k] == Call(call.name, call.args, CallKey(call.callId))
  {
    var init, last := evs[..|evs| - 1], evs[|evs| - 1];
    if k < |CallsOf(init)| {
      before, call, after := CallPlace(init, k);
      after := after + [last];
    } else {
      before, call, after := init, last, [];
    }
  }

  lemma {:induction false} MatchedFront(front: seq<EngineEvent>, back: seq<EngineEvent>)
    requires Matched(front + back)
    ensures Matched(front)
  {
    if back == [] {
      assert front + back == front;
    } else {
      assert (front + back)[..|front + back| - 1] == front + back[..|back| - 1];
      MatchedFront(front, back[..|back| - 1]);
    }
  }

  /** In a matched stream the records are as many as the calls, and the index knows the ids called. */
  lemma {:induction false} MatchedRecords(evs: seq<EngineEvent>)
    requires Matched(evs)
    ensures |StepAll(evs).records| == |CallsOf(evs)| && InRange(StepAll(evs))
    ensures forall c | c in CallsOf(evs) :: c.id in StepAll(evs).byCall
  {
    if evs != [] {
      MatchedRecords(evs[..|evs| - 1]);
    }
  }

  lemma {:induction false} CalledStays(front: seq<EngineEvent>, back: seq<EngineEvent>, id: string)
    requires HasCall(CallsOf(front), id)
    ensures HasCall(CallsOf(front + back), id)
  {
    if back == [] {
      assert front + back == front;
    } else {
      var init := front + back[..|back| - 1];
      assert (front + back)[..|front + back| - 1] == init;
      CalledStays(front, back[..|back| - 1], id);
      var c :| c in CallsOf(init) && c.id == id;
      assert c in CallsOf(front + back);
    }
  }

  lemma {:induction false} MatchedKeepsId(before: seq<EngineEvent>, after: seq<EngineEvent>, id: string)
    requires Matched(before + after) && HasCall(CallsOf(before), id)
    ensures KeepsId(before, after, id)
  {
    if after != [] {
      var init := after[..|after| - 1];
      assert (before + after)[..|before + after| - 1] == before + init;
      MatchedKeepsId(before, init, id);
      CalledStays(before, init, id);
    }
  }

  lemma {:induction false} AnsweredIsCalled(evs: seq<EngineEvent>, id: string)
    requires Matched(evs) && Answered(evs, id)
    ensures HasCall(CallsOf(evs), id)
  {
    var before, ev := evs[..|evs| - 1], evs[|evs| - 1];
    assert evs == before + [ev];
    AnsweredOneMore(before, ev, id);
    if Answered(before, id) {
      AnsweredIsCalled(before, id);
    }
    var c :| c in CallsOf(before) && c.id == id;
    assert c in CallsOf(evs);
  }

  /** A call of a matched stream is its own, and only what comes after it answers it. */
  lemma MatchedCall(before: seq<EngineEvent>, call: EngineEvent, after: seq<EngineEvent>)
    requires call.ToolCall? && Matched(before + [call] + after)
    ensures Matched(before) && CallKey(call.callId) != "" && KeepsId(before + [call], after, CallKey(call.callId))
    ensures Answered(before + [call] + after, CallKey(call.callId)) <==> Answered(after, CallKey(call.callId))
  {
    var id, upTo := CallKey(call.callId), before + [call];
    MatchedFront(upTo, after);
    MatchedFront(before, [call]);
    assert upTo[..|upTo| - 1] == before;
    assert Call(call.name, call.args, id) in CallsOf(upTo);
    MatchedKeepsId(upTo, after, id);
    if Answered(before, id) {
      AnsweredIsCalled(before, id);
    }
  }

  /** The record of call `k` is what the live view last showed for it, unless the tool is unnamed and was answered. */
  predicate StoredAsShown(evs: seq<EngineEvent>, k: nat)
    requires k < |CallsOf(evs)| == |StepAll(evs).records|
  {
    var r, c := StepAll(evs).records[k], CallsOf(evs)[k];
    && r.tool == c.name && r.callID == c.id && r.raw == Some(c.args)
    && (Shows(LastShown(AllFrames(INITIAL, evs), c.id), r) <==> !(c.name == "" && Answered(evs, c.id)))
  }

  lemma ToolIsShown(evs: seq<EngineEvent>, k: nat)
    requires Matched(evs) && k < |CallsOf(evs)| == |StepAll(evs).records|
    ensures StoredAsShown(evs, k)
  {
    var before, call, after := CallPlace(evs, k);
    MatchedCall(before, call, after);
    MatchedRecords(before);
    CallIsStoredAsShown(before, call, after);
  }

  /**
   With distinct call ids, the stored tools are the calls in order. Each is stored in the last state, and with the
   last output, that the live view showed for it, exactly when it is not an unnamed tool that was answered.
   */
  lemma StoredToolsAreShown(evs: seq<EngineEvent>)
    requires Matched(evs)
    ensures |StepAll(evs).records| == |CallsOf(evs)|
    ensures forall k | 0 <= k < |CallsOf(evs)| :: StoredAsShown(evs, k)
  {
    MatchedRecords(evs);
    forall k | 0 <= k < |CallsOf(evs)|
      ensures StoredAsShown(evs, k)
    {
      ToolIsShown(evs, k);
    }
  }
}
