/**
 The browser translator (apps/next/src/core/kernelTranslator.ts): rebuilds the nesting of delegated runs
 from an untagged stream with a stack of open children.
 */
module Translator {
  import opened Text
  import opened Events

  /** What arrives on the wire: a transport frame, an engine event, or a name this build does not know. */
  datatype WireEvent =
    | RunStarted(runId: string)
    | Engine(ev: EngineEvent)
    | Settled(result: RunResult)
    | Unknown(name: string)

  datatype ToolState = Running | Completed | Errored

  /** The child that a nested tool is shown under, and how many children are open. */
  datatype Nesting = Nesting(childSessionId: string, depth: nat)

  datatype Phase = SettledSuccess | PhaseCancelled

  datatype IslandFrame =
    | Start(runId: string)
    | ShownText(text: string)
    | Message(text: string)
    | ToolUse(tool: string, callId: Option<string>, state: ToolState, args: Option<string>, content: Option<string>,
              nesting: Option<Nesting>)
    | TaskBoundary(childRunId: string, state: ToolState)
    | Usage(inputTokens: int, outputTokens: int, cost: Option<int>)
    | Complete(phase: Phase)
    | ErrorFrame(message: string, code: Option<string>)

  datatype PreviewCall = Live(url: string) | Durable

  /** The closure state of one translator. */
  datatype TState = TState(names: map<string, string>, stack: seq<string>, usageIn: int, usageOut: int,
                           terminalSeen: bool, previews: seq<PreviewCall>)

  const INITIAL := TState(map[], [], 0, 0, false, [])

  function NestingOf(stack: seq<string>): Option<Nesting> {
    if stack == [] then None else Some(Nesting(stack[|stack| - 1], |stack|))
  }

  function SettleFrame(cause: Cause, error: Option<RunError>): IslandFrame {
    match cause
    case Failed =>
      if error.Some? then ErrorFrame(error.value.message, Some(error.value.code)) else ErrorFrame("Run failed", None)
    case Done => Complete(SettledSuccess)
    case Cancelled => Complete(PhaseCancelled)
  }

  function CallKey(callId: Option<string>): string {
    if callId.Some? then callId.value else ""
  }

  function NameIn(names: map<string, string>, callId: Option<string>): string {
    var key := CallKey(callId);
    if key != "" && key in names && names[key] != "" then names[key] else "tool"
  }

  function LastIndexOf(stack: seq<string>, id: string): (i: int)
    ensures -1 <= i < |stack|
  {
    if stack == [] then -1
    else if stack[|stack| - 1] == id then |stack| - 1
    else LastIndexOf(stack[..|stack| - 1], id)
  }

  function Splice(stack: seq<string>, id: string): seq<string> {
    var i := LastIndexOf(stack, id);
    if i == -1 then stack else stack[..i] + stack[i + 1..]
  }

  /** What one engine event does to the state. */
  function After(t: TState, ev: EngineEvent): TState {
    match ev
    case ToolCall(name, _, callId) =>
      if CallKey(callId) != "" then t.(names := t.names[CallKey(callId) := name]) else t
    case UsageDelta(i, o) => t.(usageIn := t.usageIn + i, usageOut := t.usageOut + o)
    case ChildStarted(id) => if id == "" then t else t.(stack := t.stack + [id])
    case ChildSettled(id, _) => if id == "" then t else t.(stack := Splice(t.stack, id))
    case PreviewReady(url, _) => if url == "" then t else t.(previews := t.previews + [Live(url)])
    case PreviewSnapshotReady(_) => t.(previews := t.previews + [Durable])
    case Terminal(_, _) => t.(terminalSeen := true)
    case _ => t
  }

  /** The frames that one engine event is shown as. */
  function FramesFor(t: TState, ev: EngineEvent): seq<IslandFrame> {
    match ev
    case StreamChunk(text) => if t.stack != [] then [] else [ShownText(text)]
    case FinalText(text) => if t.stack != [] then [] else [Message(text)]
    case ToolCall(name, args, callId) => [ToolUse(name, callId, Running, Some(args), None, NestingOf(t.stack))]
    case ToolResult(ok, output, callId) =>
      [ToolUse(NameIn(t.names, callId), callId, if ok then Completed else Errored, None, output, NestingOf(t.stack))]
    case UsageDelta(i, o) => [Usage(t.usageIn + i, t.usageOut + o, None)]
    case ChildStarted(id) => if id == "" then [] else [TaskBoundary(id, Running)]
    case ChildSettled(id, cause) =>
      if id == "" then [] else [TaskBoundary(id, if cause == Failed then Errored else Completed)]
    case Terminal(cause, error) => [SettleFrame(cause, error)]
    case _ => []
  }

  function WireFrames(t: TState, w: WireEvent): seq<IslandFrame> {
    match w
    case RunStarted(runId) => [Start(runId)]
    case Engine(ev) => FramesFor(t, ev)
    case Settled(r) =>
      [Usage(r.inputTokens, r.outputTokens, Some(r.costMicros))]
      + if t.terminalSeen then [] else [SettleFrame(r.cause, r.error)]
    case Unknown(_) => []
  }

  /** What a completion frame must say of a run that ended so. */
  ghost predicate Reports(frame: IslandFrame, cause: Cause, error: Option<RunError>) {
    && (frame == Complete(SettledSuccess) <==> cause == Done)
    && (frame == Complete(PhaseCancelled) <==> cause == Cancelled)
    && (frame.ErrorFrame? <==> cause == Failed)
    && (cause == Failed && error.None? ==> frame == ErrorFrame("Run failed", None))
    && (cause == Failed && error.Some? ==> frame == ErrorFrame(error.value.message, Some(error.value.code)))
  }

  /** A terminal shows one frame, which says how the run ended; so does `settled` where no terminal was seen. */
  lemma EndingIsReported(t: TState, cause: Cause, error: Option<RunError>, r: RunResult)
    ensures var frames := FramesFor(t, Terminal(cause, error));
            |frames| == 1 && Reports(frames[0], cause, error)
    ensures var frames := WireFrames(t, Settled(r));
            && frames != [] && frames[0] == Usage(r.inputTokens, r.outputTokens, Some(r.costMicros))
            && |frames| == (if t.terminalSeen then 1 else 2)
            && (!t.terminalSeen ==> Reports(frames[1], r.cause, r.error))
  {
  }

  /** The child that a tool frame is shown under is the innermost open one, and its depth is how many are open. */
  predicate UnderOpenChild(nesting: Option<Nesting>, stack: seq<string>) {
    && (nesting.None? <==> stack == [])
    && (nesting.Some? ==> nesting.value.childSessionId == stack[|stack| - 1] && nesting.value.depth == |stack|)
  }

  /** A call is shown running, with its name and arguments; a result with its outcome, output and the name called. */
  lemma ToolsAreShown(t: TState, ev: EngineEvent)
    requires ev.ToolCall? || ev.ToolResult?
    ensures |FramesFor(t, ev)| == 1
    ensures var f := FramesFor(t, ev)[0];
            && f.ToolUse? && f.callId == ev.callId && UnderOpenChild(f.nesting, t.stack)
            && (ev.ToolCall? ==>
                  f.tool == ev.name && f.state == Running && f.args == Some(ev.args) && f.content == None)
            && (ev.ToolResult? ==>
                  && f.state == (if ev.ok then Completed else Errored) && f.args == None && f.content == ev.output
                  && (var key := CallKey(ev.callId);
                      f.tool == if key in t.names && key != "" && t.names[key] != "" then t.names[key] else "tool"))
  {
  }

  /** A child's start is shown running, and its end as an error exactly if it failed; one without an id is not shown. */
  lemma BoundariesAreShown(t: TState, id: string, cause: Cause)
    ensures FramesFor(t, ChildStarted(id)) == if id == "" then [] else [TaskBoundary(id, Running)]
    ensures var ends := FramesFor(t, ChildSettled(id, cause));
            && (id == "" <==> ends == [])
            && (id != "" && cause == Failed ==> ends == [TaskBoundary(id, Errored)])
            && (id != "" && cause != Failed ==> ends == [TaskBoundary(id, Completed)])
  {
  }

  class KernelTranslator {
    var toolNames: map<string, string>
    var childStack: seq<string>
    var usageIn: int
    var usageOut: int
    var terminalSeen: bool
    /** The calls of the injected `onPreview`, in order. */
    var previews: seq<PreviewCall>

    ghost function State(): TState
      reads this
    {
      TState(toolNames, childStack, usageIn, usageOut, terminalSeen, previews)
    }

    constructor ()
      ensures State() == INITIAL
    {
      toolNames, childStack, usageIn, usageOut, terminalSeen, previews := map[], [], 0, 0, false, [];
    }

    method ToolUseFrame(name: string, callId: Option<string>, state: ToolState, args: Option<string>,
                        content: Option<string>) returns (frame: IslandFrame)
      ensures frame == ToolUse(name, callId, state, args, content, NestingOf(childStack))
    {
      var nesting := None;
      if |childStack| > 0 {
        nesting := Some(Nesting(childStack[|childStack| - 1], |childStack|));
      }
      frame := ToolUse(name, callId, state, args, content, nesting);
    }

    method Translate(w: WireEvent) returns (out: seq<IslandFrame>)
      modifies this
      ensures out == WireFrames(old(State()), w)
      ensures State() == if w.Engine? then After(old(State()), w.ev) else old(State())
    {
      out := [];
      match w
      case RunStarted(runId) =>
        out := [Start(runId)];
      case Unknown(_) =>
      case Settled(r) =>
        out := [Usage(r.inputTokens, r.outputTokens, Some(r.costMicros))];
        if !terminalSeen {
          out := out + [SettleFrame(r.cause, r.error)];
        }
      case Engine(ev) =>
        out := TranslateEngine(ev);
    }

    method Push(id: string) returns (out: seq<IslandFrame>)
      modifies this`childStack
      ensures out == FramesFor(old(State()), ChildStarted(id))
      ensures State() == After(old(State()), ChildStarted(id))
    {
      out := [];
      if id != "" {
        out := [TaskBoundary(id, Running)];
        childStack := childStack + [id];
      }
    }

    method Pop(id: string, cause: Cause) returns (out: seq<IslandFrame>)
      modifies this`childStack
      ensures out == FramesFor(old(State()), ChildSettled(id, cause))
      ensures State() == After(old(State()), ChildSettled(id, cause))
    {
      out := [];
      if id != "" {
        var idx := LastIndexOf(childStack, id);
        if idx != -1 {
          childStack := childStack[..idx] + childStack[idx + 1..];
        }
        out := [TaskBoundary(id, if cause == Failed then Errored else Completed)];
      }
    }

    method TranslateEngine(ev: EngineEvent) returns (out: seq<IslandFrame>)
      modifies this
      ensures out == FramesFor(old(State()), ev)
      ensures State() == After(old(State()), ev)
    {
      out := [];
      match ev
      case StreamChunk(text) =>
        if |childStack| == 0 {
          out := [ShownText(text)];
        }
      case FinalText(text) =>
        if |childStack| == 0 {
          out := [Message(text)];
        }
      case ToolCall(name, args, callId) =>
        if CallKey(callId) != "" {
          toolNames := toolNames[CallKey(callId) := name];
        }
        var frame := ToolUseFrame(name, callId, Running, Some(args), None);
        out := [frame];
      case ToolResult(ok, output, callId) =>
        var name := NameIn(toolNames, callId);
        var frame := ToolUseFrame(name, callId, if ok then Completed else Errored, None, output);
        out := [frame];
      case PreviewReady(url, _) =>
        if url != "" {
          previews := previews + [Live(url)];
        }
      case PreviewSnapshotReady(_) =>
        previews := previews + [Durable];
      case UsageDelta(i, o) =>
        usageIn := usageIn + i;
        usageOut := usageOut + o;
        out := [Usage(usageIn, usageOut, None)];
      case ChildStarted(id) =>
        out := Push(id);
      case ChildSettled(id, cause) =>
        out := Pop(id, cause);
      case Terminal(cause, error) =>
        terminalSeen := true;
        out := [SettleFrame(cause, error)];
      case Log(_, _, _) =>
    }
  }

  // ----- Whole streams -----

  function AfterAll(t: TState, evs: seq<EngineEvent>): TState {
    if evs == [] then t else After(AfterAll(t, evs[..|evs| - 1]), evs[|evs| - 1])
  }

  function AllFrames(t: TState, evs: seq<EngineEvent>): seq<IslandFrame> {
    if evs == [] then []
    else AllFrames(t, evs[..|evs| - 1]) + FramesFor(AfterAll(t, evs[..|evs| - 1]), evs[|evs| - 1])
  }

  lemma {:induction false} AllFramesOfAppend(t: TState, a: seq<EngineEvent>, b: seq<EngineEvent>)
    ensures AfterAll(t, a + b) == AfterAll(AfterAll(t, a), b)
    ensures AllFrames(t, a + b) == AllFrames(t, a) + AllFrames(AfterAll(t, a), b)
  {
    if b == [] {
      assert a + b == a;
    } else {
      var b', last := b[..|b| - 1], b[|b| - 1];
      assert (a + b)[..|a + b| - 1] == a + b' && (a + b)[|a + b| - 1] == last;
      AllFramesOfAppend(t, a, b');
      AppendAssociates(AllFrames(t, a), AllFrames(AfterAll(t, a), b'), FramesFor(AfterAll(t, a + b'), last));
    }
  }

  // ----- The child stack under any interleaving -----

  /** Some later event settles the child. */
  predicate SettledIn(evs: seq<EngineEvent>, id: string) {
    exists ev | ev in evs :: ev.ChildSettled? && ev.childRunId == id
  }

  function HeadId(evs: seq<EngineEvent>): string {
    if evs != [] && evs[0].ChildStarted? then evs[0].childRunId else ""
  }

  /** The child that the first event starts, if nothing settles it later. */
  function OpenHead(evs: seq<EngineEvent>): seq<string> {
    if HeadId(evs) != "" && !SettledIn(evs[1..], HeadId(evs)) then [HeadId(evs)] else []
  }

  /** The children started and not settled afterwards, in start order. */
  function OpenChildren(evs: seq<EngineEvent>): seq<string> {
    if evs == [] then [] else OpenHead(evs) + OpenChildren(evs[1..])
  }

  function StartedIds(evs: seq<EngineEvent>): seq<string> {
    if evs == [] then []
    else StartedIds(evs[..|evs| - 1]) + if evs[|evs| - 1].ChildStarted? then [evs[|evs| - 1].childRunId] else []
  }

  predicate Distinct(ids: seq<string>) {
    forall i, j | 0 <= i < j < |ids| :: ids[i] != ids[j]
  }

  function Without(ids: seq<string>, id: string): seq<string> {
    if ids == [] then []
    else (if ids[0] == id then [] else [ids[0]]) + Without(ids[1..], id)
  }

  lemma {:induction false} OpenAfterOther(evs: seq<EngineEvent>, ev: EngineEvent)
    requires !ev.ChildSettled?
    ensures OpenChildren(evs + [ev])
         == OpenChildren(evs) + if ev.ChildStarted? && ev.childRunId != "" then [ev.childRunId] else []
  {
    if evs == [] {
      assert [ev][1..] == [];
      assert evs + [ev] == [ev];
    } else {
      assert (evs + [ev])[1..] == evs[1..] + [ev];
      OpenAfterOther(evs[1..], ev);
    }
  }

  lemma {:induction false} OpenAfterSettled(evs: seq<EngineEvent>, ev: EngineEvent)
    requires ev.ChildSettled?
    ensures OpenChildren(evs + [ev]) == Without(OpenChildren(evs), ev.childRunId)
  {
    if evs == [] {
      assert [ev][1..] == [];
      assert evs + [ev] == [ev];
    } else {
      assert (evs + [ev])[1..] == evs[1..] + [ev];
      OpenAfterSettled(evs[1..], ev);
      SettledInOneMore(evs[1..], ev, HeadId(evs));
      WithoutOfAppend(OpenHead(evs), OpenChildren(evs[1..]), ev.childRunId);
    }
  }

  lemma SettledInOneMore(evs: seq<EngineEvent>, ev: EngineEvent, id: string)
    requires ev.ChildSettled?
    ensures SettledIn(evs + [ev], id) <==> SettledIn(evs, id) || ev.childRunId == id
  {
    assert ev in evs + [ev];
  }

  lemma {:induction false} WithoutAbsent(ids: seq<string>, id: string)
    requires id !in ids
    ensures Without(ids, id) == ids
  {
    if ids != [] {
      WithoutAbsent(ids[1..], id);
    }
  }

  lemma {:induction false} WithoutOfAppend(a: seq<string>, b: seq<string>, id: string)
    ensures Without(a + b, id) == Without(a, id) + Without(b, id)
  {
    if a == [] {
      assert a + b == b;
    } else {
      assert (a + b)[1..] == a[1..] + b;
      WithoutOfAppend(a[1..], b, id);
    }
  }

  lemma {:induction false} LastIndexFinds(stack: seq<string>, id: string)
    ensures var i := LastIndexOf(stack, id);
            if i == -1 then id !in stack else stack[i] == id && id !in stack[i + 1..]
  {
    if stack != [] && stack[|stack| - 1] != id {
      LastIndexFinds(stack[..|stack| - 1], id);
      var i := LastIndexOf(stack, id);
      if i != -1 {
        assert stack[i + 1..] == stack[..|stack| - 1][i + 1..] + [stack[|stack| - 1]];
      } else {
        assert stack == stack[..|stack| - 1] + [stack[|stack| - 1]];
      }
    }
  }

  /** In a stack without repeats, cutting the last occurrence leaves every other id where it was. */
  lemma SpliceRemoves(stack: seq<string>, id: string)
    requires Distinct(stack)
    ensures Splice(stack, id) == Without(stack, id)
  {
    LastIndexFinds(stack, id);
    var i := LastIndexOf(stack, id);
    if i == -1 {
      WithoutAbsent(stack, id);
    } else {
      assert stack == stack[..i] + ([id] + stack[i + 1..]);
      assert id !in stack[..i];
      WithoutMiddle(stack[..i], id, stack[i + 1..]);
    }
  }

  lemma {:induction false} WithoutMiddle(a: seq<string>, id: string, b: seq<string>)
    requires id !in a && id !in b
    ensures Without(a + ([id] + b), id) == a + b
  {
    var s := a + ([id] + b);
    if a == [] {
      assert s[1..] == b;
      WithoutAbsent(b, id);
    } else {
      assert s[1..] == a[1..] + ([id] + b);
      WithoutMiddle(a[1..], id, b);
    }
  }

  lemma {:induction false} WithoutKeeps(ids: seq<string>, id: string)
    ensures forall x | x in Without(ids, id) :: x in ids
    ensures Distinct(ids) ==> Distinct(Without(ids, id))
  {
    if ids != [] {
      WithoutKeeps(ids[1..], id);
      if Distinct(ids) {
        assert Distinct(ids[1..]);
        assert ids[0] !in ids[1..];
      }
    }
  }

  /**
   For every stream in which no child id starts twice, children settling in any order, the stack is exactly
   the open children in start order.
   */
  lemma {:induction false} StackIsOpenChildren(evs: seq<EngineEvent>)
    requires Distinct(StartedIds(evs))
    ensures AfterAll(INITIAL, evs).stack == OpenChildren(evs)
    ensures Distinct(OpenChildren(evs))
    ensures forall id | id in OpenChildren(evs) :: id in StartedIds(evs)
  {
    if evs != [] {
      var before, ev := evs[..|evs| - 1], evs[|evs| - 1];
      var n := |StartedIds(before)|;
      assert StartedIds(before) == StartedIds(evs)[..n];
      StackIsOpenChildren(before);
      assert evs == before + [ev];
      assert ev.ChildStarted? ==> StartedIds(evs)[n] == ev.childRunId && ev.childRunId !in StartedIds(before);
      OpenStep(AfterAll(INITIAL, before), before, ev);
    }
  }

  lemma OpenStep(t: TState, before: seq<EngineEvent>, ev: EngineEvent)
    requires t.stack == OpenChildren(before) && Distinct(OpenChildren(before))
    requires ev.ChildStarted? ==> ev.childRunId !in OpenChildren(before)
    ensures var open := OpenChildren(before + [ev]);
            && After(t, ev).stack == open && Distinct(open)
            && forall id | id in open :: id in OpenChildren(before) || (ev.ChildStarted? && id == ev.childRunId)
  {
    if ev.ChildSettled? {
      OpenAfterSettled(before, ev);
      SpliceRemoves(t.stack, ev.childRunId);
      WithoutKeeps(t.stack, ev.childRunId);
      NoEmptyOpen(before);
      if ev.childRunId == "" {
        WithoutAbsent(t.stack, "");
      }
    } else {
      OpenAfterOther(before, ev);
    }
  }

  lemma {:induction false} NoEmptyOpen(evs: seq<EngineEvent>)
    ensures "" !in OpenChildren(evs)
  {
    if evs != [] {
      NoEmptyOpen(evs[1..]);
    }
  }

  /** Text of the stream is shown exactly while no child is open. */
  lemma TextShownWhenNoneOpen(evs: seq<EngineEvent>, text: string)
    requires Distinct(StartedIds(evs))
    ensures FramesFor(AfterAll(INITIAL, evs), StreamChunk(text)) ==
              if OpenChildren(evs) == [] then [ShownText(text)] else []
    ensures FramesFor(AfterAll(INITIAL, evs), FinalText(text)) ==
              if OpenChildren(evs) == [] then [Message(text)] else []
  {
    StackIsOpenChildren(evs);
    TextByStack(AfterAll(INITIAL, evs), text);
  }

  lemma TextByStack(t: TState, text: string)
    ensures FramesFor(t, StreamChunk(text)) == if t.stack == [] then [ShownText(text)] else []
    ensures FramesFor(t, FinalText(text)) == if t.stack == [] then [Message(text)] else []
  {
  }

  /** The running usage a user sees is, after every prefix, the total that settlement has counted. */
  lemma {:induction false} UsageIsTotal(evs: seq<EngineEvent>)
    ensures AfterAll(INITIAL, evs).usageIn == TotalIn(evs) && AfterAll(INITIAL, evs).usageOut == TotalOut(evs)
  {
    if evs != [] {
      UsageIsTotal(evs[..|evs| - 1]);
    }
  }
}
