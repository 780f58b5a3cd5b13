/** The normalized event stream (src/types/events.ts) and what a list of events adds up to. */
module Events {
  import opened Text

  datatype Cause = Done | Failed | Cancelled

  datatype RunError = RunError(code: string, message: string)

  datatype EngineEvent =
    | StreamChunk(text: string)
    | ToolCall(name: string, args: string, callId: Option<string>)
    | ToolResult(ok: bool, output: Option<string>, callId: Option<string>)
    | ChildStarted(childRunId: string)
    | ChildSettled(childRunId: string, cause: Cause)
    | UsageDelta(inputTokens: int, outputTokens: int)
    | PreviewReady(url: string, port: int)
    | PreviewSnapshotReady(snapshotId: string)
    | FinalText(text: string)
    | Log(category: string, level: string, message: string)
    | Terminal(cause: Cause, error: Option<RunError>)

  datatype RunResult = RunResult(runId: string, cause: Cause, finalText: string, inputTokens: int, outputTokens: int,
                                 costMicros: int, error: Option<RunError>)

  /** The `type` discriminant of an event, which is also its name on the wire. */
  function TypeName(ev: EngineEvent): string {
    match ev
    case StreamChunk(_) => "stream_chunk"
    case ToolCall(_, _, _) => "tool_call"
    case ToolResult(_, _, _) => "tool_result"
    case ChildStarted(_) => "child_started"
    case ChildSettled(_, _) => "child_settled"
    case UsageDelta(_, _) => "usage_delta"
    case PreviewReady(_, _) => "preview_ready"
    case PreviewSnapshotReady(_) => "preview_snapshot_ready"
    case FinalText(_) => "final_text"
    case Log(_, _, _) => "log"
    case Terminal(_, _) => "terminal"
  }

  // ----- What a stream adds up to -----

  function TotalIn(evs: seq<EngineEvent>): int {
    if evs == [] then 0
    else TotalIn(evs[..|evs| - 1]) + if evs[|evs| - 1].UsageDelta? then evs[|evs| - 1].inputTokens else 0
  }

  function TotalOut(evs: seq<EngineEvent>): int {
    if evs == [] then 0
    else TotalOut(evs[..|evs| - 1]) + if evs[|evs| - 1].UsageDelta? then evs[|evs| - 1].outputTokens else 0
  }

  /** The text of the last `final_text`, or nothing. */
  function LastFinal(evs: seq<EngineEvent>): string {
    if evs == [] then ""
    else if evs[|evs| - 1].FinalText? then evs[|evs| - 1].text
    else LastFinal(evs[..|evs| - 1])
  }

  function Chunks(evs: seq<EngineEvent>): string {
    if evs == [] then ""
    else Chunks(evs[..|evs| - 1]) + if evs[|evs| - 1].StreamChunk? then evs[|evs| - 1].text else ""
  }

  datatype Ending = Ending(cause: Cause, error: Option<RunError>)

  function EndingOf(ev: EngineEvent): seq<Ending> {
    match ev case Terminal(cause, error) => [Ending(cause, error)] case _ => []
  }

  /** What the terminals of a stream say, in order. */
  function Terminals(evs: seq<EngineEvent>): seq<Ending> {
    if evs == [] then [] else Terminals(evs[..|evs| - 1]) + EndingOf(evs[|evs| - 1])
  }

  /** One more event, seen through every accumulator. */
  lemma OneMore(evs: seq<EngineEvent>, ev: EngineEvent)
    ensures TotalIn(evs + [ev]) == TotalIn(evs) + if ev.UsageDelta? then ev.inputTokens else 0
    ensures TotalOut(evs + [ev]) == TotalOut(evs) + if ev.UsageDelta? then ev.outputTokens else 0
    ensures LastFinal(evs + [ev]) == if ev.FinalText? then ev.text else LastFinal(evs)
    ensures ev.StreamChunk? ==> Chunks(evs + [ev]) == Chunks(evs) + ev.text
    ensures !ev.StreamChunk? ==> Chunks(evs + [ev]) == Chunks(evs)
    ensures Terminals(evs + [ev]) == Terminals(evs) + EndingOf(ev)
  {
    assert (evs + [ev])[..|evs|] == evs;
  }

  lemma {:induction false} TotalsOfAppend(a: seq<EngineEvent>, b: seq<EngineEvent>)
    ensures TotalIn(a + b) == TotalIn(a) + TotalIn(b)
    ensures TotalOut(a + b) == TotalOut(a) + TotalOut(b)
  {
    if b == [] {
      assert a + b == a;
    } else {
      assert (a + b)[..|a + b| - 1] == a + b[..|b| - 1];
      TotalsOfAppend(a, b[..|b| - 1]);
    }
  }

  lemma {:induction false} TerminalsOfAppend(a: seq<EngineEvent>, b: seq<EngineEvent>)
    ensures Terminals(a + b) == Terminals(a) + Terminals(b)
  {
    if b == [] {
      assert a + b == a;
    } else {
      assert (a + b)[..|a + b| - 1] == a + b[..|b| - 1];
      TerminalsOfAppend(a, b[..|b| - 1]);
    }
  }
}
