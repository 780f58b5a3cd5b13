/** Settlement (src/kernel/settlement.ts): folds the stream into one result and settles once. */
module SettlementModel {
  import opened Text
  import opened Events

  const MICROS_PER_INPUT_TOKEN := 3
  const MICROS_PER_OUTPUT_TOKEN := 15

  function Cost(inputTokens: int, outputTokens: int): int {
    inputTokens * MICROS_PER_INPUT_TOKEN + outputTokens * MICROS_PER_OUTPUT_TOKEN
  }

  /** The result owed for a stream: the first terminal decides the cause, everything else accumulates. */
  function ResultOf(runId: string, seen: seq<EngineEvent>): RunResult {
    var ts := Terminals(seen);
    RunResult(runId,
              if ts == [] then Done else ts[0].cause,
              if LastFinal(seen) != "" then LastFinal(seen) else Chunks(seen),
              TotalIn(seen), TotalOut(seen), Cost(TotalIn(seen), TotalOut(seen)),
              if ts == [] then None else ts[0].error)
  }

  class Settlement {
    const runId: string
    var finalText: string
    var streamBuffer: string
    var inputTokens: int
    var outputTokens: int
    var settled: bool
    var settledCause: Cause
    var settledError: Option<RunError>

    /** The events observed so far; a forced settlement counts as its terminal. */
    ghost var seen: seq<EngineEvent>

    ghost predicate Valid()
      reads this
    {
      var ts := Terminals(seen);
      && finalText == LastFinal(seen)
      && streamBuffer == Chunks(seen)
      && inputTokens == TotalIn(seen)
      && outputTokens == TotalOut(seen)
      && settled == (ts != [])
      && settledCause == (if ts == [] then Done else ts[0].cause)
      && settledError == (if ts == [] then None else ts[0].error)
    }

    constructor (runId: string)
      ensures Valid() && this.runId == runId && seen == []
    {
      this.runId := runId;
      finalText, streamBuffer := "", "";
      inputTokens, outputTokens := 0, 0;
      settled, settledCause, settledError := false, Done, None;
      seen := [];
    }

    /** Observing one event returns the settled result exactly when the event is a terminal. */
    method Observe(ev: EngineEvent) returns (result: Option<RunResult>)
      requires Valid()
      modifies this
      ensures Valid()
      ensures seen == old(seen) + [ev]
      ensures ev.Terminal? <==> result.Some?
      ensures result.Some? ==> result.value == ResultOf(runId, seen)
    {
      if ev.Terminal? {
        OneMore(seen, ev);
        seen := seen + [ev];
        Record(ev.cause, ev.error);
        var r := Snapshot();
        return Some(r);
      }
      Accumulate(ev);
      return None;
    }

    method Accumulate(ev: EngineEvent)
      requires Valid() && !ev.Terminal?
      modifies this
      ensures Valid()
      ensures seen == old(seen) + [ev]
    {
      OneMore(seen, ev);
      assert Terminals(seen) + EndingOf(ev) == Terminals(seen);
      seen := seen + [ev];
      match ev
      case StreamChunk(text) =>
        streamBuffer := streamBuffer + text;
      case FinalText(text) =>
        finalText := text;
      case UsageDelta(i, o) =>
        inputTokens := inputTokens + i;
        outputTokens := outputTokens + o;
      case _ =>
    }

    /** Forces settlement. The first call decides; a later one changes nothing and returns what is recorded. */
    method Settle(cause: Cause, error: Option<RunError>) returns (result: RunResult)
      requires Valid()
      modifies this
      ensures Valid()
      ensures seen == if old(Terminals(seen)) == [] then old(seen) + [Terminal(cause, error)] else old(seen)
      ensures result == ResultOf(runId, seen)
    {
      OneMore(seen, Terminal(cause, error));
      if !settled {
        seen := seen + [Terminal(cause, error)];
      }
      Record(cause, error);
      result := Snapshot();
    }

    method Record(cause: Cause, error: Option<RunError>)
      modifies this`settled, this`settledCause, this`settledError
      ensures settled
      ensures settledCause == if old(settled) then old(settledCause) else cause
      ensures settledError == if old(settled) then old(settledError) else error
    {
      if !settled {
        settled := true;
        settledCause := cause;
        settledError := error;
      }
    }

    method Snapshot() returns (result: RunResult)
      requires Valid()
      ensures result == ResultOf(runId, seen)
      ensures result.costMicros == 3 * inputTokens + 15 * outputTokens
      ensures !settled ==> result.cause == Done && result.error == None
    {
      var cost := inputTokens * MICROS_PER_INPUT_TOKEN + outputTokens * MICROS_PER_OUTPUT_TOKEN;
      result := RunResult(runId, settledCause, if finalText != "" then finalText else streamBuffer,
                          inputTokens, outputTokens, cost, settledError);
    }
  }

  /** Nothing a settled run goes on to emit changes its cause or error. */
  lemma {:induction false} FirstTerminalWins(runId: string, seen: seq<EngineEvent>, later: seq<EngineEvent>)
    requires Terminals(seen) != []
    ensures ResultOf(runId, seen + later).cause == ResultOf(runId, seen).cause
    ensures ResultOf(runId, seen + later).error == ResultOf(runId, seen).error
  {
    TerminalsOfAppend(seen, later);
  }
}
