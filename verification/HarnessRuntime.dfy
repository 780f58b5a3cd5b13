/** The primitives every harness shares (src/harnesses/_shared/harnessRuntime.ts). */
module HarnessRuntime {
  import opened Text
  import opened Events

  /** The exactly-once terminal guard: `emitted` is what reached `io.emit`. */
  class Settler {
    var settled: bool
    var emitted: seq<EngineEvent>

    ghost predicate Valid()
      reads this
    {
      settled == (emitted != []) && |emitted| <= 1 && forall ev | ev in emitted :: ev.Terminal?
    }

    constructor ()
      ensures Valid() && emitted == []
    {
      settled, emitted := false, [];
    }

    method Settle(cause: Cause, error: Option<RunError>)
      requires Valid()
      modifies this
      ensures Valid()
      ensures emitted == if old(emitted) == [] then [Terminal(cause, error)] else old(emitted)
    {
      if settled {
        return;
      }
      settled := true;
      emitted := emitted + [Terminal(cause, error)];
    }
  }

  function Max(a: int, b: int): int {
    if a < b then b else a
  }

  /** The largest of the readings, none of them counting below zero. */
  function RunningMax(readings: seq<int>): int {
    if readings == [] then 0 else Max(RunningMax(readings[..|readings| - 1]), readings[|readings| - 1])
  }

  /** It is one of the readings or zero, and none is above it. */
  lemma {:induction false} RunningMaxIsMax(readings: seq<int>)
    ensures RunningMax(readings) >= 0 && forall r | r in readings :: r <= RunningMax(readings)
    ensures RunningMax(readings) == 0 || RunningMax(readings) in readings
  {
    if readings != [] {
      var front, last := readings[..|readings| - 1], readings[|readings| - 1];
      RunningMaxIsMax(front);
      assert readings == front + [last];
    }
  }

  /** A tally for providers that report running totals. */
  class UsageMeter {
    var inputTokens: int
    var outputTokens: int

    constructor ()
      ensures inputTokens == 0 && outputTokens == 0
    {
      inputTokens, outputTokens := 0, 0;
    }

    method Add(deltaInput: int, deltaOutput: int)
      modifies this
      ensures inputTokens == old(inputTokens) + deltaInput && outputTokens == old(outputTokens) + deltaOutput
    {
      inputTokens := inputTokens + deltaInput;
      outputTokens := outputTokens + deltaOutput;
    }

    method ObserveCumulative(nextInput: int, nextOutput: int) returns (delta: EngineEvent)
      modifies this
      ensures inputTokens == Max(old(inputTokens), nextInput) && outputTokens == Max(old(outputTokens), nextOutput)
      ensures delta == UsageDelta(inputTokens - old(inputTokens), outputTokens - old(outputTokens))
    {
      var dIn := Max(0, nextInput - inputTokens);
      var dOut := Max(0, nextOutput - outputTokens);
      inputTokens := Max(inputTokens, nextInput);
      outputTokens := Max(outputTokens, nextOutput);
      delta := UsageDelta(dIn, dOut);
    }
  }

  /** A harness that turns each cumulative reading into a delta contributes exactly the running maximum. */
  method MeterReadings(ins: seq<int>, outs: seq<int>) returns (deltas: seq<EngineEvent>)
    requires |ins| == |outs|
    ensures TotalIn(deltas) == RunningMax(ins) && TotalOut(deltas) == RunningMax(outs)
    ensures |deltas| == |ins|
    ensures forall d | d in deltas :: d.UsageDelta? && d.inputTokens >= 0 && d.outputTokens >= 0
  {
    var meter := new UsageMeter();
    deltas := [];
    for i := 0 to |ins|
      invariant |deltas| == i
      invariant meter.inputTokens == RunningMax(ins[..i]) == TotalIn(deltas)
      invariant meter.outputTokens == RunningMax(outs[..i]) == TotalOut(deltas)
      invariant forall d | d in deltas :: d.UsageDelta? && d.inputTokens >= 0 && d.outputTokens >= 0
    {
      assert ins[..i + 1][..i] == ins[..i] && outs[..i + 1][..i] == outs[..i];
      var d := meter.ObserveCumulative(ins[i], outs[i]);
      assert (deltas + [d])[..i] == deltas;
      deltas := deltas + [d];
    }
    assert ins[..|ins|] == ins && outs[..|outs|] == outs;
  }
}
