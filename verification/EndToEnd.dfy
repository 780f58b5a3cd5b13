/**
 A message from the run tree to the browser: flattened by the kernel, printed by the server, cut by the network, read
 and translated by the client (src/kernel/index.ts, src/server/http.ts, apps/next/src/core/kernel.ts,
 apps/next/src/core/kernelTranslator.ts). Printing and reading JSON are parameters.
 */
module EndToEnd {
  import opened Text
  import opened Events
  import opened EventStream
  import opened EventCodec
  import opened SettlementModel
  import opened Translator
  import opened Delegation
  import opened Rendering
  import opened KernelModel

  type Reader = Frame -> WireEvent

  /** What is printed is read back. */
  ghost predicate Faithful(json: Printer, decode: Reader, evs: seq<WireEvent>) {
    forall ev | ev in evs :: Writes(json, ev) && decode(Frame(WireName(ev), json(ev))) == ev
  }

  lemma {:induction false} ExpectedAt(json: Printer, evs: seq<WireEvent>, i: nat)
    requires i < |evs|
    ensures |Expected(json, evs)| == |evs| && Expected(json, evs)[i] == Frame(WireName(evs[i]), json(evs[i]))
  {
    if i > 0 {
      ExpectedAt(json, evs[1..], i - 1);
    } else if |evs| > 1 {
      ExpectedAt(json, evs[1..], 0);
    }
  }

  // ----- What a wire is shown as -----

  function AfterWire(t: TState, ev: WireEvent): TState {
    if ev.Engine? then After(t, ev.ev) else t
  }

  function AfterWires(t: TState, evs: seq<WireEvent>): TState {
    if evs == [] then t else AfterWire(AfterWires(t, evs[..|evs| - 1]), evs[|evs| - 1])
  }

  function ShownWires(t: TState, evs: seq<WireEvent>): seq<IslandFrame> {
    if evs == [] then []
    else
      var before := evs[..|evs| - 1];
      ShownWires(t, before) + WireFrames(AfterWires(t, before), evs[|evs| - 1])
  }

  /** However the printed wire is cut into chunks, the browser shows exactly what its events translate to. */
  method ShowStream(json: Printer, decode: Reader, evs: seq<WireEvent>, chunks: seq<string>)
    returns (shown: seq<IslandFrame>)
    requires Faithful(json, decode, evs) && Concat(chunks) == SerializeAll(WiresOf(json, evs))
    ensures shown == ShownWires(INITIAL, evs)
  {
    var frames, _ := ReadEvents(json, evs, chunks);
    var t := new KernelTranslator();
    shown := [];
    if |evs| > 0 {
      ExpectedAt(json, evs, 0);
    }
    for i := 0 to |frames|
      invariant |frames| == |evs| && fresh(t)
      invariant shown == ShownWires(INITIAL, evs[..i]) && t.State() == AfterWires(INITIAL, evs[..i])
    {
      ExpectedAt(json, evs, i);
      assert evs[i] in evs;
      assert evs[..i + 1][..i] == evs[..i];
      var out := t.Translate(decode(frames[i]));
      shown := shown + out;
    }
    assert evs[..|evs|] == evs;
  }

  lemma {:induction false} ShownOfAppend(t: TState, a: seq<WireEvent>, b: seq<WireEvent>)
    ensures AfterWires(t, a + b) == AfterWires(AfterWires(t, a), b)
    ensures ShownWires(t, a + b) == ShownWires(t, a) + ShownWires(AfterWires(t, a), b)
  {
    if b == [] {
      assert a + b == a;
    } else {
      var init, last := b[..|b| - 1], b[|b| - 1];
      assert (a + b)[..|a + b| - 1] == a + init && (a + b)[|a + b| - 1] == last;
      ShownOfAppend(t, a, init);
      AppendAssociates(ShownWires(t, a), ShownWires(AfterWires(t, a), init),
                       WireFrames(AfterWires(t, a + init), last));
    }
  }

  lemma ShownOfOne(t: TState, ev: WireEvent)
    ensures AfterWires(t, [ev]) == AfterWire(t, ev) && ShownWires(t, [ev]) == WireFrames(t, ev)
  {
    assert [ev][..0] == [];
  }

  /** The frames of a list of engine events. */
  function EngineWires(evs: seq<EngineEvent>): seq<WireEvent> {
    if evs == [] then [] else EngineWires(evs[..|evs| - 1]) + [Engine(evs[|evs| - 1])]
  }

  lemma {:induction false} EngineWiresShow(t: TState, evs: seq<EngineEvent>)
    ensures AfterWires(t, EngineWires(evs)) == AfterAll(t, evs)
    ensures ShownWires(t, EngineWires(evs)) == AllFrames(t, evs)
  {
    if evs != [] {
      var init, last := evs[..|evs| - 1], Engine(evs[|evs| - 1]);
      EngineWiresShow(t, init);
      ShownOfAppend(t, EngineWires(init), [last]);
      ShownOfOne(AfterAll(t, init), last);
    }
  }

  // ----- The wire of a message -----

  lemma {:induction false} LogsShowNothing(t: TState, logs: seq<EngineEvent>)
    requires AllLogs(logs)
    ensures AllFrames(t, logs) == [] && AfterAll(t, logs) == t
  {
    if logs != [] {
      LogsShowNothing(t, logs[..|logs| - 1]);
    }
  }

  /** What the browser is owed for a message: the rendering of its run tree, or the failure to start one. */
  function RenderEntry(tree: Tree): seq<IslandFrame> {
    if Starts(tree) then RenderRun(tree, 0, [], []) else [SettleFrame(Verdict(tree).cause, Verdict(tree).error)]
  }

  lemma CoreRenders(tree: Tree)
    requires WellFormed(tree)
    ensures AllFrames(INITIAL, Core(tree)) == RenderEntry(tree)
  {
    if Starts(tree) {
      TreeRenders(tree);
    } else {
      var ev := Terminal(Verdict(tree).cause, Verdict(tree).error);
      assert [ev][..0] == [];
      assert AllFrames(INITIAL, [ev]) == [] + FramesFor(INITIAL, ev);
    }
  }

  lemma AroundShowsNothing(t: TState, front: seq<EngineEvent>, core: seq<EngineEvent>, back: seq<EngineEvent>)
    requires AllLogs(front) && AllLogs(back)
    ensures AllFrames(t, front + core + back) == AllFrames(t, core)
  {
    LogsShowNothing(t, front);
    AllFramesOfAppend(t, front, core);
    AllFramesOfAppend(t, front + core, back);
    LogsShowNothing(AfterAll(t, front + core), back);
    assert [] + AllFrames(t, core) + [] == AllFrames(t, core);
  }

  /** The log lines around a run do not change what is shown of it. */
  lemma EntryRenders(tree: Tree, envLogs: seq<EngineEvent>)
    requires WellFormed(tree) && forall ev | ev in envLogs :: ev.Log?
    ensures AllFrames(INITIAL, EntryWire(tree, envLogs)) == RenderEntry(tree)
  {
    FrontIsLogs(tree, envLogs);
    AroundShowsNothing(INITIAL, Front(tree, envLogs), Core(tree), Back(tree));
    CoreRenders(tree);
  }

  /** The closing total of a result. */
  function TotalOf(r: RunResult): IslandFrame {
    Usage(r.inputTokens, r.outputTokens, Some(r.costMicros))
  }

  /** A settlement frame after a wire with a terminal shows only the total. */
  lemma SettledShowsTotal(wire: seq<EngineEvent>, runId: string)
    requires Terminals(wire) != []
    ensures var r := ResultOf(runId, wire);
            WireFrames(AfterAll(INITIAL, wire), Settled(r)) == [TotalOf(r)]
  {
    TerminalSeen(wire);
  }

  /**
   All that the transport writes for a message: the engine events as the sink gets them, `run_started` once
   `runMessage` has returned, `k` events into the stream, and `settled` at the end.
   */
  function MessageWire(wire: seq<EngineEvent>, k: nat, runId: string): seq<WireEvent>
    requires k <= |wire|
  {
    EngineWires(wire[..k]) + [RunStarted(runId)] + EngineWires(wire[k..]) + [Settled(ResultOf(runId, wire))]
  }

  lemma StartShows(wire: seq<EngineEvent>, k: nat, runId: string)
    requires k <= |wire|
    ensures var front := EngineWires(wire[..k]) + [RunStarted(runId)];
            && AfterWires(INITIAL, front) == AfterAll(INITIAL, wire[..k])
            && ShownWires(INITIAL, front) == AllFrames(INITIAL, wire[..k]) + [Start(runId)]
  {
    EngineWiresShow(INITIAL, wire[..k]);
    ShownOfAppend(INITIAL, EngineWires(wire[..k]), [RunStarted(runId)]);
    ShownOfOne(AfterAll(INITIAL, wire[..k]), RunStarted(runId));
  }

  lemma EventsShow(wire: seq<EngineEvent>, k: nat, runId: string)
    requires k <= |wire|
    ensures var front := EngineWires(wire[..k]) + [RunStarted(runId)];
            && AfterWires(INITIAL, front + EngineWires(wire[k..])) == AfterAll(INITIAL, wire)
            && ShownWires(INITIAL, front + EngineWires(wire[k..]))
               == AllFrames(INITIAL, wire[..k]) + [Start(runId)] + AllFrames(AfterAll(INITIAL, wire[..k]), wire[k..])
  {
    StartShows(wire, k, runId);
    ShownOfAppend(INITIAL, EngineWires(wire[..k]) + [RunStarted(runId)], EngineWires(wire[k..]));
    EngineWiresShow(AfterAll(INITIAL, wire[..k]), wire[k..]);
    CutAt(wire, k);
    AllFramesOfAppend(INITIAL, wire[..k], wire[k..]);
  }

  /** A message shows what its events translate to, with the start among it and a closing total. */
  lemma MessageShows(wire: seq<EngineEvent>, k: nat, runId: string)
    requires k <= |wire| && Terminals(wire) != []
    ensures var r := ResultOf(runId, wire);
            ShownWires(INITIAL, MessageWire(wire, k, runId)) ==
              AllFrames(INITIAL, wire[..k]) + [Start(runId)] + AllFrames(AfterAll(INITIAL, wire[..k]), wire[k..])
              + [TotalOf(r)]
  {
    var events := EngineWires(wire[..k]) + [RunStarted(runId)] + EngineWires(wire[k..]);
    var settled := Settled(ResultOf(runId, wire));
    EventsShow(wire, k, runId);
    ShownOfAppend(INITIAL, events, [settled]);
    ShownOfOne(AfterAll(INITIAL, wire), settled);
    SettledShowsTotal(wire, runId);
  }

  /** How much of a run is shown before `run_started`: nothing while only log lines have been written. */
  lemma ShownBefore(tree: Tree, envLogs: seq<EngineEvent>, k: nat)
    requires WellFormed(tree) && forall ev | ev in envLogs :: ev.Log?
    requires k <= |EntryWire(tree, envLogs)|
    ensures var wire := EntryWire(tree, envLogs);
            var before, after := AllFrames(INITIAL, wire[..k]), AllFrames(AfterAll(INITIAL, wire[..k]), wire[k..]);
            && before + after == RenderEntry(tree)
            && (k <= |Front(tree, envLogs)| ==> before == [])
  {
    var wire := EntryWire(tree, envLogs);
    CutAt(wire, k);
    AllFramesOfAppend(INITIAL, wire[..k], wire[k..]);
    EntryRenders(tree, envLogs);
    if k <= |Front(tree, envLogs)| {
      FrontIsLogs(tree, envLogs);
      PartOfFront(Front(tree, envLogs), Core(tree), Back(tree), k);
      LogsShowNothing(INITIAL, wire[..k]);
    }
  }

  lemma PartOfFront(front: seq<EngineEvent>, core: seq<EngineEvent>, back: seq<EngineEvent>, k: nat)
    requires AllLogs(front) && k <= |front|
    ensures AllLogs((front + core + back)[..k])
  {
  }

  /** The frames of a rendering in order, with the start frame among them and a closing total. */
  ghost predicate Interleaved(shown: seq<IslandFrame>, start: IslandFrame, rendering: seq<IslandFrame>,
                              total: IslandFrame)
  {
    exists i | 0 <= i <= |rendering| :: shown == rendering[..i] + [start] + rendering[i..] + [total]
  }

  lemma StartAmong(before: seq<IslandFrame>, start: IslandFrame, after: seq<IslandFrame>, total: IslandFrame)
    ensures Interleaved(before + [start] + after + [total], start, before + after, total)
    ensures before == [] ==> before + [start] + after + [total] == [start] + (before + after) + [total]
  {
    var i := |before|;
    assert (before + after)[..i] == before && (before + after)[i..] == after;
  }

  lemma MessageRenders(tree: Tree, envLogs: seq<EngineEvent>, runId: string, k: nat)
    requires WellFormed(tree) && forall ev | ev in envLogs :: ev.Log?
    requires k <= |EntryWire(tree, envLogs)|
    ensures var wire := EntryWire(tree, envLogs);
            var shown, total := ShownWires(INITIAL, MessageWire(wire, k, runId)), TotalOf(ResultOf(runId, wire));
            && Interleaved(shown, Start(runId), RenderEntry(tree), total)
            && (k <= |Front(tree, envLogs)| ==> shown == [Start(runId)] + RenderEntry(tree) + [total])
  {
    var wire := EntryWire(tree, envLogs);
    EntryResult(tree, envLogs, runId);
    MessageShows(wire, k, runId);
    ShownBefore(tree, envLogs, k);
    StartAmong(AllFrames(INITIAL, wire[..k]), Start(runId), AllFrames(AfterAll(INITIAL, wire[..k]), wire[k..]),
               TotalOf(ResultOf(runId, wire)));
  }

  /**
   The whole path of an admitted message: all that the transport writes, printed, cut anywhere, read and translated,
   shows the rendering of its run tree with the start among it, and one closing total. The transport writes
   `run_started` while only log lines have been written, so the start comes first.
   */
  method ShowMessage(json: Printer, decode: Reader, tree: Tree, envLogs: seq<EngineEvent>, runId: string, k: nat,
                     chunks: seq<string>) returns (shown: seq<IslandFrame>)
    requires WellFormed(tree) && forall ev | ev in envLogs :: ev.Log?
    requires k <= |EntryWire(tree, envLogs)|
    requires Faithful(json, decode, MessageWire(EntryWire(tree, envLogs), k, runId))
    requires Concat(chunks) == SerializeAll(WiresOf(json, MessageWire(EntryWire(tree, envLogs), k, runId)))
    ensures var total := TotalOf(ResultOf(runId, EntryWire(tree, envLogs)));
            && Interleaved(shown, Start(runId), RenderEntry(tree), total)
            && (k <= |Front(tree, envLogs)| ==> shown == [Start(runId)] + RenderEntry(tree) + [total])
  {
    MessageRenders(tree, envLogs, runId, k);
    shown := ShowStream(json, decode, MessageWire(EntryWire(tree, envLogs), k, runId), chunks);
  }
}
