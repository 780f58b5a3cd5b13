/**
 The translator against the run tree: feeding it the flattened stream of a run shows exactly what a
 recursive rendering of the tree shows. In the rendering, nesting is the path of enclosing children, and a
 tool's name and the running usage are read off the part of the stream that came before.
 */
module Rendering {
  import opened Text
  import opened Events
  import opened Translator
  import opened Delegation

  // ----- The reference rendering -----

  /** The name given by the latest call under an id. */
  function LastName(before: seq<EngineEvent>, id: string): Option<string> {
    if before == [] then None
    else
      var last := before[|before| - 1];
      if last.ToolCall? && CallKey(last.callId) == id then Some(last.name) else LastName(before[..|before| - 1], id)
  }

  function ToolName(before: seq<EngineEvent>, callId: Option<string>): string {
    var named := if CallKey(callId) == "" then None else LastName(before, CallKey(callId));
    if named.Some? && named.value != "" then named.value else "tool"
  }

  function RenderOwn(ev: EngineEvent, path: seq<string>, before: seq<EngineEvent>): seq<IslandFrame> {
    match ev
    case StreamChunk(text) => if path == [] then [ShownText(text)] else []
    case FinalText(text) => if path == [] then [Message(text)] else []
    case ToolCall(name, args, callId) => [ToolUse(name, callId, Running, Some(args), None, NestingOf(path))]
    case ToolResult(ok, output, callId) =>
      [ToolUse(ToolName(before, callId), callId, if ok then Completed else Errored, None, output, NestingOf(path))]
    case UsageDelta(i, o) => [Usage(TotalIn(before + [ev]), TotalOut(before + [ev]), None)]
    case _ => []
  }

  /** What of a run's events reaches the root's wire: all of them for the root, no terminal for a child. */
  function Reaching(path: seq<string>, evs: seq<EngineEvent>): seq<EngineEvent> {
    if path == [] then evs else Forwarded(evs)
  }

  function RenderStep(step: Step, depth: nat, path: seq<string>, before: seq<EngineEvent>,
        settled: bool): seq<IslandFrame>
    decreases step, 0
  {
    match step
    case Emit(ev) => RenderOwn(ev, path, before)
    case Settle(cause, error) => if settled || path != [] then [] else [SettleFrame(cause, error)]
    case Delegate(id, child) =>
      if depth >= MAX_DELEGATION_DEPTH then [] else RenderChild(id, child, depth + 1, path, before)
  }

  function RenderSteps(steps: seq<Step>, depth: nat, path: seq<string>, before: seq<EngineEvent>): seq<IslandFrame>
    decreases steps, 0
  {
    if steps == [] then []
    else
      var init := steps[..|steps| - 1];
      RenderSteps(init, depth, path, before)
      + RenderStep(steps[|steps| - 1], depth, path, before + Reaching(path, EventsOf(init, depth)), HasSettle(init))
  }

  function RenderRun(tree: Tree, depth: nat, path: seq<string>, before: seq<EngineEvent>): seq<IslandFrame>
    decreases tree, 0
  {
    if !Starts(tree) then []
    else
      (if tree.setup.Ready? then RenderSteps(tree.steps, depth, path, before) else [])
      + RenderClosing(tree, path)
  }

  /** The terminal that the orchestrator adds: shown for the root, if its harness did not settle. */
  function RenderClosing(tree: Tree, path: seq<string>): seq<IslandFrame> {
    if path != [] || (tree.setup.Ready? && HasSettle(tree.steps)) then []
    else [SettleFrame(Verdict(tree).cause, Verdict(tree).error)]
  }

  // ----- The translator follows it -----

  function Lookup(names: map<string, string>, id: string): Option<string> {
    if id in names then Some(names[id]) else None
  }

  /** The translator's state after the stream `before`, with `path` the open children. */
  ghost predicate At(t: TState, before: seq<EngineEvent>, path: seq<string>) {
    && t.stack == path
    && t.usageIn == TotalIn(before)
    && t.usageOut == TotalOut(before)
    && forall id | id != "" :: Lookup(t.names, id) == LastName(before, id)
  }

  lemma AtNext(t: TState, before: seq<EngineEvent>, path: seq<string>, ev: EngineEvent)
    requires At(t, before, path)
    ensures At(After(t, ev), before + [ev], After(t, ev).stack)
  {
    UsageNext(t, before, ev);
    NamesNext(t, before, ev);
  }

  lemma UsageNext(t: TState, before: seq<EngineEvent>, ev: EngineEvent)
    requires t.usageIn == TotalIn(before) && t.usageOut == TotalOut(before)
    ensures After(t, ev).usageIn == TotalIn(before + [ev]) && After(t, ev).usageOut == TotalOut(before + [ev])
  {
    OneMore(before, ev);
  }

  lemma NamesNext(t: TState, before: seq<EngineEvent>, ev: EngineEvent)
    requires forall id | id != "" :: Lookup(t.names, id) == LastName(before, id)
    ensures forall id | id != "" :: Lookup(After(t, ev).names, id) == LastName(before + [ev], id)
  {
    forall id | id != ""
      ensures Lookup(After(t, ev).names, id) == LastName(before + [ev], id)
    {
      NameNext(t, before, ev, id);
    }
  }

  lemma NameNext(t: TState, before: seq<EngineEvent>, ev: EngineEvent, id: string)
    requires id != "" && Lookup(t.names, id) == LastName(before, id)
    ensures Lookup(After(t, ev).names, id) == LastName(before + [ev], id)
  {
    assert (before + [ev])[..|before|] == before;
  }

  lemma NameRenders(t: TState, before: seq<EngineEvent>, path: seq<string>, callId: Option<string>)
    requires At(t, before, path)
    ensures NameIn(t.names, callId) == ToolName(before, callId)
  {
    if CallKey(callId) != "" {
      assert Lookup(t.names, CallKey(callId)) == LastName(before, CallKey(callId));
    }
  }

  lemma OwnRenders(t: TState, before: seq<EngineEvent>, path: seq<string>, ev: EngineEvent)
    requires At(t, before, path) && Own(ev)
    ensures FramesFor(t, ev) == RenderOwn(ev, path, before)
    ensures After(t, ev).stack == path
  {
    if ev.UsageDelta? {
      OneMore(before, ev);
    } else if ev.ToolResult? {
      NameRenders(t, before, path, ev.callId);
    }
  }

  lemma OneEvent(t: TState, ev: EngineEvent)
    ensures AllFrames(t, [ev]) == FramesFor(t, ev) && AfterAll(t, [ev]) == After(t, ev)
  {
    assert [ev][..0] == [];
  }

  /** `evs`, arriving at `before` and `path`, shows `frames` and leaves the path as it was. */
  ghost predicate Shows(t: TState, before: seq<EngineEvent>, path: seq<string>, evs: seq<EngineEvent>,
        frames: seq<IslandFrame>) {
    AllFrames(t, evs) == frames && At(AfterAll(t, evs), before + evs, path)
  }

  lemma ShowsThen(t: TState, before: seq<EngineEvent>, path: seq<string>, a: seq<EngineEvent>, fa: seq<IslandFrame>,
                  b: seq<EngineEvent>, fb: seq<IslandFrame>)
    requires AllFrames(t, a) == fa
    requires Shows(AfterAll(t, a), before + a, path, b, fb)
    ensures Shows(t, before, path, a + b, fa + fb)
  {
    AllFramesOfAppend(t, a, b);
    AppendAssociates(before, a, b);
  }

  lemma {:induction false} ForwardedKeeps(evs: seq<EngineEvent>)
    requires forall ev | ev in evs :: !ev.Terminal?
    ensures Forwarded(evs) == evs
  {
    if evs != [] {
      ForwardedKeeps(evs[..|evs| - 1]);
    }
  }

  lemma {:induction false} ForwardedOfAppend(a: seq<EngineEvent>, b: seq<EngineEvent>)
    ensures Forwarded(a + b) == Forwarded(a) + Forwarded(b)
  {
    if b == [] {
      assert a + b == a;
    } else {
      var last := b[|b| - 1];
      assert (a + b)[..|a + b| - 1] == a + b[..|b| - 1];
      ForwardedOfAppend(a, b[..|b| - 1]);
      AppendAssociates(Forwarded(a), Forwarded(b[..|b| - 1]), if last.Terminal? then [] else [last]);
    }
  }

  lemma ReachingOfAppend(path: seq<string>, a: seq<EngineEvent>, b: seq<EngineEvent>)
    ensures Reaching(path, a + b) == Reaching(path, a) + Reaching(path, b)
  {
    ForwardedOfAppend(a, b);
  }

  lemma ForwardedOne(ev: EngineEvent)
    ensures Forwarded([ev]) == if ev.Terminal? then [] else [ev]
  {
    assert [ev][..0] == [];
  }

  lemma ShowsNothing(t: TState, before: seq<EngineEvent>, path: seq<string>)
    requires At(t, before, path)
    ensures Shows(t, before, path, [], [])
  {
    assert before + [] == before;
  }

  lemma ShowsOne(t: TState, before: seq<EngineEvent>, path: seq<string>, ev: EngineEvent)
    requires At(t, before, path) && After(t, ev).stack == path
    ensures Shows(t, before, path, [ev], FramesFor(t, ev))
  {
    OneEvent(t, ev);
    AtNext(t, before, path, ev);
  }

  lemma StepRenders(t: TState, step: Step, depth: nat, path: seq<string>, before: seq<EngineEvent>, settled: bool)
    requires StepFormed(step) && At(t, before, path)
    ensures Shows(t, before, path, Reaching(path, StepEvents(step, depth, settled)),
                  RenderStep(step, depth, path, before, settled))
    decreases step, 0
  {
    match step
    case Emit(ev) =>
      EmitRenders(t, ev, path, before);
    case Settle(cause, error) =>
      TerminalRenders(t, Terminal(cause, error), path, before, settled || path != []);
    case Delegate(id, child) =>
      if depth < MAX_DELEGATION_DEPTH {
        ChildRenders(t, id, child, depth + 1, path, before);
      } else {
        ShowsNothing(t, before, path);
      }
  }

  lemma EmitRenders(t: TState, ev: EngineEvent, path: seq<string>, before: seq<EngineEvent>)
    requires Own(ev) && At(t, before, path)
    ensures Shows(t, before, path, Reaching(path, [ev]), RenderOwn(ev, path, before))
  {
    OwnRenders(t, before, path, ev);
    ShowsOne(t, before, path, ev);
    ForwardedOne(ev);
  }

  /** A terminal is shown for the root only, and is not there at all once the run has settled. */
  lemma TerminalRenders(t: TState, ev: EngineEvent, path: seq<string>, before: seq<EngineEvent>, hidden: bool)
    requires ev.Terminal? && At(t, before, path) && (path != [] ==> hidden)
    ensures Reaching(path, []) == [] && (path != [] ==> Reaching(path, [ev]) == [])
    ensures Shows(t, before, path, if hidden then [] else [ev],
              if hidden then [] else [SettleFrame(ev.cause, ev.error)])
  {
    ShowsNothing(t, before, path);
    ShowsOne(t, before, path, ev);
    ForwardedOne(ev);
  }

  lemma SplicePushed(path: seq<string>, id: string)
    ensures Splice(path + [id], id) == path
  {
    assert LastIndexOf(path + [id], id) == |path|;
  }

  /** The rendering of a delegated run between its two boundaries. */
  function RenderChild(id: string, child: Tree, depth: nat, path: seq<string>,
        before: seq<EngineEvent>): seq<IslandFrame>
    decreases child, 1
  {
    [TaskBoundary(id, Running)]
    + (RenderRun(child, depth, path + [id], before + [ChildStarted(id)])
       + [TaskBoundary(id, if Verdict(child).cause == Failed then Errored else Completed)])
  }

  /** A bracketed child run: one running and one final boundary, with the child's own rendering between. */
  lemma ChildRenders(t: TState, id: string, child: Tree, depth: nat, path: seq<string>, before: seq<EngineEvent>)
    requires id != "" && WellFormed(child) && At(t, before, path)
    ensures Reaching(path, Bracketed(id, child, depth)) == Bracketed(id, child, depth)
    ensures Shows(t, before, path, Bracketed(id, child, depth), RenderChild(id, child, depth, path, before))
    decreases child, 1
  {
    BracketedHasNoTerminal(id, child, depth);
    ForwardedKeeps(Bracketed(id, child, depth));
    AtNext(t, before, path, ChildStarted(id));
    RunRenders(After(t, ChildStarted(id)), child, depth, path + [id], before + [ChildStarted(id)]);
    BracketRenders(t, id, Verdict(child).cause, path, before, Forwarded(RunEvents(child, depth)),
                   RenderRun(child, depth, path + [id], before + [ChildStarted(id)]));
  }

  lemma BracketRenders(t: TState, id: string, cause: Cause, path: seq<string>, before: seq<EngineEvent>,
                       inner: seq<EngineEvent>, shown: seq<IslandFrame>)
    requires id != "" && At(t, before, path)
    requires Shows(After(t, ChildStarted(id)), before + [ChildStarted(id)], path + [id], inner, shown)
    ensures Shows(t, before, path, [ChildStarted(id)] + (inner + [ChildSettled(id, cause)]),
                  [TaskBoundary(id, Running)]
                  + (shown + [TaskBoundary(id, if cause == Failed then Errored else Completed)]))
  {
    var start, end := ChildStarted(id), ChildSettled(id, cause);
    OneEvent(t, start);
    var t1 := After(t, start);
    var t2 := AfterAll(t1, inner);
    EndRenders(t2, id, cause, path, before + [start] + inner);
    ShowsThen(t1, before + [start], path, inner, shown, [end], FramesFor(t2, end));
    ShowsThen(t, before, path, [start], FramesFor(t, start), inner + [end], shown + FramesFor(t2, end));
  }

  lemma EndRenders(t: TState, id: string, cause: Cause, path: seq<string>, before: seq<EngineEvent>)
    requires id != "" && At(t, before, path + [id])
    ensures Shows(t, before, path, [ChildSettled(id, cause)], FramesFor(t, ChildSettled(id, cause)))
  {
    SplicePushed(path, id);
    OneEvent(t, ChildSettled(id, cause));
    AtNext(t, before, path + [id], ChildSettled(id, cause));
  }

  lemma {:induction false} StepsRender(t: TState, steps: seq<Step>, depth: nat, path: seq<string>,
        before: seq<EngineEvent>)
    requires StepsFormed(steps) && At(t, before, path)
    ensures Shows(t, before, path, Reaching(path, EventsOf(steps, depth)), RenderSteps(steps, depth, path, before))
    decreases steps, 0
  {
    if steps == [] {
      ShowsNothing(t, before, path);
    } else {
      var init, last := steps[..|steps| - 1], steps[|steps| - 1];
      StepsRender(t, init, depth, path, before);
      var a := Reaching(path, EventsOf(init, depth));
      assert StepFormed(last);
      StepRenders(AfterAll(t, a), last, depth, path, before + a, HasSettle(init));
      ReachingOfAppend(path, EventsOf(init, depth), StepEvents(last, depth, HasSettle(init)));
      ShowsThen(t, before, path, a, RenderSteps(init, depth, path, before),
                Reaching(path, StepEvents(last, depth, HasSettle(init))),
                RenderStep(last, depth, path, before + a, HasSettle(init)));
    }
  }

  lemma ClosingRenders(t: TState, tree: Tree, path: seq<string>, before: seq<EngineEvent>)
    requires At(t, before, path)
    ensures Shows(t, before, path, Reaching(path, Closing(tree)), RenderClosing(tree, path))
  {
    var ev := Terminal(Verdict(tree).cause, Verdict(tree).error);
    TerminalRenders(t, ev, path, before, path != [] || Closing(tree) == []);
  }

  /**
   The flattened stream of a run, arriving while the children of `path` are open, is shown exactly as the
   run is rendered, and afterwards the same children are open.
   */
  lemma RunRenders(t: TState, tree: Tree, depth: nat, path: seq<string>, before: seq<EngineEvent>)
    requires WellFormed(tree) && At(t, before, path)
    ensures Shows(t, before, path, Reaching(path, RunEvents(tree, depth)), RenderRun(tree, depth, path, before))
    decreases tree, 0
  {
    if !Starts(tree) {
      ShowsNothing(t, before, path);
    } else if !tree.setup.Ready? {
      ClosingRenders(t, tree, path, before);
      assert [] + Closing(tree) == Closing(tree);
    } else {
      StepsRender(t, tree.steps, depth, path, before);
      var a := Reaching(path, EventsOf(tree.steps, depth));
      ReachingOfAppend(path, EventsOf(tree.steps, depth), Closing(tree));
      ClosingRenders(AfterAll(t, a), tree, path, before + a);
      ShowsThen(t, before, path, a, RenderSteps(tree.steps, depth, path, before), Reaching(path, Closing(tree)),
                RenderClosing(tree, path));
    }
  }

  /** The entry run: a fresh translator shows the rendering of the tree and ends with no child open. */
  lemma TreeRenders(tree: Tree)
    requires WellFormed(tree)
    ensures AllFrames(INITIAL, RunEvents(tree, 0)) == RenderRun(tree, 0, [], [])
    ensures AfterAll(INITIAL, RunEvents(tree, 0)).stack == []
  {
    RunRenders(INITIAL, tree, 0, [], []);
  }
}
