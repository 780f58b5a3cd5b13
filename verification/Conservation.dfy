/** What a rendered run tree adds up to: nesting depth, task boundaries, visible text, and usage. */
module Conservation {
  import opened Text
  import opened Events
  import opened SettlementModel
  import opened Translator
  import opened Delegation
  import opened Rendering

  // ----- Nesting depth -----

  ghost predicate DepthAtMost(frames: seq<IslandFrame>, cap: nat) {
    forall f | f in frames :: f.ToolUse? && f.nesting.Some? ==> f.nesting.value.depth <= cap
  }

  lemma StepDepth(step: Step, depth: nat, path: seq<string>, before: seq<EngineEvent>, settled: bool)
    requires |path| == depth <= MAX_DELEGATION_DEPTH
    ensures DepthAtMost(RenderStep(step, depth, path, before, settled), MAX_DELEGATION_DEPTH)
    decreases step, 0
  {
    if step.Delegate? && depth < MAX_DELEGATION_DEPTH {
      RunDepth(step.child, depth + 1, path + [step.childRunId], before + [ChildStarted(step.childRunId)]);
    }
  }

  lemma {:induction false} StepsDepth(steps: seq<Step>, depth: nat, path: seq<string>, before: seq<EngineEvent>)
    requires |path| == depth <= MAX_DELEGATION_DEPTH
    ensures DepthAtMost(RenderSteps(steps, depth, path, before), MAX_DELEGATION_DEPTH)
    decreases steps, 0
  {
    if steps != [] {
      var init := steps[..|steps| - 1];
      StepsDepth(init, depth, path, before);
      StepDepth(steps[|steps| - 1], depth, path, before + Reaching(path, EventsOf(init, depth)), HasSettle(init));
    }
  }

  lemma RunDepth(tree: Tree, depth: nat, path: seq<string>, before: seq<EngineEvent>)
    requires |path| == depth <= MAX_DELEGATION_DEPTH
    ensures DepthAtMost(RenderRun(tree, depth, path, before), MAX_DELEGATION_DEPTH)
    decreases tree, 0
  {
    if tree.setup.Ready? {
      StepsDepth(tree.steps, depth, path, before);
    }
  }

  /** Under the delegation cap no tool of the whole run is shown deeper than two children down. */
  lemma ShownDepth(tree: Tree)
    requires WellFormed(tree)
    ensures DepthAtMost(AllFrames(INITIAL, RunEvents(tree, 0)), 2)
  {
    TreeRenders(tree);
    RunDepth(tree, 0, [], []);
  }

  // ----- Task boundaries -----

  function Tally<T>(p: T -> bool, s: seq<T>): nat {
    if s == [] then 0 else Tally(p, s[..|s| - 1]) + if p(s[|s| - 1]) then 1 else 0
  }

  lemma {:induction false} TallyOfAppend<T>(p: T -> bool, a: seq<T>, b: seq<T>)
    ensures Tally(p, a + b) == Tally(p, a) + Tally(p, b)
  {
    if b == [] {
      assert a + b == a;
    } else {
      assert (a + b)[..|a + b| - 1] == a + b[..|b| - 1];
      TallyOfAppend(p, a, b[..|b| - 1]);
    }
  }

  lemma TallyOfOne<T>(p: T -> bool, x: T)
    ensures Tally(p, [x]) == if p(x) then 1 else 0
  {
    assert [x][..0] == [];
  }

  /** The boundary frames of one child: those that open its task, or those that end it. */
  function Boundary(id: string, opening: bool): IslandFrame -> bool {
    (f: IslandFrame) => f.TaskBoundary? && f.childRunId == id && (f.state == Running) == opening
  }

  /** The runs that really take place: the run itself and, under the cap, every run it delegates. */
  function ExecutedSteps(steps: seq<Step>, depth: nat): seq<(string, Tree)>
    decreases steps, 0
  {
    if steps == [] then [] else ExecutedSteps(steps[..|steps| - 1], depth) + ExecutedStep(steps[|steps| - 1], depth)
  }

  function ExecutedStep(step: Step, depth: nat): seq<(string, Tree)>
    decreases step, 0
  {
    if step.Delegate? && depth < MAX_DELEGATION_DEPTH
    then [(step.childRunId, step.child)] + ExecutedBelow(step.child, depth + 1) else []
  }

  function ExecutedBelow(tree: Tree, depth: nat): seq<(string, Tree)>
    decreases tree, 0
  {
    if tree.setup.Ready? then ExecutedSteps(tree.steps, depth) else []
  }

  function Named(id: string): ((string, Tree)) -> bool {
    (r: (string, Tree)) => r.0 == id
  }

  lemma StepBoundaries(step: Step, depth: nat, path: seq<string>, before: seq<EngineEvent>, settled: bool, id: string,
        opening: bool)
    ensures Tally(Boundary(id, opening), RenderStep(step, depth, path, before, settled)) ==
              Tally(Named(id), ExecutedStep(step, depth))
    decreases step, 0
  {
    match step
    case Emit(ev) =>
      if RenderOwn(ev, path, before) != [] {
        TallyOfOne(Boundary(id, opening), RenderOwn(ev, path, before)[0]);
      }
    case Settle(cause, error) =>
      TallyOfOne(Boundary(id, opening), SettleFrame(cause, error));
    case Delegate(cid, child) =>
      if depth < MAX_DELEGATION_DEPTH {
        ChildBoundaries(cid, child, depth + 1, path, before, id, opening);
        TallyOfOne(Named(id), (cid, child));
        TallyOfAppend(Named(id), [(cid, child)], ExecutedBelow(child, depth + 1));
      }
  }

  lemma ChildBoundaries(cid: string, child: Tree, depth: nat, path: seq<string>, before: seq<EngineEvent>, id: string,
        opening: bool)
    ensures Tally(Boundary(id, opening), RenderChild(cid, child, depth, path, before))
         == (if cid == id then 1 else 0) + Tally(Named(id), ExecutedBelow(child, depth))
    decreases child, 1
  {
    var p := Boundary(id, opening);
    var first := TaskBoundary(cid, Running);
    var last := TaskBoundary(cid, if Verdict(child).cause == Failed then Errored else Completed);
    var inner := RenderRun(child, depth, path + [cid], before + [ChildStarted(cid)]);
    RunBoundaries(child, depth, path + [cid], before + [ChildStarted(cid)], id, opening);
    TallyOfOne(p, first);
    TallyOfOne(p, last);
    TallyOfAppend(p, inner, [last]);
    TallyOfAppend(p, [first], inner + [last]);
  }

  lemma {:induction false} StepsBoundaries(steps: seq<Step>, depth: nat, path: seq<string>, before: seq<EngineEvent>,
        id: string, opening: bool)
    ensures Tally(Boundary(id, opening), RenderSteps(steps, depth, path, before)) ==
              Tally(Named(id), ExecutedSteps(steps, depth))
    decreases steps, 0
  {
    if steps != [] {
      var init, last := steps[..|steps| - 1], steps[|steps| - 1];
      var at := before + Reaching(path, EventsOf(init, depth));
      StepsBoundaries(init, depth, path, before, id, opening);
      StepBoundaries(last, depth, path, at, HasSettle(init), id, opening);
      TallyOfAppend(Boundary(id, opening), RenderSteps(init, depth, path, before),
          RenderStep(last, depth, path, at, HasSettle(init)));
      TallyOfAppend(Named(id), ExecutedSteps(init, depth), ExecutedStep(last, depth));
    }
  }

  lemma RunBoundaries(tree: Tree, depth: nat, path: seq<string>, before: seq<EngineEvent>, id: string, opening: bool)
    ensures Tally(Boundary(id, opening), RenderRun(tree, depth, path, before)) ==
              Tally(Named(id), ExecutedBelow(tree, depth))
    decreases tree, 0
  {
    var p := Boundary(id, opening);
    ClosingBoundaries(tree, path, id, opening);
    if tree.setup.Ready? {
      StepsBoundaries(tree.steps, depth, path, before, id, opening);
      TallyOfAppend(p, RenderSteps(tree.steps, depth, path, before), RenderClosing(tree, path));
    } else if Starts(tree) {
      assert RenderRun(tree, depth, path, before) == [] + RenderClosing(tree, path) == RenderClosing(tree, path);
    }
  }

  lemma ClosingBoundaries(tree: Tree, path: seq<string>, id: string, opening: bool)
    ensures Tally(Boundary(id, opening), RenderClosing(tree, path)) == 0
  {
    TallyOfOne(Boundary(id, opening), SettleFrame(Verdict(tree).cause, Verdict(tree).error));
  }

  /** Each delegated run that takes place has one running and one final boundary; no other boundary is shown. */
  lemma OneBoundaryPairPerChild(tree: Tree, id: string)
    requires WellFormed(tree)
    ensures var shown := AllFrames(INITIAL, RunEvents(tree, 0));
            && Tally(Boundary(id, true), shown) == Tally(Named(id), ExecutedBelow(tree, 0))
            && Tally(Boundary(id, false), shown) == Tally(Named(id), ExecutedBelow(tree, 0))
  {
    TreeRenders(tree);
    RunBoundaries(tree, 0, [], [], id, true);
    RunBoundaries(tree, 0, [], [], id, false);
  }

  // ----- Visible text -----

  function VisibleText(frames: seq<IslandFrame>): string {
    if frames == [] then ""
    else VisibleText(frames[..|frames| - 1]) + if frames[|frames| - 1].ShownText? then frames[|frames| - 1].text else ""
  }

  /** The text that the harness of one run streams by itself. */
  function OwnText(steps: seq<Step>): string {
    if steps == [] then ""
    else
      var last := steps[|steps| - 1];
      OwnText(steps[..|steps| - 1]) + if last.Emit? && last.ev.StreamChunk? then last.ev.text else ""
  }

  lemma {:induction false} VisibleOfAppend(a: seq<IslandFrame>, b: seq<IslandFrame>)
    ensures VisibleText(a + b) == VisibleText(a) + VisibleText(b)
  {
    if b == [] {
      assert a + b == a;
    } else {
      var last := b[|b| - 1];
      assert (a + b)[..|a + b| - 1] == a + b[..|b| - 1];
      VisibleOfAppend(a, b[..|b| - 1]);
      AppendAssociates(VisibleText(a), VisibleText(b[..|b| - 1]), if last.ShownText? then last.text else "");
    }
  }

  lemma VisibleOfOne(f: IslandFrame)
    ensures VisibleText([f]) == if f.ShownText? then f.text else ""
  {
    assert [f][..0] == [];
  }

  lemma StepText(step: Step, depth: nat, path: seq<string>, before: seq<EngineEvent>, settled: bool)
    ensures VisibleText(RenderStep(step, depth, path, before, settled))
         == if path == [] && step.Emit? && step.ev.StreamChunk? then step.ev.text else ""
    decreases step, 0
  {
    match step
    case Emit(ev) =>
      if RenderOwn(ev, path, before) != [] {
        VisibleOfOne(RenderOwn(ev, path, before)[0]);
      }
    case Settle(cause, error) =>
      VisibleOfOne(SettleFrame(cause, error));
    case Delegate(id, child) =>
      if depth < MAX_DELEGATION_DEPTH {
        ChildText(id, child, depth + 1, path, before);
      }
  }

  lemma ChildText(id: string, child: Tree, depth: nat, path: seq<string>, before: seq<EngineEvent>)
    ensures VisibleText(RenderChild(id, child, depth, path, before)) == ""
    decreases child, 1
  {
    var first := TaskBoundary(id, Running);
    var last := TaskBoundary(id, if Verdict(child).cause == Failed then Errored else Completed);
    var inner := RenderRun(child, depth, path + [id], before + [ChildStarted(id)]);
    RunText(child, depth, path + [id], before + [ChildStarted(id)]);
    VisibleOfOne(first);
    VisibleOfOne(last);
    VisibleOfAppend(inner, [last]);
    VisibleOfAppend([first], inner + [last]);
  }

  lemma {:induction false} StepsText(steps: seq<Step>, depth: nat, path: seq<string>, before: seq<EngineEvent>)
    ensures VisibleText(RenderSteps(steps, depth, path, before)) == if path == [] then OwnText(steps) else ""
    decreases steps, 0
  {
    if steps != [] {
      var init, last := steps[..|steps| - 1], steps[|steps| - 1];
      var at := before + Reaching(path, EventsOf(init, depth));
      StepsText(init, depth, path, before);
      StepText(last, depth, path, at, HasSettle(init));
      VisibleOfAppend(RenderSteps(init, depth, path, before), RenderStep(last, depth, path, at, HasSettle(init)));
    }
  }

  lemma RunText(tree: Tree, depth: nat, path: seq<string>, before: seq<EngineEvent>)
    ensures VisibleText(RenderRun(tree, depth, path, before)) ==
              if path == [] && tree.setup.Ready? then OwnText(tree.steps) else ""
    decreases tree, 0
  {
    ClosingText(tree, path);
    if tree.setup.Ready? {
      StepsText(tree.steps, depth, path, before);
      VisibleOfAppend(RenderSteps(tree.steps, depth, path, before), RenderClosing(tree, path));
    } else if Starts(tree) {
      assert RenderRun(tree, depth, path, before) == [] + RenderClosing(tree, path) == RenderClosing(tree, path);
    }
  }

  lemma ClosingText(tree: Tree, path: seq<string>)
    ensures VisibleText(RenderClosing(tree, path)) == ""
  {
    VisibleOfOne(SettleFrame(Verdict(tree).cause, Verdict(tree).error));
  }

  /** The text streamed into the transcript is the root harness's own, whatever its children stream. */
  lemma OnlyRootTextIsVisible(tree: Tree)
    requires WellFormed(tree) && tree.setup.Ready?
    ensures VisibleText(AllFrames(INITIAL, RunEvents(tree, 0))) == OwnText(tree.steps)
  {
    TreeRenders(tree);
    RunText(tree, 0, [], []);
  }

  // ----- Usage -----

  datatype Side = Input | Output

  function Delta(side: Side, ev: EngineEvent): int {
    if !ev.UsageDelta? then 0 else if side == Input then ev.inputTokens else ev.outputTokens
  }

  /** The tokens of one side that the harness of one run reports by itself. */
  function OwnTokens(side: Side, steps: seq<Step>): int {
    if steps == [] then 0 else OwnTokens(side, steps[..|steps| - 1]) + StepTokens(side, steps[|steps| - 1])
  }

  function StepTokens(side: Side, step: Step): int {
    match step case Emit(ev) => Delta(side, ev) case _ => 0
  }

  function RunTokens(side: Side, tree: Tree): int {
    if tree.setup.Ready? then OwnTokens(side, tree.steps) else 0
  }

  function SumTokens(side: Side, runs: seq<(string, Tree)>): int {
    if runs == [] then 0 else SumTokens(side, runs[..|runs| - 1]) + RunTokens(side, runs[|runs| - 1].1)
  }

  /** What settlement counts on one side of a stream. */
  function Total(side: Side, evs: seq<EngineEvent>): int {
    match side case Input => TotalIn(evs) case Output => TotalOut(evs)
  }

  lemma TotalOfAppend(side: Side, a: seq<EngineEvent>, b: seq<EngineEvent>)
    ensures Total(side, a + b) == Total(side, a) + Total(side, b)
  {
    TotalsOfAppend(a, b);
  }

  lemma TotalOfOne(side: Side, ev: EngineEvent)
    ensures Total(side, [ev]) == Delta(side, ev)
  {
    OneMore([], ev);
    assert [] + [ev] == [ev];
  }

  lemma {:induction false} SumOfAppend(side: Side, a: seq<(string, Tree)>, b: seq<(string, Tree)>)
    ensures SumTokens(side, a + b) == SumTokens(side, a) + SumTokens(side, b)
  {
    if b == [] {
      assert a + b == a;
    } else {
      assert (a + b)[..|a + b| - 1] == a + b[..|b| - 1];
      SumOfAppend(side, a, b[..|b| - 1]);
    }
  }

  lemma SumOfOne(side: Side, run: (string, Tree))
    ensures SumTokens(side, [run]) == RunTokens(side, run.1)
  {
    assert [run][..0] == [];
  }

  lemma {:induction false} ForwardedTotal(side: Side, evs: seq<EngineEvent>)
    ensures Total(side, Forwarded(evs)) == Total(side, evs)
  {
    if evs != [] {
      var init, last := evs[..|evs| - 1], evs[|evs| - 1];
      ForwardedTotal(side, init);
      TotalOfAppend(side, Forwarded(init), if last.Terminal? then [] else [last]);
      TotalOfOne(side, last);
      assert evs == init + [last];
      TotalOfAppend(side, init, [last]);
    }
  }

  lemma StepUsage(side: Side, step: Step, depth: nat, settled: bool)
    requires StepFormed(step)
    ensures Total(side, StepEvents(step, depth, settled)) ==
              StepTokens(side, step) + SumTokens(side, ExecutedStep(step, depth))
    decreases step, 0
  {
    match step
    case Emit(ev) =>
      EmitUsage(side, ev, depth, settled);
    case Settle(cause, error) =>
      SettleUsage(side, cause, error, settled);
    case Delegate(id, child) =>
      DelegateUsage(side, id, child, depth, settled);
  }

  lemma DelegateUsage(side: Side, id: string, child: Tree, depth: nat, settled: bool)
    requires WellFormed(child)
    ensures Total(side, StepEvents(Delegate(id, child), depth, settled)) ==
              SumTokens(side, ExecutedStep(Delegate(id, child), depth))
    decreases child, 2
  {
    if depth < MAX_DELEGATION_DEPTH {
      ChildUsage(side, id, child, depth + 1);
    }
  }

  lemma EmitUsage(side: Side, ev: EngineEvent, depth: nat, settled: bool)
    ensures Total(side, StepEvents(Emit(ev), depth, settled)) == StepTokens(side, Emit(ev))
    ensures ExecutedStep(Emit(ev), depth) == []
  {
    TotalOfOne(side, ev);
  }

  lemma SettleUsage(side: Side, cause: Cause, error: Option<RunError>, settled: bool)
    ensures Total(side, if settled then [] else [Terminal(cause, error)]) == 0
  {
    TotalOfOne(side, Terminal(cause, error));
  }

  lemma ChildUsage(side: Side, id: string, child: Tree, depth: nat)
    requires WellFormed(child)
    ensures Total(side, Bracketed(id, child, depth)) == SumTokens(side, [(id, child)] + ExecutedBelow(child, depth))
    decreases child, 1
  {
    var start, end := ChildStarted(id), ChildSettled(id, Verdict(child).cause);
    var inner := Forwarded(RunEvents(child, depth));
    RunUsage(side, child, depth);
    ForwardedTotal(side, RunEvents(child, depth));
    TotalOfOne(side, start);
    TotalOfOne(side, end);
    TotalOfAppend(side, inner, [end]);
    TotalOfAppend(side, [start], inner + [end]);
    SumOfAppend(side, [(id, child)], ExecutedBelow(child, depth));
    SumOfOne(side, (id, child));
  }

  lemma {:induction false} StepsUsage(side: Side, steps: seq<Step>, depth: nat)
    requires StepsFormed(steps)
    ensures Total(side, EventsOf(steps, depth)) == OwnTokens(side, steps) + SumTokens(side, ExecutedSteps(steps, depth))
    decreases steps, 0
  {
    if steps != [] {
      var init, last := steps[..|steps| - 1], steps[|steps| - 1];
      StepsUsage(side, init, depth);
      StepUsage(side, last, depth, HasSettle(init));
      TotalOfAppend(side, EventsOf(init, depth), StepEvents(last, depth, HasSettle(init)));
      SumOfAppend(side, ExecutedSteps(init, depth), ExecutedStep(last, depth));
    }
  }

  /** A run's events carry its own tokens and those of every run below it, each once. */
  lemma RunUsage(side: Side, tree: Tree, depth: nat)
    requires WellFormed(tree)
    ensures Total(side, RunEvents(tree, depth)) == RunTokens(side, tree) + SumTokens(side, ExecutedBelow(tree, depth))
    decreases tree, 0
  {
    TotalOfOne(side, Terminal(Verdict(tree).cause, Verdict(tree).error));
    if tree.setup.Ready? {
      StepsUsage(side, tree.steps, depth);
      TotalOfAppend(side, EventsOf(tree.steps, depth), Closing(tree));
    } else if Starts(tree) {
      assert RunEvents(tree, depth) == [] + Closing(tree) == Closing(tree);
    }
  }

  /** The cost in micro-units of the tokens that one run reports by itself. */
  function Price(tree: Tree): int {
    Cost(RunTokens(Input, tree), RunTokens(Output, tree))
  }

  function SumPrices(runs: seq<(string, Tree)>): int {
    if runs == [] then 0 else SumPrices(runs[..|runs| - 1]) + Price(runs[|runs| - 1].1)
  }

  lemma {:induction false} PricesAdd(runs: seq<(string, Tree)>)
    ensures Cost(SumTokens(Input, runs), SumTokens(Output, runs)) == SumPrices(runs)
  {
    if runs != [] {
      PricesAdd(runs[..|runs| - 1]);
    }
  }

  /**
   The root result's tokens are the sum of what every run of the tree reported by itself, its cost is the sum
   of their prices, and the running total shown last is the same.
   */
  lemma UsageIsConserved(tree: Tree, runId: string)
    requires WellFormed(tree)
    ensures var runs := [(runId, tree)] + ExecutedBelow(tree, 0);
            var r := ResultOf(runId, RunEvents(tree, 0));
            var t := AfterAll(INITIAL, RunEvents(tree, 0));
            && r.inputTokens == SumTokens(Input, runs) && r.outputTokens == SumTokens(Output, runs)
            && r.costMicros == SumPrices(runs) == 3 * r.inputTokens + 15 * r.outputTokens
            && t.usageIn == r.inputTokens && t.usageOut == r.outputTokens
  {
    forall side: Side
      ensures Total(side, RunEvents(tree, 0)) == SumTokens(side, [(runId, tree)] + ExecutedBelow(tree, 0))
    {
      RunUsage(side, tree, 0);
      SumOfOne(side, (runId, tree));
      SumOfAppend(side, [(runId, tree)], ExecutedBelow(tree, 0));
    }
    assert Total(Input, RunEvents(tree, 0)) == TotalIn(RunEvents(tree, 0));
    assert Total(Output, RunEvents(tree, 0)) == TotalOut(RunEvents(tree, 0));
    PricesAdd([(runId, tree)] + ExecutedBelow(tree, 0));
    UsageIsTotal(RunEvents(tree, 0));
  }
}
