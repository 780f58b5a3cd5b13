/**
 The text a run settles with, against the text its live view shows (src/kernel/settlement.ts,
 src/kernel/index.ts, apps/next/src/core/kernelTranslator.ts). The settled text folds in what the children say;
 the live view does not.
 */
module SettledText {
  import opened Text
  import opened Events
  import opened SettlementModel
  import opened Translator
  import opened Delegation
  import opened Rendering
  import opened Conservation

  // ----- What the live view shows -----

  /** Streamed text is appended, and a message that is not empty replaces what was there. */
  function Shown(sofar: string, f: IslandFrame): string {
    match f
    case ShownText(text) => sofar + text
    case Message(text) => if text != "" then text else sofar
    case _ => sofar
  }

  function Displayed(sofar: string, frames: seq<IslandFrame>): string {
    if frames == [] then sofar else Shown(Displayed(sofar, frames[..|frames| - 1]), frames[|frames| - 1])
  }

  /** The same, of what one harness says by itself. */
  function Said(sofar: string, step: Step): string {
    if step.Emit? && step.ev.StreamChunk? then sofar + step.ev.text
    else if step.Emit? && step.ev.FinalText? && step.ev.text != "" then step.ev.text
    else sofar
  }

  function OwnDisplay(steps: seq<Step>): string {
    if steps == [] then "" else Said(OwnDisplay(steps[..|steps| - 1]), steps[|steps| - 1])
  }

  lemma {:induction false} DisplayedOfAppend(sofar: string, a: seq<IslandFrame>, b: seq<IslandFrame>)
    ensures Displayed(sofar, a + b) == Displayed(Displayed(sofar, a), b)
  {
    if b == [] {
      assert a + b == a;
    } else {
      assert (a + b)[..|a + b| - 1] == a + b[..|b| - 1];
      DisplayedOfAppend(sofar, a, b[..|b| - 1]);
    }
  }

  lemma DisplayedOfOne(sofar: string, f: IslandFrame)
    ensures Displayed(sofar, [f]) == Shown(sofar, f)
  {
    assert [f][..0] == [];
  }

  /** Nothing of a child is displayed, whatever it says. */
  lemma ChildDisplay(sofar: string, id: string, child: Tree, depth: nat, path: seq<string>, before: seq<EngineEvent>)
    ensures Displayed(sofar, RenderChild(id, child, depth, path, before)) == sofar
    decreases child, 1
  {
    var first := TaskBoundary(id, Running);
    var last := TaskBoundary(id, if Verdict(child).cause == Failed then Errored else Completed);
    var inner := RenderRun(child, depth, path + [id], before + [ChildStarted(id)]);
    InnerDisplay(sofar, child, depth, path + [id], before + [ChildStarted(id)]);
    DisplayedOfOne(sofar, first);
    DisplayedOfOne(sofar, last);
    DisplayedOfAppend(sofar, inner, [last]);
    DisplayedOfAppend(sofar, [first], inner + [last]);
  }

  lemma InnerDisplay(sofar: string, tree: Tree, depth: nat, path: seq<string>, before: seq<EngineEvent>)
    requires path != []
    ensures Displayed(sofar, RenderRun(tree, depth, path, before)) == sofar
    decreases tree, 0
  {
    if tree.setup.Ready? {
      InnerSteps(sofar, tree.steps, depth, path, before);
      assert RenderRun(tree, depth, path, before) == RenderSteps(tree.steps, depth, path, before);
    }
  }

  lemma {:induction false} InnerSteps(sofar: string, steps: seq<Step>, depth: nat, path: seq<string>,
                                      before: seq<EngineEvent>)
    requires path != []
    ensures Displayed(sofar, RenderSteps(steps, depth, path, before)) == sofar
    decreases steps, 0
  {
    if steps != [] {
      var init, last := steps[..|steps| - 1], steps[|steps| - 1];
      var at := before + Reaching(path, EventsOf(init, depth));
      InnerSteps(sofar, init, depth, path, before);
      InnerStep(sofar, last, depth, path, at, HasSettle(init));
      DisplayedOfAppend(sofar, RenderSteps(init, depth, path, before),
          RenderStep(last, depth, path, at, HasSettle(init)));
    }
  }

  lemma InnerStep(sofar: string, step: Step, depth: nat, path: seq<string>, before: seq<EngineEvent>, settled: bool)
    requires path != []
    ensures Displayed(sofar, RenderStep(step, depth, path, before, settled)) == sofar
    decreases step, 0
  {
    match step
    case Emit(ev) =>
      if RenderOwn(ev, path, before) != [] {
        DisplayedOfOne(sofar, RenderOwn(ev, path, before)[0]);
      }
    case Settle(_, _) =>
    case Delegate(id, child) =>
      if depth < MAX_DELEGATION_DEPTH {
        ChildDisplay(sofar, id, child, depth + 1, path, before);
      }
  }

  lemma RootStep(sofar: string, step: Step, before: seq<EngineEvent>, settled: bool)
    ensures Displayed(sofar, RenderStep(step, 0, [], before, settled)) == Said(sofar, step)
  {
    match step
    case Emit(ev) =>
      if RenderOwn(ev, [], before) != [] {
        DisplayedOfOne(sofar, RenderOwn(ev, [], before)[0]);
      }
    case Settle(cause, error) =>
      DisplayedOfOne(sofar, SettleFrame(cause, error));
    case Delegate(id, child) =>
      ChildDisplay(sofar, id, child, 1, [], before);
  }

  lemma {:induction false} RootSteps(steps: seq<Step>, before: seq<EngineEvent>)
    ensures Displayed("", RenderSteps(steps, 0, [], before)) == OwnDisplay(steps)
  {
    if steps != [] {
      var init, last := steps[..|steps| - 1], steps[|steps| - 1];
      var at := before + Reaching([], EventsOf(init, 0));
      RootSteps(init, before);
      RootStep(OwnDisplay(init), last, at, HasSettle(init));
      DisplayedOfAppend("", RenderSteps(init, 0, [], before), RenderStep(last, 0, [], at, HasSettle(init)));
    }
  }

  lemma ClosingDisplay(sofar: string, tree: Tree)
    ensures Displayed(sofar, RenderClosing(tree, [])) == sofar
  {
    DisplayedOfOne(sofar, SettleFrame(Verdict(tree).cause, Verdict(tree).error));
  }

  lemma RootDisplay(tree: Tree)
    requires tree.setup.Ready?
    ensures Displayed("", RenderRun(tree, 0, [], [])) == OwnDisplay(tree.steps)
  {
    var inner, closing := RenderSteps(tree.steps, 0, [], []), RenderClosing(tree, []);
    RootSteps(tree.steps, []);
    ClosingDisplay(OwnDisplay(tree.steps), tree);
    DisplayedOfAppend("", inner, closing);
  }

  /** The text on display, messages included, is what the root's own harness says. */
  lemma OnlyRootIsDisplayed(tree: Tree)
    requires WellFormed(tree) && tree.setup.Ready?
    ensures Displayed("", AllFrames(INITIAL, RunEvents(tree, 0))) == OwnDisplay(tree.steps)
  {
    TreeRenders(tree);
    RootDisplay(tree);
  }

  // ----- Who has the last word -----

  /** A run whose own harness emits a final text. */
  predicate Speaks(run: (string, Tree)) {
    run.1.setup.Ready? && exists s | s in run.1.steps :: OwnWord(s)
  }

  predicate AnySpeaks(runs: seq<(string, Tree)>) {
    exists run | run in runs :: Speaks(run)
  }

  /** The step says a final text: by itself, or through a run that it executes. */
  predicate Says(step: Step, depth: nat) {
    OwnWord(step) || AnySpeaks(ExecutedStep(step, depth))
  }

  predicate OwnWord(step: Step) {
    step.Emit? && step.ev.FinalText?
  }

  /** A final text that is displayed: the client ignores an empty one. */
  predicate ShownWord(step: Step) {
    OwnWord(step) && step.ev.text != ""
  }

  /** The last step that says a final text, or -1. */
  function LastSayer(steps: seq<Step>, depth: nat): (k: int)
    ensures -1 <= k < |steps|
  {
    if steps == [] then -1
    else if Says(steps[|steps| - 1], depth) then |steps| - 1
    else LastSayer(steps[..|steps| - 1], depth)
  }

  /** The step it finds says a final text, and no step after it does. */
  lemma {:induction false} LastSayerIsLast(steps: seq<Step>, depth: nat)
    ensures var k := LastSayer(steps, depth);
            (k >= 0 ==> Says(steps[k], depth)) && forall j | k < j < |steps| :: !Says(steps[j], depth)
  {
    if steps != [] && !Says(steps[|steps| - 1], depth) {
      LastSayerIsLast(steps[..|steps| - 1], depth);
    }
  }

  lemma NoWordAfter(steps: seq<Step>, depth: nat)
    ensures var k := LastSayer(steps, depth);
            && (k >= 0 && steps[k].Emit? ==> OwnWord(steps[k]))
            && forall j | k < j < |steps| :: !OwnWord(steps[j])
  {
    var k := LastSayer(steps, depth);
    LastSayerIsLast(steps, depth);
    if k >= 0 && steps[k].Emit? {
      assert !AnySpeaks(ExecutedStep(steps[k], depth));
    }
    forall j | k < j < |steps|
      ensures !OwnWord(steps[j])
    {
      assert !Says(steps[j], depth);
    }
  }

  /** The final text that a stream ends up with, if it has any. */
  function FinalOf(evs: seq<EngineEvent>): Option<string> {
    if evs == [] then None
    else if evs[|evs| - 1].FinalText? then Some(evs[|evs| - 1].text)
    else FinalOf(evs[..|evs| - 1])
  }

  lemma {:induction false} FinalIsLast(evs: seq<EngineEvent>)
    ensures LastFinal(evs) == if FinalOf(evs).Some? then FinalOf(evs).value else ""
  {
    if evs != [] && !evs[|evs| - 1].FinalText? {
      FinalIsLast(evs[..|evs| - 1]);
    }
  }

  lemma {:induction false} FinalOfAppend(a: seq<EngineEvent>, b: seq<EngineEvent>)
    ensures FinalOf(a + b) == if FinalOf(b).Some? then FinalOf(b) else FinalOf(a)
  {
    if b == [] {
      assert a + b == a;
    } else {
      assert (a + b)[..|a + b| - 1] == a + b[..|b| - 1];
      FinalOfAppend(a, b[..|b| - 1]);
    }
  }

  lemma FinalOfOne(ev: EngineEvent)
    ensures FinalOf([ev]) == if ev.FinalText? then Some(ev.text) else None
  {
    assert [ev][..0] == [];
  }

  lemma {:induction false} ForwardedFinal(evs: seq<EngineEvent>)
    ensures FinalOf(Forwarded(evs)) == FinalOf(evs)
  {
    if evs != [] {
      var last := evs[|evs| - 1];
      ForwardedFinal(evs[..|evs| - 1]);
      FinalOfAppend(Forwarded(evs[..|evs| - 1]), if last.Terminal? then [] else [last]);
      FinalOfOne(last);
    }
  }

  lemma BracketedFinal(id: string, child: Tree, depth: nat)
    ensures FinalOf(Bracketed(id, child, depth)) == FinalOf(RunEvents(child, depth))
  {
    var start, end := ChildStarted(id), ChildSettled(id, Verdict(child).cause);
    var inner := Forwarded(RunEvents(child, depth));
    ForwardedFinal(RunEvents(child, depth));
    FinalOfOne(start);
    FinalOfOne(end);
    FinalOfAppend(inner, [end]);
    FinalOfAppend([start], inner + [end]);
  }

  lemma ClosingFinal(tree: Tree, evs: seq<EngineEvent>)
    ensures FinalOf(evs + Closing(tree)) == FinalOf(evs)
  {
    FinalOfAppend(evs, Closing(tree));
    FinalOfOne(Terminal(Verdict(tree).cause, Verdict(tree).error));
  }

  lemma AnySpeaksOfAppend(a: seq<(string, Tree)>, b: seq<(string, Tree)>)
    ensures AnySpeaks(a + b) <==> AnySpeaks(a) || AnySpeaks(b)
  {
    if AnySpeaks(a) {
      var run :| run in a && Speaks(run);
      assert run in a + b;
    }
    if AnySpeaks(b) {
      var run :| run in b && Speaks(run);
      assert run in a + b;
    }
  }

  /** A run's stream has a final text exactly when the run, or one that it executes, speaks. */
  lemma RunFinal(id: string, tree: Tree, depth: nat)
    requires WellFormed(tree)
    ensures FinalOf(RunEvents(tree, depth)).Some? <==> AnySpeaks([(id, tree)] + ExecutedBelow(tree, depth))
    decreases tree, 1
  {
    AnySpeaksOfAppend([(id, tree)], ExecutedBelow(tree, depth));
    assert (id, tree) in [(id, tree)];
    if tree.setup.Ready? {
      StepsFinal(tree.steps, depth);
      ClosingFinal(tree, EventsOf(tree.steps, depth));
    } else if Starts(tree) {
      ClosingFinal(tree, []);
      assert [] + Closing(tree) == Closing(tree);
    }
  }

  lemma {:induction false} StepsFinal(steps: seq<Step>, depth: nat)
    requires StepsFormed(steps)
    ensures FinalOf(EventsOf(steps, depth)).Some?
            <==> (exists s | s in steps :: OwnWord(s)) || AnySpeaks(ExecutedSteps(steps, depth))
    decreases steps, 0
  {
    if steps != [] {
      var init, last := steps[..|steps| - 1], steps[|steps| - 1];
      assert steps == init + [last];
      StepsFinal(init, depth);
      StepFinal(last, depth, HasSettle(init));
      FinalOfAppend(EventsOf(init, depth), StepEvents(last, depth, HasSettle(init)));
      AnySpeaksOfAppend(ExecutedSteps(init, depth), ExecutedStep(last, depth));
      if s :| s in init && OwnWord(s) {
        assert s in steps;
      }
      assert last in steps;
    }
  }

  /** A step passes on a final text exactly when it says one. */
  lemma StepFinal(step: Step, depth: nat, settled: bool)
    requires StepFormed(step)
    ensures FinalOf(StepEvents(step, depth, settled)).Some? <==> Says(step, depth)
    ensures OwnWord(step) ==> FinalOf(StepEvents(step, depth, settled)) == Some(step.ev.text)
    ensures Says(step, depth) && step.Delegate? ==>
              FinalOf(StepEvents(step, depth, settled)) == FinalOf(RunEvents(step.child, depth + 1))
    decreases step, 0
  {
    match step
    case Emit(ev) =>
      FinalOfOne(ev);
    case Settle(cause, error) =>
      FinalOfOne(Terminal(cause, error));
    case Delegate(id, child) =>
      if depth < MAX_DELEGATION_DEPTH {
        RunFinal(id, child, depth + 1);
        BracketedFinal(id, child, depth + 1);
      }
  }

  /** The final text of a run's steps is that of the last step that says one. */
  lemma {:induction false} LastWord(steps: seq<Step>, depth: nat)
    requires StepsFormed(steps)
    ensures var k, final := LastSayer(steps, depth), FinalOf(EventsOf(steps, depth));
            && (k == -1 ==> final == None)
            && (k >= 0 && OwnWord(steps[k]) ==> final == Some(steps[k].ev.text))
            && (k >= 0 && steps[k].Delegate? ==> final == FinalOf(RunEvents(steps[k].child, depth + 1)) && final.Some?)
            && (k >= 0 ==> OwnWord(steps[k]) || steps[k].Delegate?)
  {
    if steps != [] {
      var init, last := steps[..|steps| - 1], steps[|steps| - 1];
      assert last in steps && StepFormed(last);
      StepFinal(last, depth, HasSettle(init));
      FinalOfAppend(EventsOf(init, depth), StepEvents(last, depth, HasSettle(init)));
      if !Says(last, depth) {
        LastWord(init, depth);
      }
    }
  }

  // ----- Streamed text -----

  function Streams(run: (string, Tree)): string {
    if run.1.setup.Ready? then OwnText(run.1.steps) else ""
  }

  predicate Silent(runs: seq<(string, Tree)>) {
    forall run | run in runs :: Streams(run) == ""
  }

  function StreamLength(runs: seq<(string, Tree)>): nat {
    if runs == [] then 0 else StreamLength(runs[..|runs| - 1]) + |Streams(runs[|runs| - 1])|
  }

  lemma {:induction false} StreamLengthOfAppend(a: seq<(string, Tree)>, b: seq<(string, Tree)>)
    ensures StreamLength(a + b) == StreamLength(a) + StreamLength(b)
  {
    if b == [] {
      assert a + b == a;
    } else {
      assert (a + b)[..|a + b| - 1] == a + b[..|b| - 1];
      StreamLengthOfAppend(a, b[..|b| - 1]);
    }
  }

  lemma {:induction false} SilentLength(runs: seq<(string, Tree)>)
    ensures StreamLength(runs) == 0 <==> Silent(runs)
  {
    if runs != [] {
      var init, last := runs[..|runs| - 1], runs[|runs| - 1];
      assert runs == init + [last];
      SilentLength(init);
      assert Silent(runs) <==> Silent(init) && Streams(last) == "";
    }
  }

  lemma {:induction false} ChunksOfAppend(a: seq<EngineEvent>, b: seq<EngineEvent>)
    ensures Chunks(a + b) == Chunks(a) + Chunks(b)
  {
    if b == [] {
      assert a + b == a;
    } else {
      var last := b[|b| - 1];
      assert (a + b)[..|a + b| - 1] == a + b[..|b| - 1];
      ChunksOfAppend(a, b[..|b| - 1]);
      AppendAssociates(Chunks(a), Chunks(b[..|b| - 1]), if last.StreamChunk? then last.text else "");
    }
  }

  lemma ChunksOfOne(ev: EngineEvent)
    ensures Chunks([ev]) == if ev.StreamChunk? then ev.text else ""
  {
    assert [ev][..0] == [];
  }

  lemma {:induction false} ForwardedChunks(evs: seq<EngineEvent>)
    ensures Chunks(Forwarded(evs)) == Chunks(evs)
  {
    if evs != [] {
      var last := evs[|evs| - 1];
      ForwardedChunks(evs[..|evs| - 1]);
      ChunksOfAppend(Forwarded(evs[..|evs| - 1]), if last.Terminal? then [] else [last]);
      ChunksOfOne(last);
    }
  }

  lemma BracketedChunks(id: string, child: Tree, depth: nat)
    ensures Chunks(Bracketed(id, child, depth)) == Chunks(RunEvents(child, depth))
  {
    var start, end := ChildStarted(id), ChildSettled(id, Verdict(child).cause);
    var inner := Forwarded(RunEvents(child, depth));
    ForwardedChunks(RunEvents(child, depth));
    ChunksOfOne(start);
    ChunksOfOne(end);
    ChunksOfAppend(inner, [end]);
    ChunksOfAppend([start], inner + [end]);
  }

  lemma ClosingChunks(tree: Tree, evs: seq<EngineEvent>)
    ensures Chunks(evs + Closing(tree)) == Chunks(evs)
  {
    ChunksOfAppend(evs, Closing(tree));
    ChunksOfOne(Terminal(Verdict(tree).cause, Verdict(tree).error));
  }

  /** A run's streamed text is as long as its own and that of every run it executes, and its own if they are silent. */
  lemma RunChunks(id: string, tree: Tree, depth: nat)
    requires WellFormed(tree)
    ensures |Chunks(RunEvents(tree, depth))| == |Streams((id, tree))| + StreamLength(ExecutedBelow(tree, depth))
    ensures Silent(ExecutedBelow(tree, depth)) ==> Chunks(RunEvents(tree, depth)) == Streams((id, tree))
    decreases tree, 1
  {
    if tree.setup.Ready? {
      StepsChunks(tree.steps, depth);
      ClosingChunks(tree, EventsOf(tree.steps, depth));
    } else if Starts(tree) {
      ClosingChunks(tree, []);
      assert [] + Closing(tree) == Closing(tree);
    }
  }

  lemma {:induction false} StepsChunks(steps: seq<Step>, depth: nat)
    requires StepsFormed(steps)
    ensures |Chunks(EventsOf(steps, depth))| == |OwnText(steps)| + StreamLength(ExecutedSteps(steps, depth))
    ensures Silent(ExecutedSteps(steps, depth)) ==> Chunks(EventsOf(steps, depth)) == OwnText(steps)
    decreases steps, 0
  {
    if steps != [] {
      var init, last := steps[..|steps| - 1], steps[|steps| - 1];
      assert last in steps && StepFormed(last);
      StepsChunks(init, depth);
      StepChunks(last, depth, HasSettle(init));
      ChunksOfAppend(EventsOf(init, depth), StepEvents(last, depth, HasSettle(init)));
      StreamLengthOfAppend(ExecutedSteps(init, depth), ExecutedStep(last, depth));
      assert Silent(ExecutedSteps(steps, depth)) ==>
               Silent(ExecutedSteps(init, depth)) && Silent(ExecutedStep(last, depth));
    }
  }

  /** What a step streams by itself. */
  function StepText(step: Step): string {
    if step.Emit? && step.ev.StreamChunk? then step.ev.text else ""
  }

  lemma StepChunks(step: Step, depth: nat, settled: bool)
    requires StepFormed(step)
    ensures |Chunks(StepEvents(step, depth, settled))| == |StepText(step)| + StreamLength(ExecutedStep(step, depth))
    ensures Silent(ExecutedStep(step, depth)) ==> Chunks(StepEvents(step, depth, settled)) == StepText(step)
    decreases step, 0
  {
    match step
    case Emit(ev) =>
      ChunksOfOne(ev);
    case Settle(cause, error) =>
      ChunksOfOne(Terminal(cause, error));
    case Delegate(id, child) =>
      if depth < MAX_DELEGATION_DEPTH {
        ChildChunks(id, child, depth);
      }
  }

  lemma ChildChunks(id: string, child: Tree, depth: nat)
    requires WellFormed(child) && depth < MAX_DELEGATION_DEPTH
    ensures var runs := ExecutedStep(Delegate(id, child), depth);
            && |Chunks(Bracketed(id, child, depth + 1))| == StreamLength(runs)
            && (Silent(runs) ==> Chunks(Bracketed(id, child, depth + 1)) == "")
    decreases child, 2
  {
    var below := ExecutedBelow(child, depth + 1);
    RunChunks(id, child, depth + 1);
    BracketedChunks(id, child, depth + 1);
    StreamLengthOfAppend([(id, child)], below);
    SilentLength([(id, child)] + below);
    assert [(id, child)][..0] == [];
  }

  // ----- The settled text -----

  lemma {:induction false} DisplayTail(steps: seq<Step>, k: nat)
    requires k <= |steps| && forall j | k <= j < |steps| :: !ShownWord(steps[j])
    ensures OwnDisplay(steps) == OwnDisplay(steps[..k]) + OwnText(steps[k..])
  {
    if k == |steps| {
      assert steps[..k] == steps && steps[k..] == [];
    } else {
      var init, last := steps[..|steps| - 1], steps[|steps| - 1];
      DisplayTail(init, k);
      assert init[..k] == steps[..k] && steps[k..][..|steps| - k - 1] == init[k..];
      AppendAssociates(OwnDisplay(steps[..k]), OwnText(init[k..]), StepText(last));
    }
  }

  lemma DisplayUpTo(steps: seq<Step>, k: nat)
    requires k < |steps|
    ensures OwnDisplay(steps[..k + 1]) == Said(OwnDisplay(steps[..k]), steps[k])
  {
    var upTo := steps[..k + 1];
    assert upTo[..k] == steps[..k] && upTo[k] == steps[k];
  }

  /** After the root's last word that is not empty the display is that word and what the root streams after it. */
  lemma DisplayAfterWord(steps: seq<Step>, k: nat)
    requires k < |steps| && ShownWord(steps[k])
    requires forall j | k < j < |steps| :: !ShownWord(steps[j])
    ensures OwnDisplay(steps) == steps[k].ev.text + OwnText(steps[k + 1..])
  {
    DisplayUpTo(steps, k);
    DisplayTail(steps, k + 1);
  }

  /** With nobody speaking, the settled text is the display exactly when every executed child streams nothing. */
  lemma StreamedSettles(tree: Tree)
    requires WellFormed(tree) && tree.setup.Ready?
    ensures Chunks(RunEvents(tree, 0)) == OwnText(tree.steps) <==> Silent(ExecutedBelow(tree, 0))
  {
    RunChunks("", tree, 0);
    SilentLength(ExecutedBelow(tree, 0));
  }

  /**
   The last final text of a run that reaches its harness is that of the last step that says one, whether its own or,
   in turn, the last of the child it delegates to; there is none if no run that takes place speaks.
   */
  lemma LastFinalIsLastWord(tree: Tree, depth: nat)
    requires WellFormed(tree) && tree.setup.Ready?
    ensures var steps, k := tree.steps, LastSayer(tree.steps, depth);
            LastFinal(RunEvents(tree, depth)) ==
              if k == -1 then ""
              else if OwnWord(steps[k]) then steps[k].ev.text
              else if steps[k].Delegate? then LastFinal(RunEvents(steps[k].child, depth + 1))
              else ""
  {
    var steps, k := tree.steps, LastSayer(tree.steps, depth);
    LastWord(steps, depth);
    ClosingFinal(tree, EventsOf(steps, depth));
    FinalIsLast(RunEvents(tree, depth));
    if k >= 0 && steps[k].Delegate? {
      FinalIsLast(RunEvents(steps[k].child, depth + 1));
    }
  }

  lemma NobodySpeaks(steps: seq<Step>)
    requires LastSayer(steps, 0) == -1
    ensures OwnDisplay(steps) == OwnText(steps)
  {
    NoWordAfter(steps, 0);
    DisplayTail(steps, 0);
    assert steps[..0] == [] && steps[0..] == steps;
  }

  /**
   Where nobody speaks, a run settles with everything streamed, and displays what the root streamed. The two agree
   exactly when every executed child streams nothing.
   */
  lemma SettledWhenNobodySpeaks(tree: Tree, runId: string)
    requires WellFormed(tree) && tree.setup.Ready? && LastSayer(tree.steps, 0) == -1
    ensures var evs := RunEvents(tree, 0);
            var settled, shown := ResultOf(runId, evs).finalText, Displayed("", AllFrames(INITIAL, evs));
            && settled == Chunks(evs) && shown == OwnText(tree.steps)
            && (settled == shown <==> Silent(ExecutedBelow(tree, 0)))
  {
    LastFinalIsLastWord(tree, 0);
    OnlyRootIsDisplayed(tree);
    StreamedSettles(tree);
    NobodySpeaks(tree.steps);
  }

  lemma RootWordIsDisplayed(tree: Tree, k: nat)
    requires WellFormed(tree) && tree.setup.Ready?
    requires k < |tree.steps| && ShownWord(tree.steps[k])
    requires forall j | k < j < |tree.steps| :: !ShownWord(tree.steps[j])
    ensures Displayed("", AllFrames(INITIAL, RunEvents(tree, 0))) ==
              tree.steps[k].ev.text + OwnText(tree.steps[k + 1..])
  {
    OnlyRootIsDisplayed(tree);
    DisplayAfterWord(tree.steps, k);
  }

  /**
   Where the root has the last word, and the word is not empty, a run settles with it. The display agrees exactly when
   the root streams nothing after it.
   */
  lemma SettledWhenRootSpeaksLast(tree: Tree, runId: string, k: nat)
    requires WellFormed(tree) && tree.setup.Ready?
    requires k == LastSayer(tree.steps, 0) && OwnWord(tree.steps[k]) && tree.steps[k].ev.text != ""
    ensures var evs := RunEvents(tree, 0);
            var settled, shown := ResultOf(runId, evs).finalText, Displayed("", AllFrames(INITIAL, evs));
            && settled == tree.steps[k].ev.text && shown == settled + OwnText(tree.steps[k + 1..])
            && (settled == shown <==> OwnText(tree.steps[k + 1..]) == "")
  {
    LastFinalIsLastWord(tree, 0);
    NoWordAfter(tree.steps, 0);
    RootWordIsDisplayed(tree, k);
    WordAgainstDisplay(RunEvents(tree, 0), runId, AllFrames(INITIAL, RunEvents(tree, 0)), tree.steps[k].ev.text,
                       OwnText(tree.steps[k + 1..]));
  }

  lemma WordAgainstDisplay(evs: seq<EngineEvent>, runId: string, frames: seq<IslandFrame>, word: string, after: string)
    requires word != "" && LastFinal(evs) == word && Displayed("", frames) == word + after
    ensures var settled, shown := ResultOf(runId, evs).finalText, Displayed("", frames);
            settled == word && shown == settled + after && (settled == shown <==> after == "")
  {
  }

  lemma ChildWordIsLast(tree: Tree, k: nat)
    requires WellFormed(tree) && tree.setup.Ready?
    requires k == LastSayer(tree.steps, 0) && tree.steps[k].Delegate?
    ensures LastFinal(RunEvents(tree, 0)) == LastFinal(RunEvents(tree.steps[k].child, 1))
  {
    LastFinalIsLastWord(tree, 0);
  }

  /** Where a child has the last word, and the word is not empty, a run settles with it. */
  lemma SettledWhenChildSpeaksLast(tree: Tree, runId: string, k: nat)
    requires WellFormed(tree) && tree.setup.Ready?
    requires k == LastSayer(tree.steps, 0) && tree.steps[k].Delegate?
    requires LastFinal(RunEvents(tree.steps[k].child, 1)) != ""
    ensures ResultOf(runId, RunEvents(tree, 0)).finalText == LastFinal(RunEvents(tree.steps[k].child, 1))
  {
    ChildWordIsLast(tree, k);
    LastFinalSettles(RunEvents(tree, 0), runId);
  }

  lemma LastFinalSettles(evs: seq<EngineEvent>, runId: string)
    requires LastFinal(evs) != ""
    ensures ResultOf(runId, evs).finalText == LastFinal(evs)
  {
  }

  /** None of the child's word is displayed: the display is what it would be if the child said nothing. */
  lemma ChildWordIsHidden(tree: Tree, k: nat)
    requires WellFormed(tree) && tree.setup.Ready?
    requires k < |tree.steps| && tree.steps[k].Delegate? && forall j | k < j < |tree.steps| :: !OwnWord(tree.steps[j])
    ensures Displayed("", AllFrames(INITIAL, RunEvents(tree, 0))) ==
              OwnDisplay(tree.steps[..k]) + OwnText(tree.steps[k + 1..])
  {
    OnlyRootIsDisplayed(tree);
    DisplayAround(tree.steps, k);
  }

  lemma DisplayAround(steps: seq<Step>, k: nat)
    requires k < |steps| && steps[k].Delegate? && forall j | k < j < |steps| :: !OwnWord(steps[j])
    ensures OwnDisplay(steps) == OwnDisplay(steps[..k]) + OwnText(steps[k + 1..])
  {
    DisplayUpTo(steps, k);
    DisplayTail(steps, k + 1);
  }

  /** An empty last word does not count: a run settles with everything streamed. */
  lemma SettledWhenLastWordIsEmpty(tree: Tree, runId: string)
    requires WellFormed(tree) && LastFinal(RunEvents(tree, 0)) == ""
    ensures ResultOf(runId, RunEvents(tree, 0)).finalText == Chunks(RunEvents(tree, 0))
    ensures Chunks(RunEvents(tree, 0)) == Streams(("", tree)) <==> Silent(ExecutedBelow(tree, 0))
  {
    RunChunks("", tree, 0);
    SilentLength(ExecutedBelow(tree, 0));
  }

  /**
   With an empty last word the settled text is all that was streamed. If the root has said no other, the display is
   what the root streamed, and the two agree exactly when every executed child streams nothing.
   */
  lemma DisplayedWithoutWords(tree: Tree, runId: string)
    requires WellFormed(tree) && tree.setup.Ready? && LastFinal(RunEvents(tree, 0)) == ""
    requires forall s | s in tree.steps :: !ShownWord(s)
    ensures var evs := RunEvents(tree, 0);
            var settled, shown := ResultOf(runId, evs).finalText, Displayed("", AllFrames(INITIAL, evs));
            && shown == OwnText(tree.steps)
            && (settled == shown <==> Silent(ExecutedBelow(tree, 0)))
  {
    var steps := tree.steps;
    OnlyRootIsDisplayed(tree);
    DisplayTail(steps, 0);
    assert steps[..0] == [] && steps[0..] == steps;
    SettledWhenLastWordIsEmpty(tree, runId);
  }

  lemma {:induction false} OwnTextOfAppend(a: seq<Step>, b: seq<Step>)
    ensures OwnText(a + b) == OwnText(a) + OwnText(b)
  {
    if b == [] {
      assert a + b == a;
    } else {
      var init, last := b[..|b| - 1], b[|b| - 1];
      assert (a + b)[..|a + b| - 1] == a + init;
      OwnTextOfAppend(a, init);
      AppendAssociates(OwnText(a), OwnText(init), StepText(last));
    }
  }

  /** What the root streams falls into what comes before one of its words and what comes after it. */
  lemma OwnTextAround(steps: seq<Step>, k: nat)
    requires k < |steps| && OwnWord(steps[k])
    ensures OwnText(steps) == OwnText(steps[..k]) + OwnText(steps[k + 1..])
  {
    OwnTextUpTo(steps, k);
    CutAt(steps, k + 1);
    OwnTextOfAppend(steps[..k + 1], steps[k + 1..]);
  }

  lemma OwnTextUpTo(steps: seq<Step>, k: nat)
    requires k < |steps| && OwnWord(steps[k])
    ensures OwnText(steps[..k + 1]) == OwnText(steps[..k])
  {
    var upTo := steps[..k + 1];
    assert upTo[..k] == steps[..k] && upTo[k] == steps[k];
    assert OwnText(upTo) == OwnText(steps[..k]) + "";
  }

  lemma SameEnding(a: string, b: string, ending: string)
    ensures a + ending == b + ending <==> a == b
  {
    if a + ending == b + ending {
      assert a == (a + ending)[..|a|] && b == (b + ending)[..|b|];
    }
  }

  /**
   With an empty last word after one that is not, the display is the earlier word and what the root streams after
   it. Over silent children the settled text agrees exactly when the word repeats what the root streamed before it.
   */
  lemma DisplayedAfterEarlierWord(tree: Tree, runId: string, k: nat)
    requires WellFormed(tree) && tree.setup.Ready? && LastFinal(RunEvents(tree, 0)) == ""
    requires k < |tree.steps| && ShownWord(tree.steps[k])
    requires forall j | k < j < |tree.steps| :: !ShownWord(tree.steps[j])
    ensures var evs, steps := RunEvents(tree, 0), tree.steps;
            var settled, shown := ResultOf(runId, evs).finalText, Displayed("", AllFrames(INITIAL, evs));
            && shown == steps[k].ev.text + OwnText(steps[k + 1..])
            && (Silent(ExecutedBelow(tree, 0)) ==> (settled == shown <==> OwnText(steps[..k]) == steps[k].ev.text))
  {
    var steps := tree.steps;
    RootWordIsDisplayed(tree, k);
    SettledWhenLastWordIsEmpty(tree, runId);
    OwnTextAround(steps, k);
    SameEnding(OwnText(steps[..k]), steps[k].ev.text, OwnText(steps[k + 1..]));
  }

  /** The text of a silent root's only child is settled, and none of it is displayed. */
  lemma ChildTextSettlesIntoRoot(id: string, child: Tree, runId: string)
    requires id != "" && WellFormed(child) && LastFinal(RunEvents(child, 1)) != ""
    ensures var evs := RunEvents(Tree(Ready, [Delegate(id, child)], Returns, false), 0);
            && Displayed("", AllFrames(INITIAL, evs)) == ""
            && ResultOf(runId, evs).finalText == LastFinal(RunEvents(child, 1))
  {
    var steps := [Delegate(id, child)];
    var tree := Tree(Ready, steps, Returns, false);
    OnlySayer(id, child);
    SettledWhenChildSpeaksLast(tree, runId, 0);
    OnlyRootIsDisplayed(tree);
    assert steps[..0] == [];
  }

  lemma OnlySayer(id: string, child: Tree)
    requires WellFormed(child) && LastFinal(RunEvents(child, 1)) != ""
    ensures LastSayer([Delegate(id, child)], 0) == 0
  {
    FinalIsLast(RunEvents(child, 1));
    RunFinal(id, child, 1);
    assert Says(Delegate(id, child), 0);
  }
}
