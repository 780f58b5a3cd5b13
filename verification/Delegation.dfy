/**
 One run and everything it delegates (src/kernel/orchestrator.ts and the Delegator of src/kernel/index.ts).
 A run is a tree: what its harness does in order, with a whole child run at each delegation. The kernel
 flattens the tree onto one event stream.
 */
module Delegation {
  import opened Text
  import opened Events
  import opened SettlementModel
  import opened HarnessRuntime
  import opened Previews

  const MAX_DELEGATION_DEPTH := 2

  /** What a harness does with its `io` and its Delegator, in order. */
  datatype Step =
    | Emit(ev: EngineEvent)
    | Settle(cause: Cause, error: Option<RunError>)
    | Delegate(childRunId: string, child: Tree)

  /** How far a run gets before its harness is invoked. */
  datatype Setup =
    | NoWorkspace(message: string)
    | NoHarness(message: string)
    | TopologyRefused(code: string, message: string)
    | UnknownCapability(message: string)
    | Ready

  datatype Exit = Returns | Throws(message: string)

  datatype Tree = Tree(setup: Setup, steps: seq<Step>, exit: Exit, aborted: bool)

  /** Events a harness emits by itself: terminals go through its settler, child brackets through the kernel. */
  predicate Own(ev: EngineEvent) {
    !ev.Terminal? && !ev.ChildStarted? && !ev.ChildSettled?
  }

  predicate WellFormed(tree: Tree) {
    StepsFormed(tree.steps)
  }

  predicate StepsFormed(steps: seq<Step>) {
    forall s | s in steps :: StepFormed(s)
  }

  predicate StepFormed(s: Step) {
    match s
    case Emit(ev) => Own(ev)
    case Settle(_, _) => true
    case Delegate(id, child) => id != "" && WellFormed(child)
  }

  // ----- What the run is owed -----

  predicate HasSettle(steps: seq<Step>) {
    exists s | s in steps :: s.Settle?
  }

  function FirstSettle(steps: seq<Step>): Ending
    requires HasSettle(steps)
  {
    if steps[0].Settle? then Ending(steps[0].cause, steps[0].error) else FirstSettle(steps[1..])
  }

  /** The orchestrator is reached and returns a result instead of throwing. */
  predicate Starts(tree: Tree) {
    !tree.setup.NoWorkspace? && !tree.setup.NoHarness?
  }

  /** The cause and error that the run must end with. */
  function Verdict(tree: Tree): Ending {
    match tree.setup
    case NoWorkspace(m) => Ending(Failed, Some(RunError("provision_failed", m)))
    case NoHarness(m) => Ending(Failed, Some(RunError("provision_failed", m)))
    case TopologyRefused(code, m) => Ending(Failed, Some(RunError(code, m)))
    case UnknownCapability(m) => Ending(Failed, Some(RunError("unknown_capability_ref", m)))
    case Ready =>
      if HasSettle(tree.steps) then FirstSettle(tree.steps)
      else match tree.exit
        case Throws(m) => Ending(Failed, Some(RunError("harness_threw", m)))
        case Returns => Ending(if tree.aborted then Cancelled else Done, None)
  }

  // ----- The flattened stream -----

  /** What a child's sink lets through: everything but terminals. */
  function Forwarded(evs: seq<EngineEvent>): seq<EngineEvent> {
    if evs == [] then []
    else Forwarded(evs[..|evs| - 1]) + if evs[|evs| - 1].Terminal? then [] else [evs[|evs| - 1]]
  }

  /** The events of a child run between its brackets, as the parent's `onEvent` gets them. */
  function Bracketed(id: string, child: Tree, depth: nat): seq<EngineEvent>
    decreases child, 1
  {
    [ChildStarted(id)] + (Forwarded(RunEvents(child, depth)) + [ChildSettled(id, Verdict(child).cause)])
  }

  function StepEvents(step: Step, depth: nat, settled: bool): seq<EngineEvent>
    decreases step, 0
  {
    match step
    case Emit(ev) => [ev]
    case Settle(cause, error) => if settled then [] else [Terminal(cause, error)]
    case Delegate(id, child) => if depth >= MAX_DELEGATION_DEPTH then [] else Bracketed(id, child, depth + 1)
  }

  function EventsOf(steps: seq<Step>, depth: nat): seq<EngineEvent>
    decreases steps, 0
  {
    if steps == [] then []
    else
      var init := steps[..|steps| - 1];
      EventsOf(init, depth) + StepEvents(steps[|steps| - 1], depth, HasSettle(init))
  }

  function Closing(tree: Tree): seq<EngineEvent> {
    if tree.setup.Ready? && HasSettle(tree.steps) then [] else [Terminal(Verdict(tree).cause, Verdict(tree).error)]
  }

  /** Everything the orchestrator passes to the sink of one run. */
  function RunEvents(tree: Tree, depth: nat): seq<EngineEvent>
    decreases tree, 0
  {
    if !Starts(tree) then []
    else (if tree.setup.Ready? then EventsOf(tree.steps, depth) else []) + Closing(tree)
  }

  // ----- The orchestrator -----

  /** Only entries of sessions whose ids begin with `prefix` may differ: the session itself and those made under it. */
  ghost predicate OnlyUnder(prefix: string, was: Entries, now: Entries) {
    forall s | !(prefix <= s) :: EntryOf(now, s) == EntryOf(was, s)
  }

  lemma OnlyOwnEntry(sessionId: string, was: Entries, now: Entries)
    requires now - {sessionId} == was - {sessionId}
    ensures OnlyUnder(sessionId, was, now)
  {
    forall s | !(sessionId <= s)
      ensures EntryOf(now, s) == EntryOf(was, s)
    {
      assert EntryOf(now - {sessionId}, s) == EntryOf(was - {sessionId}, s);
    }
  }

  /** What happens under a longer id happens under the shorter one, and leaves its own entry alone. */
  lemma OnlyUnderChild(prefix: string, rest: string, was: Entries, now: Entries)
    requires OnlyUnder(prefix + rest, was, now) && rest != ""
    ensures OnlyUnder(prefix, was, now) && EntryOf(now, prefix) == EntryOf(was, prefix)
  {
  }

  /** `EngineEvent`s pumped through the preview registry and settlement and out to the sink of one run. */
  class Pump {
    const settlement: Settlement
    const previews: PreviewRegistry
    const sessionId: string
    /** The entry of the session when the run began. */
    ghost const entry: Option<PreviewState>
    var sink: seq<EngineEvent>

    ghost predicate Valid()
      reads this, settlement, previews
    {
      && settlement.Valid() && settlement.seen == sink
      && EntryOf(previews.bySession, sessionId) == NotedAll(entry, sink)
    }

    constructor (runId: string, sessionId: string, previews: PreviewRegistry)
      ensures Valid() && sink == [] && settlement.runId == runId && fresh(settlement)
      ensures this.previews == previews && this.sessionId == sessionId
      ensures entry == EntryOf(previews.bySession, sessionId)
    {
      settlement := new Settlement(runId);
      this.previews, this.sessionId := previews, sessionId;
      entry := EntryOf(previews.bySession, sessionId);
      sink := [];
    }

    method Emit(ev: EngineEvent)
      requires Valid()
      modifies this, settlement, previews
      ensures Valid() && sink == old(sink) + [ev]
      ensures previews.bySession - {sessionId} == old(previews.bySession) - {sessionId}
    {
      previews.Note(sessionId, ev);
      NotedOneMore(entry, sink, ev);
      var _ := settlement.Observe(ev);
      sink := sink + [ev];
    }

    method EmitAll(evs: seq<EngineEvent>)
      requires Valid()
      modifies this, settlement, previews
      ensures Valid() && sink == old(sink) + evs
      ensures previews.bySession - {sessionId} == old(previews.bySession) - {sessionId}
    {
      for i := 0 to |evs|
        invariant Valid() && sink == old(sink) + evs[..i]
        invariant previews.bySession - {sessionId} == old(previews.bySession) - {sessionId}
      {
        Emit(evs[i]);
        SnocTaken(old(sink), evs, i);
      }
      assert evs[..|evs|] == evs;
    }
  }

  datatype DelegateResult = DelegateResult(cause: Cause, finalText: string, error: Option<RunError>)

  function TooDeep(depth: nat): string {
    "delegation depth " + Decimal(depth) + " exceeds cap " + Decimal(MAX_DELEGATION_DEPTH)
  }

  lemma CapMessage(depth: nat)
    ensures TooDeep(depth) == "delegation depth " + Decimal(depth) + " exceeds cap 2"
  {
    assert Decimal(2) == "2";
    AppendAssociates("delegation depth " + Decimal(depth), " exceeds cap ", "2");
    assert " exceeds cap " + "2" == " exceeds cap 2";
  }

  /** The child's sink: its events without its terminals. */
  method ChildSink(emitted: seq<EngineEvent>) returns (forwarded: seq<EngineEvent>)
    ensures forwarded == Forwarded(emitted)
  {
    forwarded := [];
    for i := 0 to |emitted|
      invariant forwarded == Forwarded(emitted[..i])
    {
      assert emitted[..i + 1][..i] == emitted[..i];
      if !emitted[i].Terminal? {
        forwarded := forwarded + [emitted[i]];
      }
    }
    assert emitted[..|emitted|] == emitted;
  }

  /** One call of the Delegator: the child's bracketed events, and the result handed back to the parent. */
  method RunDelegate(id: string, child: Tree, depth: nat, childSessionId: string, previews: PreviewRegistry)
    returns (events: seq<EngineEvent>, result: DelegateResult)
    requires WellFormed(child)
    modifies previews
    ensures OnlyUnder(childSessionId, old(previews.bySession), previews.bySession)
    ensures events == if depth >= 2 then [] else Bracketed(id, child, depth + 1)
    ensures depth >= 2 ==>
              var message := "delegation depth " + Decimal(depth) + " exceeds cap 2";
              result == DelegateResult(Failed, "", Some(RunError("max_delegation_depth", message)))
    ensures depth < 2 && Starts(child) ==>
              var settled := ResultOf(id, RunEvents(child, depth + 1));
              result == DelegateResult(Verdict(child).cause, settled.finalText, Verdict(child).error)
    ensures depth < 2 && !Starts(child) ==>
              result == DelegateResult(Failed, "", Some(RunError("delegate_failed", child.setup.message)))
    ensures depth < 2 && Starts(child) && !child.setup.Ready? ==>
              && result.cause == Failed && result.finalText == ""
              && result.error.Some? && Reason(child.setup, result.error.value)
    decreases child, 1
  {
    if depth >= MAX_DELEGATION_DEPTH {
      CapMessage(depth);
      return [], DelegateResult(Failed, "", Some(RunError("max_delegation_depth", TooDeep(depth))));
    }
    events := [ChildStarted(id)];
    var emitted, outcome := Run(child, id, depth + 1, childSessionId, previews);
    var forwarded := ChildSink(emitted);
    if outcome.Some? {
      events := events + (forwarded + [ChildSettled(id, outcome.value.cause)]);
      result := DelegateResult(outcome.value.cause, outcome.value.finalText, outcome.value.error);
      RunVerdict(child, id, depth + 1);
      if !child.setup.Ready? {
        RefusedRun(child, id, depth + 1);
      }
    } else {
      events := events + (forwarded + [ChildSettled(id, Failed)]);
      result := DelegateResult(Failed, "", Some(RunError("delegate_failed", child.setup.message)));
    }
  }

  /**
   `Orchestrator.run`, with the workspace step of its caller in front: the events that reach the sink, and the
   result, or nothing when it throws. The run leaves its session's preview as its stream says, and touches no other but
   those of the sessions made under it.
   */
  method Run(tree: Tree, runId: string, depth: nat, sessionId: string, previews: PreviewRegistry)
    returns (out: seq<EngineEvent>, result: Option<RunResult>)
    requires WellFormed(tree)
    modifies previews
    ensures EntryOf(previews.bySession, sessionId) == NotedAll(EntryOf(old(previews.bySession), sessionId), out)
    ensures OnlyUnder(sessionId, old(previews.bySession), previews.bySession)
    ensures out == RunEvents(tree, depth)
    ensures result == if Starts(tree) then Some(ResultOf(runId, out)) else None
    ensures result.Some? && !tree.setup.Ready? ==>
              && result.value.cause == Failed && result.value.error.Some?
              && Reason(tree.setup, result.value.error.value)
              && out == [Terminal(Failed, result.value.error)]
    decreases tree, 0
  {
    if tree.setup.NoWorkspace? || tree.setup.NoHarness? {
      return [], None;
    }
    var pump := new Pump(runId, sessionId, previews);
    if tree.setup.Ready? {
      RunHarness(tree, depth, pump);
    } else {
      var error := if tree.setup.TopologyRefused? then RunError(tree.setup.code, tree.setup.message)
                   else RunError("unknown_capability_ref", tree.setup.message);
      pump.Emit(Terminal(Failed, Some(error)));
      OnlyOwnEntry(sessionId, old(previews.bySession), previews.bySession);
      assert pump.sink == [] + Closing(tree);
    }
    OneTerminal(tree, depth);
    if !tree.setup.Ready? {
      RefusedRun(tree, runId, depth);
    }
    var r := pump.settlement.Settle(if tree.aborted then Cancelled else Done, None);
    return pump.sink, Some(r);
  }

  /** The harness, and the backstops after it. */
  method RunHarness(tree: Tree, depth: nat, pump: Pump)
    requires WellFormed(tree) && tree.setup.Ready?
    requires pump.Valid() && pump.sink == []
    modifies pump, pump.settlement, pump.previews
    ensures OnlyUnder(pump.sessionId, old(pump.previews.bySession), pump.previews.bySession)
    ensures pump.Valid() && pump.sink == RunEvents(tree, depth)
    decreases tree.steps, 1
  {
    RunSteps(tree.steps, depth, pump);
    Finish(pump, tree.exit, tree.aborted);
    BackstopIsClosing(tree, depth);
  }

  function Backstop(evs: seq<EngineEvent>, exit: Exit, aborted: bool): seq<EngineEvent> {
    if Terminals(evs) != [] then []
    else match exit
      case Throws(m) => [Terminal(Failed, Some(RunError("harness_threw", m)))]
      case Returns => [Terminal(if aborted then Cancelled else Done, None)]
  }

  lemma BackstopIsClosing(tree: Tree, depth: nat)
    requires WellFormed(tree) && tree.setup.Ready?
    ensures Backstop(EventsOf(tree.steps, depth), tree.exit, tree.aborted) == Closing(tree)
  {
    StepTerminals(tree.steps, depth);
  }

  /** The orchestrator's backstops: a terminal for a harness that threw, and one for a harness that sent none. */
  method Finish(pump: Pump, exit: Exit, aborted: bool)
    requires pump.Valid()
    modifies pump, pump.settlement, pump.previews
    ensures OnlyUnder(pump.sessionId, old(pump.previews.bySession), pump.previews.bySession)
    ensures pump.Valid()
    ensures pump.sink == old(pump.sink) + Backstop(old(pump.sink), exit, aborted)
  {
    if exit.Throws? && !pump.settlement.settled {
      var ev := Terminal(Failed, Some(RunError("harness_threw", exit.message)));
      OneMore(pump.sink, ev);
      pump.Emit(ev);
    }
    if !pump.settlement.settled {
      pump.Emit(Terminal(if aborted then Cancelled else Done, None));
    }
    OnlyOwnEntry(pump.sessionId, old(pump.previews.bySession), pump.previews.bySession);
  }

  /** `harness.run`: drives the pump, settling at most once. */
  method RunSteps(steps: seq<Step>, depth: nat, pump: Pump)
    requires StepsFormed(steps)
    requires pump.Valid() && pump.sink == []
    modifies pump, pump.settlement, pump.previews
    ensures OnlyUnder(pump.sessionId, old(pump.previews.bySession), pump.previews.bySession)
    ensures pump.Valid() && pump.sink == EventsOf(steps, depth)
    decreases steps, 0
  {
    var settler := new Settler();
    for i := 0 to |steps|
      invariant pump.Valid() && settler.Valid() && settler != pump.settlement as object
      invariant OnlyUnder(pump.sessionId, old(pump.previews.bySession), pump.previews.bySession)
      invariant pump.sink == EventsOf(steps[..i], depth)
      invariant settler.settled == HasSettle(steps[..i])
    {
      assert steps[..i + 1][..i] == steps[..i];
      assert steps[..i + 1] == steps[..i] + [steps[i]];
      FirstSettleOfSnoc(steps[..i], steps[i]);
      RunStep(steps[i], depth, pump, settler);
    }
    assert steps[..|steps|] == steps;
  }

  /** A child session is made under its parent's; which one a delegation gets is left open. */
  method RunStep(step: Step, depth: nat, pump: Pump, settler: Settler)
    requires StepFormed(step)
    requires pump.Valid() && settler.Valid()
    modifies pump, pump.settlement, settler, pump.previews
    ensures OnlyUnder(pump.sessionId, old(pump.previews.bySession), pump.previews.bySession)
    ensures pump.Valid() && settler.Valid()
    ensures pump.sink == old(pump.sink) + StepEvents(step, depth, old(settler.settled))
    ensures settler.settled == (old(settler.settled) || step.Settle?)
    decreases step, 0
  {
    match step
    case Emit(ev) =>
      pump.Emit(ev);
      OnlyOwnEntry(pump.sessionId, old(pump.previews.bySession), pump.previews.bySession);
    case Settle(cause, error) =>
      var already := settler.settled;
      settler.Settle(cause, error);
      if !already {
        pump.Emit(Terminal(cause, error));
        OnlyOwnEntry(pump.sessionId, old(pump.previews.bySession), pump.previews.bySession);
      }
    case Delegate(id, child) =>
      var ref: string := *;
      var events, _ := RunDelegate(id, child, depth, pump.sessionId + ":sub:" + ref, pump.previews);
      AppendAssociates(pump.sessionId, ":sub:", ref);
      OnlyUnderChild(pump.sessionId, ":sub:" + ref, old(pump.previews.bySession), pump.previews.bySession);
      ghost var so := pump.previews.bySession;
      pump.EmitAll(events);
      OnlyOwnEntry(pump.sessionId, so, pump.previews.bySession);
  }

  // ----- What reaches the sink -----

  /** A child's sink lets everything through in order, but for terminals. */
  lemma {:induction false} ForwardedOfAppend(a: seq<EngineEvent>, b: seq<EngineEvent>)
    ensures Forwarded(a + b) == Forwarded(a) + Forwarded(b)
  {
    if b == [] {
      assert a + b == a;
    } else {
      var front, last := b[..|b| - 1], b[|b| - 1];
      assert (a + b)[..|a + b| - 1] == a + front;
      ForwardedOfAppend(a, front);
      AppendAssociates(Forwarded(a), Forwarded(front), if last.Terminal? then [] else [last]);
    }
  }

  lemma {:induction false} ForwardedKeeps(evs: seq<EngineEvent>, ev: EngineEvent)
    ensures multiset(Forwarded(evs))[ev] == if ev.Terminal? then 0 else multiset(evs)[ev]
  {
    if evs != [] {
      ForwardedKeeps(evs[..|evs| - 1], ev);
      assert evs == evs[..|evs| - 1] + [evs[|evs| - 1]];
    }
  }

  /** Whatever a harness emits by itself reaches the sink in its place, after all that it did before. */
  lemma {:induction false} EmittedInPlace(steps: seq<Step>, i: nat, depth: nat) returns (rest: seq<EngineEvent>)
    requires i < |steps| && steps[i].Emit?
    ensures EventsOf(steps, depth) == EventsOf(steps[..i], depth) + [steps[i].ev] + rest
  {
    var init := steps[..|steps| - 1];
    if i == |init| {
      rest := [];
      assert EventsOf(steps, depth) == EventsOf(init, depth) + [steps[i].ev];
    } else {
      rest := EmittedInPlace(init, i, depth);
      var last := StepEvents(steps[|init|], depth, HasSettle(init));
      assert init[..i] == steps[..i];
      AppendAssociates(EventsOf(steps[..i], depth) + [steps[i].ev], rest, last);
      rest := rest + last;
    }
  }

  /** And so does all that a child lets through, between its brackets. */
  lemma {:induction false} ChildInPlace(steps: seq<Step>, i: nat, depth: nat) returns (rest: seq<EngineEvent>)
    requires i < |steps| && steps[i].Delegate? && depth < 2
    ensures var child := steps[i].child;
            EventsOf(steps, depth) ==
              EventsOf(steps[..i], depth)
              + ([ChildStarted(steps[i].childRunId)] + (Forwarded(RunEvents(child, depth + 1))
                                                        + [ChildSettled(steps[i].childRunId, Verdict(child).cause)]))
              + rest
  {
    var init := steps[..|steps| - 1];
    if i == |init| {
      rest := [];
      assert EventsOf(steps, depth) ==
          EventsOf(init, depth) + Bracketed(steps[i].childRunId, steps[i].child, depth + 1) + [];
    } else {
      rest := ChildInPlace(init, i, depth);
      var last := StepEvents(steps[|init|], depth, HasSettle(init));
      assert init[..i] == steps[..i];
      AppendAssociates(EventsOf(steps[..i], depth) + Bracketed(steps[i].childRunId, steps[i].child, depth + 1), rest,
                       last);
      rest := rest + last;
    }
  }

  // ----- Exactly one terminal -----

  lemma {:induction false} ForwardedHasNoTerminal(evs: seq<EngineEvent>)
    ensures Terminals(Forwarded(evs)) == []
    ensures forall ev | ev in Forwarded(evs) :: !ev.Terminal?
  {
    if evs != [] {
      ForwardedHasNoTerminal(evs[..|evs| - 1]);
      var last := evs[|evs| - 1];
      TerminalsOfAppend(Forwarded(evs[..|evs| - 1]), if last.Terminal? then [] else [last]);
      TerminalsOfOne(last);
    }
  }

  lemma TerminalsOfOne(ev: EngineEvent)
    ensures Terminals([ev]) == EndingOf(ev)
  {
    assert [ev] == [] + [ev];
    OneMore([], ev);
  }

  lemma BracketedHasNoTerminal(id: string, child: Tree, depth: nat)
    ensures Terminals(Bracketed(id, child, depth)) == []
    ensures forall ev | ev in Bracketed(id, child, depth) :: !ev.Terminal?
  {
    var inner := Forwarded(RunEvents(child, depth));
    ForwardedHasNoTerminal(RunEvents(child, depth));
    TerminalsOfOne(ChildStarted(id));
    TerminalsOfOne(ChildSettled(id, Verdict(child).cause));
    TerminalsOfAppend(inner, [ChildSettled(id, Verdict(child).cause)]);
    TerminalsOfAppend([ChildStarted(id)], inner + [ChildSettled(id, Verdict(child).cause)]);
  }

  lemma StepTerminal(step: Step, depth: nat, settled: bool)
    requires StepFormed(step)
    ensures Terminals(StepEvents(step, depth, settled))
         == if step.Settle? && !settled then [Ending(step.cause, step.error)] else []
  {
    match step {
      case Emit(ev) => TerminalsOfOne(ev);
      case Settle(c, e) => TerminalsOfOne(Terminal(c, e));
      case Delegate(id, child) => BracketedHasNoTerminal(id, child, depth + 1);
    }
  }

  /** The harness's own settler decides the terminals; no child adds one. */
  lemma {:induction false} StepTerminals(steps: seq<Step>, depth: nat)
    requires StepsFormed(steps)
    ensures Terminals(EventsOf(steps, depth)) == if HasSettle(steps) then [FirstSettle(steps)] else []
  {
    if steps != [] {
      var init, last := steps[..|steps| - 1], steps[|steps| - 1];
      assert steps == init + [last];
      FirstSettleOfSnoc(init, last);
      StepTerminals(init, depth);
      StepTerminal(last, depth, HasSettle(init));
      TerminalsOfAppend(EventsOf(init, depth), StepEvents(last, depth, HasSettle(init)));
      assert Terminals(EventsOf(steps, depth)) == Terminals(EventsOf(init, depth)) +
          Terminals(StepEvents(last, depth, HasSettle(init)));
    }
  }

  lemma {:induction false} FirstSettleOfSnoc(init: seq<Step>, last: Step)
    ensures HasSettle(init + [last]) <==> HasSettle(init) || last.Settle?
    ensures HasSettle(init) ==> FirstSettle(init + [last]) == FirstSettle(init)
    ensures !HasSettle(init) && last.Settle? ==> FirstSettle(init + [last]) == Ending(last.cause, last.error)
  {
    if init == [] {
      assert init + [last] == [last];
    } else {
      assert (init + [last])[1..] == init[1..] + [last];
      FirstSettleOfSnoc(init[1..], last);
      assert init == [init[0]] + init[1..];
      assert init + [last] == [init[0]] + (init[1..] + [last]);
    }
  }

  /** Whatever the harness and its children do, the sink sees exactly one terminal, and it is the verdict. */
  lemma OneTerminal(tree: Tree, depth: nat)
    requires WellFormed(tree) && Starts(tree)
    ensures Terminals(RunEvents(tree, depth)) == [Verdict(tree)]
  {
    TerminalsOfOne(Terminal(Verdict(tree).cause, Verdict(tree).error));
    if tree.setup.Ready? {
      StepTerminals(tree.steps, depth);
      TerminalsOfAppend(EventsOf(tree.steps, depth), Closing(tree));
      assert Terminals([]) == [];
    } else {
      assert RunEvents(tree, depth) == [] + Closing(tree) == Closing(tree);
    }
  }

  /** The result of a run carries the cause and error of its one terminal. */
  lemma RunVerdict(tree: Tree, runId: string, depth: nat)
    requires WellFormed(tree) && Starts(tree)
    ensures var r := ResultOf(runId, RunEvents(tree, depth));
            r.cause == Verdict(tree).cause && r.error == Verdict(tree).error
  {
    OneTerminal(tree, depth);
  }

  // ----- How a run ends -----

  /** Why a run ends whose harness is not reached. */
  predicate Reason(setup: Setup, error: RunError) {
    match setup
    case NoWorkspace(message) => error == RunError("provision_failed", message)
    case NoHarness(message) => error == RunError("provision_failed", message)
    case TopologyRefused(code, message) => error == RunError(code, message)
    case UnknownCapability(message) => error == RunError("unknown_capability_ref", message)
    case Ready => false
  }

  lemma RefusalResult(runId: string, error: RunError)
    ensures ResultOf(runId, [Terminal(Failed, Some(error))]) == RunResult(runId, Failed, "", 0, 0, 0, Some(error))
  {
    OneMore([], Terminal(Failed, Some(error)));
    assert [] + [Terminal(Failed, Some(error))] == [Terminal(Failed, Some(error))];
  }

  /** A run refused for its topology or a capability has one event, a failure with the reason, and that result. */
  lemma RefusedRun(tree: Tree, runId: string, depth: nat)
    requires WellFormed(tree) && (tree.setup.TopologyRefused? || tree.setup.UnknownCapability?)
    ensures var code := if tree.setup.TopologyRefused? then tree.setup.code else "unknown_capability_ref";
            var error := RunError(code, tree.setup.message);
            && Reason(tree.setup, error)
            && RunEvents(tree, depth) == [Terminal(Failed, Some(error))]
            && ResultOf(runId, RunEvents(tree, depth)) == RunResult(runId, Failed, "", 0, 0, 0, Some(error))
  {
    assert RunEvents(tree, depth) == [] + Closing(tree) == Closing(tree);
    RefusalResult(runId, Verdict(tree).error.value);
  }

  lemma {:induction false} FirstSettleAt(steps: seq<Step>, k: nat)
    requires k < |steps| && steps[k].Settle? && forall j | 0 <= j < k :: !steps[j].Settle?
    ensures HasSettle(steps) && FirstSettle(steps) == Ending(steps[k].cause, steps[k].error)
  {
    assert steps[k] in steps;
    if k > 0 {
      FirstSettleAt(steps[1..], k - 1);
    }
  }

  /** A run whose harness settles ends with the cause and error of the first time it does. */
  lemma SettledRunEnds(tree: Tree, depth: nat, k: nat)
    requires WellFormed(tree) && tree.setup.Ready?
    requires k < |tree.steps| && tree.steps[k].Settle? && forall j | 0 <= j < k :: !tree.steps[j].Settle?
    ensures Terminals(RunEvents(tree, depth)) == [Ending(tree.steps[k].cause, tree.steps[k].error)]
  {
    FirstSettleAt(tree.steps, k);
    OneTerminal(tree, depth);
  }

  /** One that does not ends as a failure if the harness throws, and as cancelled exactly if it was aborted. */
  lemma UnsettledRunEnds(tree: Tree, depth: nat)
    requires WellFormed(tree) && tree.setup.Ready? && forall s | s in tree.steps :: !s.Settle?
    ensures Terminals(RunEvents(tree, depth)) ==
              if tree.exit.Throws? then [Ending(Failed, Some(RunError("harness_threw", tree.exit.message)))]
              else if tree.aborted then [Ending(Cancelled, None)]
              else [Ending(Done, None)]
  {
    OneTerminal(tree, depth);
  }
}
