/**
 One user message end to end (src/kernel/index.ts, src/kernel/admission.ts): admission, the run's log lines,
 the entry run, and what the browser makes of the whole wire.
 */
module KernelModel {
  import opened Text
  import opened Events
  import opened SettlementModel
  import opened Translator
  import opened Delegation
  import opened Previews

  // ----- Admission -----

  class Admission {
    var active: set<string>

    constructor ()
      ensures active == {}
    {
      active := {};
    }

    method Admit(sessionId: string) returns (ok: bool)
      modifies this
      ensures ok == (sessionId !in old(active))
      ensures active == old(active) + {sessionId}
    {
      if sessionId in active {
        return false;
      }
      active := active + {sessionId};
      return true;
    }

    method Release(sessionId: string)
      modifies this
      ensures active == old(active) - {sessionId}
    {
      active := active - {sessionId};
    }
  }

  /** Messages arrive, and the runs they start end, in any order; a run is known by the place of its message. */
  datatype Action = Post(sessionId: string) | End(run: nat)

  /** The lock, the session of each run that was admitted and has not ended, and which messages were admitted. */
  datatype Traffic = Traffic(active: set<string>, running: map<nat, string>, admitted: seq<bool>)

  const QUIET := Traffic({}, map[], [])

  function Next(s: Traffic, a: Action): Traffic {
    match a
    case Post(sessionId) =>
      if sessionId in s.active then s.(admitted := s.admitted + [false])
      else Traffic(s.active + {sessionId}, s.running[|s.admitted| := sessionId], s.admitted + [true])
    case End(run) =>
      if run in s.running then Traffic(s.active - {s.running[run]}, s.running - {run}, s.admitted) else s
  }

  function AfterActions(actions: seq<Action>): Traffic {
    if actions == [] then QUIET else Next(AfterActions(actions[..|actions| - 1]), actions[|actions| - 1])
  }

  /** The lock object, driven through any traffic, admits and refuses as the traffic says. */
  method Admitting(actions: seq<Action>) returns (admission: Admission, admitted: seq<bool>)
    ensures admission.active == AfterActions(actions).active
    ensures admitted == AfterActions(actions).admitted
  {
    admission := new Admission();
    admitted := [];
    var s := QUIET;
    for i := 0 to |actions|
      invariant fresh(admission) && s == AfterActions(actions[..i]) && admission.active == s.active
      invariant admitted == s.admitted
    {
      assert actions[..i + 1][..i] == actions[..i];
      match actions[i] {
        case Post(sessionId) =>
          var ok := admission.Admit(sessionId);
          assert !ok ==> s.active + {sessionId} == s.active;
          admitted := admitted + [ok];
        case End(run) =>
          if run in s.running {
            admission.Release(s.running[run]);
          }
      }
      s := Next(s, actions[i]);
    }
    assert actions[..|actions|] == actions;
  }

  ghost predicate Busy(s: Traffic, id: string) {
    exists r :: r in s.running && s.running[r] == id
  }

  /** No two runs of one session are on, and a session is locked exactly while one of its runs is. */
  ghost predicate Exclusive(s: Traffic) {
    && (forall r, q | r in s.running && q in s.running && s.running[r] == s.running[q] :: r == q)
    && (forall id :: id in s.active <==> Busy(s, id))
    && (forall r | r in s.running :: r < |s.admitted| && s.admitted[r])
  }

  lemma BusyStep(s: Traffic, a: Action, id: string)
    requires Exclusive(s)
    ensures id in Next(s, a).active <==> Busy(Next(s, a), id)
  {
    var n := Next(s, a);
    assert id in s.active <==> Busy(s, id);
    assert |s.admitted| !in s.running;
    if a.Post? && a.sessionId !in s.active {
      assert n.running[|s.admitted|] == a.sessionId;
    }
    if r :| r in s.running && s.running[r] == id {
      assert r in n.running ==> n.running[r] == id;
    }
    if r :| r in n.running && n.running[r] == id {
      assert r in s.running ==> s.running[r] == id;
    }
  }

  lemma ExclusiveStep(s: Traffic, a: Action)
    requires Exclusive(s)
    ensures Exclusive(Next(s, a))
  {
    forall id
      ensures id in Next(s, a).active <==> Busy(Next(s, a), id)
    {
      BusyStep(s, a, id);
    }
    if a.Post? {
      assert a.sessionId in s.active <==> Busy(s, a.sessionId);
    }
  }

  /** In every traffic, two admitted runs of one session never overlap. */
  lemma {:induction false} NoOverlap(actions: seq<Action>)
    ensures Exclusive(AfterActions(actions))
  {
    if actions != [] {
      NoOverlap(actions[..|actions| - 1]);
      ExclusiveStep(AfterActions(actions[..|actions| - 1]), actions[|actions| - 1]);
    }
  }

  /** A message is admitted exactly when no admitted run of its session is still on, and then its run is on. */
  lemma AdmittedExactly(actions: seq<Action>, sessionId: string)
    ensures var s := AfterActions(actions);
            var n := Next(s, Post(sessionId));
            && n.admitted == s.admitted + [!Busy(s, sessionId)] && Busy(n, sessionId)
            && (!Busy(s, sessionId) ==> |s.admitted| in n.running && n.running[|s.admitted|] == sessionId)
  {
    NoOverlap(actions);
    var s := AfterActions(actions);
    assert sessionId in s.active <==> Busy(s, sessionId);
    ExclusiveStep(s, Post(sessionId));
    assert Busy(Next(s, Post(sessionId)), sessionId) <==> sessionId in Next(s, Post(sessionId)).active;
  }

  /** When a run ends its session is free, and no other changes. */
  lemma EndFrees(actions: seq<Action>, run: nat, id: string)
    requires run in AfterActions(actions).running
    ensures var s := AfterActions(actions);
            Busy(Next(s, End(run)), id) <==> Busy(s, id) && id != s.running[run]
  {
    NoOverlap(actions);
    var s := AfterActions(actions);
    ExclusiveStep(s, End(run));
    assert Busy(Next(s, End(run)), id) <==> id in Next(s, End(run)).active;
    assert Busy(s, id) <==> id in s.active;
  }

  // ----- The entry run -----

  const ALREADY_ACTIVE := RunError("run_already_active", "Run already active for session.")

  function KernelLog(level: string, message: string): EngineEvent {
    Log("kernel", level, message)
  }

  /** What the sink sees before the run proper: `envLogs` are the lines written while provisioning. */
  function Front(tree: Tree, envLogs: seq<EngineEvent>): seq<EngineEvent> {
    [KernelLog("info", "run started")] + envLogs
    + (if tree.setup.NoWorkspace? then [] else [KernelLog("info", "workspace ready")])
    + if Starts(tree) then [] else [KernelLog("error", "run failed during provisioning")]
  }

  /** The run proper; one that cannot start is owed its terminal all the same. */
  function Core(tree: Tree): seq<EngineEvent> {
    if Starts(tree) then RunEvents(tree, 0) else [Terminal(Verdict(tree).cause, Verdict(tree).error)]
  }

  function Back(tree: Tree): seq<EngineEvent> {
    if Starts(tree) then [KernelLog(if Verdict(tree).cause == Failed then "error" else "info", "run settled")] else []
  }

  function EntryWire(tree: Tree, envLogs: seq<EngineEvent>): seq<EngineEvent> {
    Front(tree, envLogs) + Core(tree) + Back(tree)
  }

  method RunMessage(admission: Admission, previews: PreviewRegistry, sessionId: string, runId: string, tree: Tree,
                    envLogs: seq<EngineEvent>) returns (wire: seq<EngineEvent>, result: RunResult)
    requires WellFormed(tree)
    requires forall ev | ev in envLogs :: ev.Log?
    modifies admission, previews
    ensures admission.active == old(admission.active)
    ensures EntryOf(previews.bySession, sessionId) == NotedAll(EntryOf(old(previews.bySession), sessionId), wire)
    ensures OnlyUnder(sessionId, old(previews.bySession), previews.bySession)
    ensures sessionId in old(admission.active) ==>
              wire == [Terminal(Failed, Some(RunError("run_already_active", "Run already active for session.")))]
    ensures sessionId !in old(admission.active) ==> wire == EntryWire(tree, envLogs)
    ensures result == ResultOf(runId, wire)
    ensures sessionId in old(admission.active) || !tree.setup.Ready? ==> result.cause == Failed && result.error.Some?
    ensures sessionId !in old(admission.active) && !tree.setup.Ready? ==> Reason(tree.setup, result.error.value)
  {
    var ok := admission.Admit(sessionId);
    if !ok {
      wire := [Terminal(Failed, Some(ALREADY_ACTIVE))];
      result := RunResult(runId, Failed, "", 0, 0, 0, Some(ALREADY_ACTIVE));
      RefusalResult(runId, ALREADY_ACTIVE);
      assert old(admission.active) + {sessionId} == old(admission.active);
      assert wire[..0] == [];
      return;
    }
    wire, result := RunAdmitted(runId, tree, envLogs, sessionId, previews);
    admission.Release(sessionId);
    if !tree.setup.Ready? {
      UnreachedFails(tree, envLogs, runId);
    }
  }

  lemma {:induction false} LogsNoteNothing(entry: Option<PreviewState>, logs: seq<EngineEvent>)
    requires AllLogs(logs)
    ensures NotedAll(entry, logs) == entry
  {
    if logs != [] {
      LogsNoteNothing(entry, logs[..|logs| - 1]);
    }
  }

  /** The log lines and the terminal of a message do not touch the preview: its run does. */
  lemma EntryPreview(entry: Option<PreviewState>, tree: Tree, envLogs: seq<EngineEvent>)
    requires forall ev | ev in envLogs :: ev.Log?
    ensures NotedAll(entry, EntryWire(tree, envLogs)) == NotedAll(entry, RunEvents(tree, 0))
  {
    FrontIsLogs(tree, envLogs);
    LogsNoteNothing(entry, Front(tree, envLogs));
    NotedOfAppend(entry, Front(tree, envLogs), Core(tree));
    NotedOfAppend(entry, Front(tree, envLogs) + Core(tree), Back(tree));
    LogsNoteNothing(NotedAll(entry, Core(tree)), Back(tree));
    if !Starts(tree) {
      assert Core(tree)[..0] == [];
    }
  }

  /** The body of an admitted message, up to the release of the session. */
  method RunAdmitted(runId: string, tree: Tree, envLogs: seq<EngineEvent>, sessionId: string,
                     previews: PreviewRegistry) returns (wire: seq<EngineEvent>, result: RunResult)
    requires WellFormed(tree)
    requires forall ev | ev in envLogs :: ev.Log?
    modifies previews
    ensures wire == EntryWire(tree, envLogs)
    ensures result == ResultOf(runId, wire)
    ensures EntryOf(previews.bySession, sessionId) == NotedAll(EntryOf(old(previews.bySession), sessionId), wire)
    ensures OnlyUnder(sessionId, old(previews.bySession), previews.bySession)
  {
    wire := [KernelLog("info", "run started")] + envLogs;
    if !tree.setup.NoWorkspace? {
      wire := wire + [KernelLog("info", "workspace ready")];
    }
    var events, outcome := Run(tree, runId, 0, sessionId, previews);
    if outcome.Some? {
      result := outcome.value;
      RunVerdict(tree, runId, 0);
      assert wire == Front(tree, envLogs);
      wire := wire + events + [KernelLog(if result.cause == Failed then "error" else "info", "run settled")];
    } else {
      var error := RunError("provision_failed", tree.setup.message);
      wire := wire + [KernelLog("error", "run failed during provisioning")];
      assert wire == Front(tree, envLogs);
      wire := wire + [Terminal(Failed, Some(error))];
      result := RunResult(runId, Failed, "", 0, 0, 0, Some(error));
      assert wire == wire + Back(tree);
    }
    EntryResult(tree, envLogs, runId);
    EntryPreview(EntryOf(old(previews.bySession), sessionId), tree, envLogs);
  }

  // ----- Log lines do not count -----

  /** Everything settlement reads off a stream, folded event by event. */
  datatype Sums = Sums(input: int, output: int, final: string, chunks: string, endings: seq<Ending>)

  function Add(s: Sums, ev: EngineEvent): Sums {
    match ev
    case UsageDelta(i, o) => s.(input := s.input + i, output := s.output + o)
    case FinalText(text) => s.(final := text)
    case StreamChunk(text) => s.(chunks := s.chunks + text)
    case Terminal(cause, error) => s.(endings := s.endings + [Ending(cause, error)])
    case _ => s
  }

  function Fold(evs: seq<EngineEvent>): Sums {
    if evs == [] then Sums(0, 0, "", "", []) else Add(Fold(evs[..|evs| - 1]), evs[|evs| - 1])
  }

  lemma {:induction false} FoldIsSums(evs: seq<EngineEvent>)
    ensures Fold(evs) == Sums(TotalIn(evs), TotalOut(evs), LastFinal(evs), Chunks(evs), Terminals(evs))
  {
    if evs != [] {
      var init, last := evs[..|evs| - 1], evs[|evs| - 1];
      FoldIsSums(init);
      OneMore(init, last);
      assert evs == init + [last];
    }
  }

  lemma FoldOneMore(evs: seq<EngineEvent>, ev: EngineEvent)
    ensures Fold(evs + [ev]) == Add(Fold(evs), ev)
  {
    assert (evs + [ev])[..|evs|] == evs;
  }

  lemma LastApart(a: seq<EngineEvent>, evs: seq<EngineEvent>)
    requires evs != []
    ensures a + evs == a + evs[..|evs| - 1] + [evs[|evs| - 1]]
  {
  }

  predicate AllLogs(evs: seq<EngineEvent>) {
    forall i | 0 <= i < |evs| :: evs[i].Log?
  }

  lemma LogAddsNothing(s: Sums, ev: EngineEvent)
    requires ev.Log?
    ensures Add(s, ev) == s
  {
  }

  lemma {:induction false} LogsDoNotCount(before: seq<EngineEvent>, logs: seq<EngineEvent>)
    requires AllLogs(logs)
    ensures Fold(before + logs) == Fold(before)
  {
    if logs == [] {
      assert before + logs == before;
    } else {
      var init, last := logs[..|logs| - 1], logs[|logs| - 1];
      LogsDoNotCount(before, init);
      LogAddsNothing(Fold(before), last);
      FoldOneMore(before + init, last);
      LastApart(before, logs);
    }
  }

  lemma {:induction false} SameThen(a: seq<EngineEvent>, b: seq<EngineEvent>, evs: seq<EngineEvent>)
    requires Fold(a) == Fold(b)
    ensures Fold(a + evs) == Fold(b + evs)
  {
    if evs == [] {
      assert a + evs == a && b + evs == b;
    } else {
      var init, last := evs[..|evs| - 1], evs[|evs| - 1];
      SameThen(a, b, init);
      FoldOneMore(a + init, last);
      FoldOneMore(b + init, last);
      LastApart(a, evs);
      LastApart(b, evs);
    }
  }

  lemma LogsAround(front: seq<EngineEvent>, core: seq<EngineEvent>, back: seq<EngineEvent>)
    requires AllLogs(front) && AllLogs(back)
    ensures Fold(front + core + back) == Fold(core)
  {
    LogsDoNotCount([], front);
    assert [] + front == front && [] + core == core;
    SameThen(front, [], core);
    LogsDoNotCount(front + core, back);
  }

  lemma FrontIsLogs(tree: Tree, envLogs: seq<EngineEvent>)
    requires forall ev | ev in envLogs :: ev.Log?
    ensures AllLogs(Front(tree, envLogs))
  {
    assert AllLogs(envLogs);
  }

  lemma EntryIsCore(tree: Tree, envLogs: seq<EngineEvent>)
    requires forall ev | ev in envLogs :: ev.Log?
    ensures Fold(EntryWire(tree, envLogs)) == Fold(Core(tree))
  {
    FrontIsLogs(tree, envLogs);
    LogsAround(Front(tree, envLogs), Core(tree), Back(tree));
  }

  /** The result of an admitted message is the fold of what its sink saw, also when provisioning failed. */
  lemma EntryResult(tree: Tree, envLogs: seq<EngineEvent>, runId: string)
    requires WellFormed(tree)
    requires forall ev | ev in envLogs :: ev.Log?
    ensures ResultOf(runId, EntryWire(tree, envLogs)) == ResultOf(runId, Core(tree))
    ensures !Starts(tree) ==>
              ResultOf(runId, Core(tree))
              == RunResult(runId, Failed, "", 0, 0, 0, Some(RunError("provision_failed", tree.setup.message)))
    ensures Terminals(EntryWire(tree, envLogs)) == [Verdict(tree)]
  {
    EntryIsCore(tree, envLogs);
    FoldIsSums(EntryWire(tree, envLogs));
    FoldIsSums(Core(tree));
    if Starts(tree) {
      OneTerminal(tree, 0);
    } else {
      RefusalResult(runId, Verdict(tree).error.value);
      TerminalsOfOne(Terminal(Verdict(tree).cause, Verdict(tree).error));
    }
  }

  /** No run whose harness is not reached ends other than as a failure, for the reason it was not. */
  lemma UnreachedFails(tree: Tree, envLogs: seq<EngineEvent>, runId: string)
    requires WellFormed(tree) && !tree.setup.Ready?
    requires forall ev | ev in envLogs :: ev.Log?
    ensures var r := ResultOf(runId, EntryWire(tree, envLogs));
            && r.cause == Failed && r.finalText == "" && r.inputTokens == r.outputTokens == r.costMicros == 0
            && r.error.Some? && Reason(tree.setup, r.error.value)
            && Terminals(EntryWire(tree, envLogs)) == [Ending(Failed, r.error)]
  {
    EntryResult(tree, envLogs, runId);
    if Starts(tree) {
      RefusedRun(tree, runId, 0);
    }
  }

  /** The wire of a message that starts: the last line is an error exactly if the result is. */
  lemma StartedLines(tree: Tree, envLogs: seq<EngineEvent>, runId: string)
    requires WellFormed(tree) && Starts(tree)
    requires forall ev | ev in envLogs :: ev.Log?
    ensures var wire := EntryWire(tree, envLogs);
            var level := if ResultOf(runId, wire).cause == Failed then "error" else "info";
            wire == [Log("kernel", "info", "run started")] + envLogs + [Log("kernel", "info", "workspace ready")]
                    + RunEvents(tree, 0) + [Log("kernel", level, "run settled")]
  {
    EntryResult(tree, envLogs, runId);
    RunVerdict(tree, runId, 0);
    var front := [KernelLog("info", "run started")] + envLogs + [KernelLog("info", "workspace ready")];
    assert Front(tree, envLogs) == front + [] == front;
  }

  /** The wire of one that does not: a terminal follows the line that says so. */
  lemma UnstartedLines(tree: Tree, envLogs: seq<EngineEvent>)
    requires !Starts(tree)
    ensures var ready := if tree.setup.NoWorkspace? then [] else [Log("kernel", "info", "workspace ready")];
            EntryWire(tree, envLogs) ==
              [Log("kernel", "info", "run started")] + envLogs + ready
              + [Log("kernel", "error", "run failed during provisioning")]
              + [Terminal(Failed, Some(RunError("provision_failed", tree.setup.message)))]
  {
    var wire := Front(tree, envLogs) + Core(tree);
    assert EntryWire(tree, envLogs) == wire + [] == wire;
  }

  // ----- What the browser completes with -----

  /** The frames that complete a run in the browser. */
  function Completions(frames: seq<IslandFrame>): seq<IslandFrame> {
    if frames == [] then []
    else
      Completions(frames[..|frames| - 1])
      + if frames[|frames| - 1].Complete? || frames[|frames| - 1].ErrorFrame? then [frames[|frames| - 1]] else []
  }

  lemma {:induction false} CompletionsOfAppend(a: seq<IslandFrame>, b: seq<IslandFrame>)
    ensures Completions(a + b) == Completions(a) + Completions(b)
  {
    if b == [] {
      assert a + b == a;
    } else {
      var init, last := b[..|b| - 1], b[|b| - 1];
      assert (a + b)[..|a + b| - 1] == a + init;
      CompletionsOfAppend(a, init);
      AppendAssociates(Completions(a), Completions(init), if last.Complete? || last.ErrorFrame? then [last] else []);
    }
  }

  lemma CompletionsOfOne(f: IslandFrame)
    ensures Completions([f]) == if f.Complete? || f.ErrorFrame? then [f] else []
  {
    assert [f][..0] == [];
  }

  function SettleFrames(endings: seq<Ending>): seq<IslandFrame> {
    if endings == [] then []
    else
      var last := endings[|endings| - 1];
      SettleFrames(endings[..|endings| - 1]) + [SettleFrame(last.cause, last.error)]
  }

  lemma SettleFramesOfSnoc(endings: seq<Ending>, ev: EngineEvent)
    ensures SettleFrames(endings + EndingOf(ev))
         == SettleFrames(endings) + match ev case Terminal(c, e) => [SettleFrame(c, e)] case _ => []
  {
    if ev.Terminal? {
      assert (endings + EndingOf(ev))[..|endings|] == endings;
    } else {
      assert endings + EndingOf(ev) == endings;
    }
  }

  lemma EventCompletions(t: TState, ev: EngineEvent)
    ensures Completions(FramesFor(t, ev)) == match ev case Terminal(c, e) => [SettleFrame(c, e)] case _ => []
  {
    if FramesFor(t, ev) != [] {
      CompletionsOfOne(FramesFor(t, ev)[0]);
    }
  }

  lemma JoinCompletions(a: seq<IslandFrame>, b: seq<IslandFrame>, endings: seq<Ending>, ev: EngineEvent)
    requires Completions(a) == SettleFrames(endings)
    requires Completions(b) == match ev case Terminal(c, e) => [SettleFrame(c, e)] case _ => []
    ensures Completions(a + b) == SettleFrames(endings + EndingOf(ev))
  {
    CompletionsOfAppend(a, b);
    SettleFramesOfSnoc(endings, ev);
  }

  /** Each terminal of a stream completes the run once, and nothing else does. */
  lemma {:induction false} StreamCompletions(evs: seq<EngineEvent>)
    ensures Completions(AllFrames(INITIAL, evs)) == SettleFrames(Terminals(evs))
  {
    if evs != [] {
      var init, last := evs[..|evs| - 1], evs[|evs| - 1];
      StreamCompletions(init);
      EventCompletions(AfterAll(INITIAL, init), last);
      JoinCompletions(AllFrames(INITIAL, init), FramesFor(AfterAll(INITIAL, init), last), Terminals(init), last);
    }
  }

  lemma {:induction false} TerminalSeen(evs: seq<EngineEvent>)
    ensures AfterAll(INITIAL, evs).terminalSeen == (Terminals(evs) != [])
  {
    if evs != [] {
      TerminalSeen(evs[..|evs| - 1]);
    }
  }

  /**
   For every message, admitted or refused: the sink sees exactly one terminal, the result carries its cause
   and error, and the browser, fed the wire and the closing `settled` frame, completes exactly once, with it.
   */
  lemma ExactlyOneCompletion(wire: seq<EngineEvent>, runId: string, verdict: Ending)
    requires Terminals(wire) == [verdict]
    ensures var r := ResultOf(runId, wire);
            var t := AfterAll(INITIAL, wire);
            && r.cause == verdict.cause && r.error == verdict.error
            && Completions(AllFrames(INITIAL, wire) + WireFrames(t, Settled(r))) ==
                [SettleFrame(verdict.cause, verdict.error)]
  {
    var r := ResultOf(runId, wire);
    var t := AfterAll(INITIAL, wire);
    StreamCompletions(wire);
    TerminalSeen(wire);
    assert [verdict][..0] == [];
    var last := Usage(r.inputTokens, r.outputTokens, Some(r.costMicros));
    assert WireFrames(t, Settled(r)) == [last];
    CompletionsOfAppend(AllFrames(INITIAL, wire), [last]);
    CompletionsOfOne(last);
  }

  /** The same, for the wire of an admitted message. */
  lemma EntryCompletes(tree: Tree, envLogs: seq<EngineEvent>, runId: string)
    requires WellFormed(tree)
    requires forall ev | ev in envLogs :: ev.Log?
    ensures var wire := EntryWire(tree, envLogs);
            var r := ResultOf(runId, wire);
            && Terminals(wire) == [Ending(r.cause, r.error)]
            && Completions(AllFrames(INITIAL, wire) + WireFrames(AfterAll(INITIAL, wire), Settled(r))) ==
                [SettleFrame(r.cause, r.error)]
  {
    EntryResult(tree, envLogs, runId);
    ExactlyOneCompletion(EntryWire(tree, envLogs), runId, Verdict(tree));
  }

  /** The one frame that completes a wire with one terminal says how the result ended. */
  lemma CompletionReports(wire: seq<EngineEvent>, runId: string)
    requires |Terminals(wire)| == 1
    ensures var r := ResultOf(runId, wire);
            var done := Completions(AllFrames(INITIAL, wire) + WireFrames(AfterAll(INITIAL, wire), Settled(r)));
            |done| == 1 && Reports(done[0], r.cause, r.error)
  {
    var verdict := Terminals(wire)[0];
    assert Terminals(wire) == [verdict];
    ExactlyOneCompletion(wire, runId, verdict);
    EndingIsReported(INITIAL, verdict.cause, verdict.error, ResultOf(runId, wire));
  }

  /** So does `settled` for a wire whose terminal was lost: the browser completes all the same. */
  lemma BackstopReports(wire: seq<EngineEvent>, r: RunResult)
    requires Terminals(wire) == []
    ensures var done := Completions(AllFrames(INITIAL, wire) + WireFrames(AfterAll(INITIAL, wire), Settled(r)));
            |done| == 1 && Reports(done[0], r.cause, r.error)
  {
    var t := AfterAll(INITIAL, wire);
    TerminalSeen(wire);
    StreamCompletions(wire);
    EndingIsReported(t, r.cause, r.error, r);
    var usage, last := WireFrames(t, Settled(r))[0], WireFrames(t, Settled(r))[1];
    assert WireFrames(t, Settled(r)) == [usage] + [last];
    CompletionsOfAppend(AllFrames(INITIAL, wire), [usage] + [last]);
    CompletionsOfAppend([usage], [last]);
    CompletionsOfOne(usage);
    CompletionsOfOne(last);
  }

  /** Every admitted message completes in the browser once, as its result ended. */
  lemma EntryReports(tree: Tree, envLogs: seq<EngineEvent>, runId: string)
    requires WellFormed(tree)
    requires forall ev | ev in envLogs :: ev.Log?
    ensures var wire := EntryWire(tree, envLogs);
            var r := ResultOf(runId, wire);
            var done := Completions(AllFrames(INITIAL, wire) + WireFrames(AfterAll(INITIAL, wire), Settled(r)));
            |done| == 1 && Reports(done[0], r.cause, r.error)
  {
    EntryResult(tree, envLogs, runId);
    CompletionReports(EntryWire(tree, envLogs), runId);
  }
}
