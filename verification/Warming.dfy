/**
 What the warm pool promises over whole runs: how many handles it warms, and that a session only ever adopts a
 handle made for its own identity (src/kernel/prewarmPool.ts, src/kernel/session.ts).
 */
module Warming {
  import opened Text
  import opened Identity
  import opened Pool
  import opened Sessions
  import opened Lifecycle
  import opened Handles

  // ----- The in-flight counters and the bound -----

  predicate CountsAgree(w: World, key: string) {
    InflightOf(w.pool, key) == |JobsOf(w, key)|
  }

  /** `destroyAll` forgets the counters while provisions of `key` still run. */
  predicate Forgets(w: World, a: Action, key: string) {
    a.DestroyAll? && JobsOf(w, key) != []
  }

  /** Warm or about to be. */
  function Committed(w: World, key: string): nat {
    |ReadyOf(w.pool, key)| + |JobsOf(w, key)|
  }

  lemma ClaimShrinks(p: PoolState, key: string, k: string)
    ensures |ReadyOf(Claimed(p, key), k)| <= |ReadyOf(p, k)| && InflightOf(Claimed(p, key), k) == InflightOf(p, k)
  {
    if ReadyOf(p, key) != [] {
      UnlistMoves(p, key, 0, k);
    }
  }

  lemma EvictShrinks(p: PoolState, key: string, h: Handle, k: string)
    ensures |ReadyOf(Evicted(p, key, h), k)| <= |ReadyOf(p, k)| && InflightOf(Evicted(p, key, h), k) == InflightOf(p, k)
  {
    var i := Position(ReadyOf(p, key), h);
    if i >= 0 {
      UnlistMoves(p, key, i, k);
    }
  }

  lemma EnsureCounts(kf: KeyOf, w: World, a: Action, key: string)
    requires CountsAgree(w, key) && a.Ensure?
    ensures CountsAgree(Step(kf, w, a), key)
    ensures Committed(Step(kf, w, a), key) <= Committed(w, key)
            || (kf(a.id) == key && Committed(Step(kf, w, a), key) <= a.target)
  {
  }

  lemma JobCounts(kf: KeyOf, w: World, a: Action, key: string)
    requires CountsAgree(w, key) && a.JobEnds? && Enabled(w, a)
    ensures CountsAgree(Step(kf, w, a), key) && Committed(Step(kf, w, a), key) <= Committed(w, key)
  {
    var n := Step(kf, w, a);
    if a.key == key {
      assert |JobsOf(n, key)| == |JobsOf(w, key)| - 1;
    } else {
      assert JobsOf(n, key) == JobsOf(w, key) && ReadyOf(n.pool, key) == ReadyOf(w.pool, key);
    }
  }

  /**
   A stretch of code keeps the in-flight counter of a key equal to its unfinished provisions exactly when it is
   not a `destroyAll` during one of them, and only an `ensure` on the key commits to more handles.
   */
  lemma CountsStep(kf: KeyOf, w: World, a: Action, key: string)
    requires CountsAgree(w, key)
    ensures CountsAgree(Step(kf, w, a), key) <==> !Forgets(w, a, key)
    ensures Committed(Step(kf, w, a), key) <= Committed(w, key)
            || (a.Ensure? && kf(a.id) == key && Committed(Step(kf, w, a), key) <= a.target)
  {
    if Enabled(w, a) {
      match a
      case Ensure(_, _, _) => EnsureCounts(kf, w, a, key);
      case JobEnds(_, _, _) => JobCounts(kf, w, a, key);
      case TimerFires(h) => EvictShrinks(w.pool, w.pool.timers[h], h, key);
      case DestroyAll =>
      case Start(call, cfg) => ClaimShrinks(w.pool, kf(IdentityOf(cfg)), key);
      case OldDestroyed(call) => ClaimShrinks(w.pool, kf(IdentityOf(w.calls[call].cfg)), key);
      case Provisioned(_, _) =>
      case EndSession(_, _) =>
    }
  }

  /** With `actions` behind it, no `destroyAll` of `after` catches a provision of `key` under way. */
  predicate Remembers(kf: KeyOf, actions: seq<Action>, after: seq<Action>, key: string) {
    after == [] ||
    (var before := after[..|after| - 1];
     && Remembers(kf, actions, before, key)
     && !Forgets(Run(kf, actions + before), after[|after| - 1], key))
  }

  /** No `ensure` of the run asks for more than `most` handles under `key`. */
  predicate AsksAtMost(kf: KeyOf, actions: seq<Action>, key: string, most: nat) {
    forall a | a in actions && a.Ensure? && kf(a.id) == key :: a.target <= most
  }

  /** Where the counter is exact and no more than `most` are warm or on the way, it stays so. */
  lemma {:induction false} BoundStays(kf: KeyOf, actions: seq<Action>, after: seq<Action>, key: string, most: nat)
    requires CountsAgree(Run(kf, actions), key) && Committed(Run(kf, actions), key) <= most
    requires Remembers(kf, actions, after, key) && AsksAtMost(kf, after, key, most)
    ensures CountsAgree(Run(kf, actions + after), key) && Committed(Run(kf, actions + after), key) <= most
  {
    if after == [] {
      assert actions + after == actions;
    } else {
      var before, last := after[..|after| - 1], after[|after| - 1];
      BoundStays(kf, actions, before, key, most);
      assert last in after;
      assert actions + after == actions + before + [last];
      RunSnoc(kf, actions + before, last);
      CountsStep(kf, Run(kf, actions + before), last, key);
    }
  }

  /** A key's counter is exact, and the pool never holds or warms more handles than were asked for at once. */
  lemma PoolBound(kf: KeyOf, actions: seq<Action>, key: string, most: nat)
    requires Remembers(kf, [], actions, key) && AsksAtMost(kf, actions, key, most)
    ensures var w := Run(kf, actions);
            && InflightOf(w.pool, key) == |JobsOf(w, key)|
            && |ReadyOf(w.pool, key)| + InflightOf(w.pool, key) <= most
  {
    BoundStays(kf, [], actions, key, most);
    assert [] + actions == actions;
  }

  // ----- Where the bound fails -----

  lemma NeverOverStep(kf: KeyOf, w: World, a: Action, key: string)
    requires InflightOf(w.pool, key) <= |JobsOf(w, key)|
    ensures InflightOf(Step(kf, w, a).pool, key) <= |JobsOf(Step(kf, w, a), key)|
  {
    if Enabled(w, a) {
      match a
      case Ensure(_, _, _) =>
      case JobEnds(k, _, _) =>
        assert k != key ==> JobsOf(Step(kf, w, a), key) == JobsOf(w, key);
      case TimerFires(h) => EvictShrinks(w.pool, w.pool.timers[h], h, key);
      case DestroyAll =>
      case Start(call, cfg) => ClaimShrinks(w.pool, kf(IdentityOf(cfg)), key);
      case OldDestroyed(call) => ClaimShrinks(w.pool, kf(IdentityOf(w.calls[call].cfg)), key);
      case Provisioned(_, _) =>
      case EndSession(_, _) =>
    }
  }

  /** In every run, with forgetting `destroyAll`s or without, the counter is never over the provisions under way. */
  lemma {:induction false} NeverOver(kf: KeyOf, actions: seq<Action>, key: string)
    ensures InflightOf(Run(kf, actions).pool, key) <= |JobsOf(Run(kf, actions), key)|
  {
    if actions != [] {
      var before, last := actions[..|actions| - 1], actions[|actions| - 1];
      NeverOver(kf, before, key);
      NeverOverStep(kf, Run(kf, before), last, key);
    }
  }

  lemma {:induction false} FreshHandle(used: set<Handle>) returns (h: Handle)
    ensures forall u | u in used :: u < h
    decreases |used|
  {
    h := 0;
    if used != {} {
      var u :| u in used;
      var above := FreshHandle(used - {u});
      h := if u < above then above else u + 1;
      assert forall v | v in used :: v == u || v in used - {u};
    }
  }

  lemma OneLands(kf: KeyOf, w: World, key: string, h: Handle)
    requires JobsOf(w, key) != [] && h !in w.made
    ensures var n := Step(kf, w, JobEnds(key, 0, Some(h)));
            && |JobsOf(n, key)| == |JobsOf(w, key)| - 1
            && |ReadyOf(n.pool, key)| == |ReadyOf(w.pool, key)| + 1
  {
  }

  /** Every provision of a key under way can still end with a handle. */
  lemma {:induction false} AllLand(kf: KeyOf, actions: seq<Action>, key: string) returns (ends: seq<Action>)
    ensures forall a | a in ends :: a.JobEnds?
    ensures |ReadyOf(Run(kf, actions + ends).pool, key)| == Committed(Run(kf, actions), key)
    decreases |JobsOf(Run(kf, actions), key)|
  {
    var w := Run(kf, actions);
    ends := [];
    if JobsOf(w, key) == [] {
      assert actions + ends == actions;
    } else {
      var h := FreshHandle(w.made.Keys);
      var end := JobEnds(key, 0, Some(h));
      OneLands(kf, w, key, h);
      RunSnoc(kf, actions, end);
      var rest := AllLand(kf, actions + [end], key);
      ends := [end] + rest;
      AppendAssociates(actions, [end], rest);
    }
  }

  lemma {:induction false} NothingForgotten(kf: KeyOf, actions: seq<Action>, after: seq<Action>, key: string)
    requires DestroyAll !in after
    ensures Remembers(kf, actions, after, key)
  {
    if after != [] {
      assert after[|after| - 1] in after;
      NothingForgotten(kf, actions, after[..|after| - 1], key);
    }
  }

  /**
   Where the counter falls short, or too many are warm or on the way already, the run can go on to more warm handles
   than `most` though nothing asks for more and nothing is forgotten any more.
   */
  lemma Overshoots(kf: KeyOf, actions: seq<Action>, key: string, most: nat) returns (after: seq<Action>)
    requires !CountsAgree(Run(kf, actions), key) || Committed(Run(kf, actions), key) > most
    ensures Remembers(kf, actions, after, key) && AsksAtMost(kf, after, key, most)
    ensures |ReadyOf(Run(kf, actions + after).pool, key)| > most
  {
    var w := Run(kf, actions);
    if Committed(w, key) > most {
      after := AllLand(kf, actions, key);
    } else {
      NeverOver(kf, actions, key);
      var id := AskAgain(kf, actions, key);
      var again := Ensure(id, most, true);
      RunSnoc(kf, actions, again);
      var ends := AllLand(kf, actions + [again], key);
      after := [again] + ends;
      AppendAssociates(actions, [again], ends);
    }
    NothingForgotten(kf, actions, after, key);
  }

  /** A key with provisions under way can be asked for again. */
  lemma AskAgain(kf: KeyOf, actions: seq<Action>, key: string) returns (id: PrewarmIdentity)
    requires JobsOf(Run(kf, actions), key) != []
    ensures kf(id) == key
  {
    RunInv(kf, actions);
    id := JobsOf(Run(kf, actions), key)[0];
    assert id in JobsOf(Run(kf, actions), key);
  }

  /**
   From any point of any run, the pool keeps to `most` whatever follows that asks for no more and forgets nothing,
   exactly when the counter is exact there and no more than `most` are warm or on the way.
   */
  lemma BoundExactly(kf: KeyOf, actions: seq<Action>, key: string, most: nat)
    ensures (forall after | Remembers(kf, actions, after, key) && AsksAtMost(kf, after, key, most) ::
               |ReadyOf(Run(kf, actions + after).pool, key)| <= most)
       <==> CountsAgree(Run(kf, actions), key) && Committed(Run(kf, actions), key) <= most
  {
    if CountsAgree(Run(kf, actions), key) && Committed(Run(kf, actions), key) <= most {
      forall after | Remembers(kf, actions, after, key) && AsksAtMost(kf, after, key, most)
        ensures |ReadyOf(Run(kf, actions + after).pool, key)| <= most
      {
        BoundStays(kf, actions, after, key, most);
      }
    } else {
      var after := Overshoots(kf, actions, key, most);
    }
  }

  /** Every run that ends in a forgetting `destroyAll` can go on to overshoot any bound without asking for more. */
  lemma ForgettingOvershoots(kf: KeyOf, actions: seq<Action>, key: string, most: nat) returns (after: seq<Action>)
    requires Forgets(Run(kf, actions), DestroyAll, key)
    ensures Remembers(kf, actions + [DestroyAll], after, key) && AsksAtMost(kf, after, key, most)
    ensures |ReadyOf(Run(kf, actions + [DestroyAll] + after).pool, key)| > most
  {
    RunSnoc(kf, actions, DestroyAll);
    after := Overshoots(kf, actions + [DestroyAll], key, most);
  }

  /** After a `destroyAll` in mid-provision, two handles are warm though each `ensure` asked for one. */
  lemma ForgottenProvisionOvershoots(kf: KeyOf, id: PrewarmIdentity) returns (actions: seq<Action>)
    ensures AsksAtMost(kf, actions, kf(id), 1) && |ReadyOf(Run(kf, actions).pool, kf(id))| == 2
  {
    var start := [Ensure(id, 1, true)] + [DestroyAll] + [Ensure(id, 1, true)];
    var end0, end1 := JobEnds(kf(id), 0, Some(0)), JobEnds(kf(id), 0, Some(1));
    var w := Forgotten(kf, id);
    BothLand(kf, w, kf(id));
    RunSnoc(kf, start, end0);
    RunSnoc(kf, start + [end0], end1);
    actions := start + [end0] + [end1];
  }

  lemma BothLand(kf: KeyOf, w: World, key: string)
    requires |JobsOf(w, key)| == 2 && ReadyOf(w.pool, key) == [] && w.made == map[]
    ensures ReadyOf(Step(kf, Step(kf, w, JobEnds(key, 0, Some(0))), JobEnds(key, 0, Some(1))).pool, key) == [0, 1]
  {
    var x := Step(kf, w, JobEnds(key, 0, Some(0)));
    assert x.made.Keys == {0} && |JobsOf(x, key)| == 1 && ReadyOf(x.pool, key) == [0];
  }

  lemma Forgotten(kf: KeyOf, id: PrewarmIdentity) returns (w: World)
    ensures w == Run(kf, [Ensure(id, 1, true)] + [DestroyAll] + [Ensure(id, 1, true)])
    ensures |JobsOf(w, kf(id))| == 2 && ReadyOf(w.pool, kf(id)) == [] && w.made == map[]
  {
    var warm := Ensure(id, 1, true);
    RunSnoc(kf, [], warm);
    assert [] + [warm] == [warm];
    var v := Run(kf, [warm]);
    assert |JobsOf(v, kf(id))| == 1 && v.made == map[];
    RunSnoc(kf, [warm], DestroyAll);
    var u := Step(kf, v, DestroyAll);
    assert |JobsOf(u, kf(id))| == 1 && InflightOf(u.pool, kf(id)) == 0 && ReadyOf(u.pool, kf(id)) == [];
    RunSnoc(kf, [warm] + [DestroyAll], warm);
    w := Step(kf, u, warm);
    assert Want(u.pool, kf(id), 1) == 1;
  }

  // ----- Adoption -----

  type Known = PrewarmIdentity -> bool

  /** Every identity an action brings in is one of `ok`. */
  predicate Brings(ok: Known, a: Action) {
    match a
    case Ensure(id, _, _) => ok(id)
    case Start(_, cfg) => ok(IdentityOf(cfg))
    case _ => true
  }

  ghost predicate AllKnown(ok: Known, w: World) {
    && (forall key, job | job in JobsOf(w, key) :: ok(job))
    && (forall c | c in w.calls :: ok(IdentityOf(w.calls[c].cfg)))
    && (forall h | h in w.made :: ok(w.made[h]))
    && (forall s | s in w.served :: ok(w.served[s]))
  }

  lemma JobsKnown(kf: KeyOf, ok: Known, w: World, a: Action, key: string, job: PrewarmIdentity)
    requires AllKnown(ok, w) && Brings(ok, a) && job in JobsOf(Step(kf, w, a), key)
    ensures ok(job)
  {
    if Enabled(w, a) && a.Ensure? {
      assert job in JobsOf(w, key) || job == a.id;
    } else {
      assert job in JobsOf(w, key);
    }
  }

  lemma MadeKnown(kf: KeyOf, ok: Known, w: World, a: Action, h: Handle)
    requires AllKnown(ok, w) && h in Step(kf, w, a).made
    ensures ok(Step(kf, w, a).made[h])
  {
    if Enabled(w, a) && a.JobEnds? {
      assert JobsOf(w, a.key)[a.i] in JobsOf(w, a.key);
    }
  }

  lemma CallsKnown(kf: KeyOf, ok: Known, w: World, a: Action, c: nat)
    requires AllKnown(ok, w) && Brings(ok, a) && c in Step(kf, w, a).calls
    ensures ok(IdentityOf(Step(kf, w, a).calls[c].cfg))
  {
  }

  lemma ServedKnown(kf: KeyOf, ok: Known, w: World, a: Action, s: string)
    requires AllKnown(ok, w) && Brings(ok, a) && s in Step(kf, w, a).served
    ensures ok(Step(kf, w, a).served[s])
  {
  }

  lemma StepKnown(kf: KeyOf, ok: Known, w: World, a: Action)
    requires AllKnown(ok, w) && Brings(ok, a)
    ensures AllKnown(ok, Step(kf, w, a))
  {
    var n := Step(kf, w, a);
    forall key, job | job in JobsOf(n, key)
      ensures ok(job)
    {
      JobsKnown(kf, ok, w, a, key, job);
    }
    forall h | h in n.made
      ensures ok(n.made[h])
    {
      MadeKnown(kf, ok, w, a, h);
    }
    forall c | c in n.calls
      ensures ok(IdentityOf(n.calls[c].cfg))
    {
      CallsKnown(kf, ok, w, a, c);
    }
    forall s | s in n.served
      ensures ok(n.served[s])
    {
      ServedKnown(kf, ok, w, a, s);
    }
  }

  lemma {:induction false} RunKnown(kf: KeyOf, ok: Known, actions: seq<Action>)
    requires forall a | a in actions :: Brings(ok, a)
    ensures AllKnown(ok, Run(kf, actions))
  {
    if actions != [] {
      var before, last := actions[..|actions| - 1], actions[|actions| - 1];
      assert last in actions && forall a | a in before :: a in actions;
      RunKnown(kf, ok, before);
      StepKnown(kf, ok, Run(kf, before), last);
    }
  }

  /** A session's handle and its request share a key. */
  lemma SharedKey(kf: KeyOf, ok: Known, actions: seq<Action>, s: string)
    requires forall a | a in actions :: Brings(ok, a)
    requires s in Run(kf, actions).table
    ensures var w := Run(kf, actions);
            && Serves(kf, w, s) && ok(w.made[w.table[s].handle]) && ok(w.served[s])
  {
    RunInv(kf, actions);
    RunKnown(kf, ok, actions);
    assert Serves(kf, Run(kf, actions), s);
  }

  /**
   Over every run whose identities are clean, the handle a session holds was made for the owner, environment,
   profile and project that its own request named.
   */
  lemma AdoptionMatchesIdentity(actions: seq<Action>, s: string)
    requires forall a | a in actions :: Brings(CleanIdentity, a)
    requires s in Run(PrewarmKey, actions).table
    ensures var w := Run(PrewarmKey, actions);
            && w.table[s].handle in w.made && s in w.served
            && var madeFor, wanted := w.made[w.table[s].handle], w.served[s];
            && SameIdentity(madeFor, wanted)
            && madeFor.ownerId == w.table[s].ownerId
            && madeFor.environment == w.table[s].environmentRef
            && madeFor.runtimeProfile == w.table[s].runtimeProfile
            && (HasProject(wanted) ==> madeFor.projectId == wanted.projectId)
            && (!HasProject(wanted) && PlainRevision(wanted.source) && PlainRevision(madeFor.source) ==>
                  SameSource(madeFor.source, wanted.source))
  {
    var w := Run(PrewarmKey, actions);
    SharedKey(PrewarmKey, CleanIdentity, actions, s);
    var madeFor, wanted := w.made[w.table[s].handle], w.served[s];
    KeysIdentify(madeFor, wanted);
    if HasProject(wanted) {
      SameProject(wanted, madeFor);
    } else if HasProject(madeFor) {
      SameProject(madeFor, wanted);
    } else if PlainRevision(wanted.source) && PlainRevision(madeFor.source) {
      SourcesIdentify(madeFor.source, wanted.source);
    }
  }

  lemma WaitingFits(actions: seq<Action>, id: PrewarmIdentity)
    requires (forall a | a in actions :: Brings(CleanIdentity, a)) && CleanIdentity(id)
    requires ReadyOf(Run(PrewarmKey, actions).pool, PrewarmKey(id)) != []
    ensures var w := Run(PrewarmKey, actions);
            var h := ReadyOf(w.pool, PrewarmKey(id))[0];
            h in w.made && SameIdentity(w.made[h], id)
  {
    var w := Run(PrewarmKey, actions);
    var h := ReadyOf(w.pool, PrewarmKey(id))[0];
    RunInv(PrewarmKey, actions);
    RunKnown(PrewarmKey, CleanIdentity, actions);
    assert h in ReadyOf(w.pool, PrewarmKey(id)) && Warm(PrewarmKey, w, h);
    KeysIdentify(w.made[h], id);
  }

  /** A new session that adopts a handle gets one made for its project or, without one, for its source or no files. */
  lemma AdoptedAsAsked(actions: seq<Action>, cfg: SessionConfig)
    requires (forall a | a in actions :: Brings(CleanIdentity, a)) && CleanIdentity(IdentityOf(cfg))
    requires var w := Run(PrewarmKey, actions);
             cfg.sessionId !in w.table && StartProgress(w.table, w.pool, cfg, PrewarmKey(IdentityOf(cfg))).Have?
    ensures var w := Run(PrewarmKey, actions);
            var h := StartProgress(w.table, w.pool, cfg, PrewarmKey(IdentityOf(cfg))).handle;
            var wanted := if cfg.source.Some? then cfg.source else Some(Files(0));
            && h in w.made && w.made[h].ownerId == cfg.ownerId
            && (Named(cfg.projectId) ==> w.made[h].projectId == cfg.projectId)
            && (!Named(cfg.projectId) && PlainRevision(wanted) && PlainRevision(w.made[h].source) ==>
                  !HasProject(w.made[h]) && SameSource(w.made[h].source, wanted))
  {
    var id := IdentityOf(cfg);
    WaitingFits(actions, id);
    var made := Run(PrewarmKey, actions).made[ReadyOf(Run(PrewarmKey, actions).pool, PrewarmKey(id))[0]];
    if Named(cfg.projectId) {
      SameProject(id, made);
    } else if HasProject(made) {
      SameProject(made, id);
    } else if PlainRevision(id.source) && PlainRevision(made.source) {
      SourcesIdentify(made.source, id.source);
    }
  }

  /** The handle was not made for an owner other than the one who asks, where both have a name. */
  ghost predicate NotAnothers(w: World, h: Handle, caller: Option<string>) {
    h in w.made && !(Named(caller) && Named(w.made[h].ownerId) && w.made[h].ownerId != caller)
  }

  /**
   At any point of any run with clean identities, the handle that `ensureWorkspace` gives at once was made for the
   environment and profile asked for, and not for another owner.
   */
  lemma GivenAsAsked(actions: seq<Action>, cfg: SessionConfig)
    requires (forall a | a in actions :: Brings(CleanIdentity, a)) && CleanIdentity(IdentityOf(cfg))
    requires var w := Run(PrewarmKey, actions);
             StartProgress(w.table, w.pool, cfg, PrewarmKey(IdentityOf(cfg))).Have?
    ensures var w := Run(PrewarmKey, actions);
            var h := StartProgress(w.table, w.pool, cfg, PrewarmKey(IdentityOf(cfg))).handle;
            && NotAnothers(w, h, cfg.ownerId)
            && w.made[h].environment == cfg.environment && w.made[h].runtimeProfile == cfg.runtimeProfile
  {
    if cfg.sessionId in Run(PrewarmKey, actions).table {
      AdoptionMatchesIdentity(actions, cfg.sessionId);
    } else {
      WaitingFits(actions, IdentityOf(cfg));
    }
  }

  /** Nor does a lookup hand a caller a handle that was made for another owner. */
  lemma LookedUpIsNotAnothers(actions: seq<Action>, s: string, caller: Option<string>)
    requires forall a | a in actions :: Brings(CleanIdentity, a)
    requires GetProgress(Run(PrewarmKey, actions).table, s, caller).Have?
    ensures var w := Run(PrewarmKey, actions);
            NotAnothers(w, GetProgress(w.table, s, caller).handle, caller)
  {
    AdoptionMatchesIdentity(actions, s);
  }

  /** A stranger to a session is refused and changes nothing. */
  lemma StrangersChangeNothing(kf: KeyOf, w: World, call: nat, cfg: SessionConfig)
    requires cfg.sessionId in w.table && Strangers(w.table[cfg.sessionId], cfg.ownerId)
    ensures StartProgress(w.table, w.pool, cfg, kf(IdentityOf(cfg))) == Refused
    ensures GetProgress(w.table, cfg.sessionId, cfg.ownerId) == Refused
    ensures Step(kf, w, Start(call, cfg)) == w && Step(kf, w, EndSession(cfg.sessionId, cfg.ownerId)) == w
  {
  }

  /** Anyone else is not, and can end the session. */
  lemma OthersAreServed(kf: KeyOf, w: World, cfg: SessionConfig)
    requires cfg.sessionId in w.table && !Strangers(w.table[cfg.sessionId], cfg.ownerId)
    ensures StartProgress(w.table, w.pool, cfg, kf(IdentityOf(cfg))) != Refused
    ensures GetProgress(w.table, cfg.sessionId, cfg.ownerId) == Have(w.table[cfg.sessionId].handle)
    ensures var n := Step(kf, w, EndSession(cfg.sessionId, cfg.ownerId));
            && n.table == w.table - {cfg.sessionId}
            && n.destroyed == w.destroyed + {w.table[cfg.sessionId].handle}
  {
  }

  lemma WarmOne(kf: KeyOf, id: PrewarmIdentity)
    ensures var w := Run(kf, [Ensure(id, 1, true)] + [JobEnds(kf(id), 0, Some(0))]);
            ReadyOf(w.pool, kf(id)) == [0] && w.made == map[0 := id] && w.table == map[] && w.calls == map[]
  {
    var ensured, ended := Ensure(id, 1, true), JobEnds(kf(id), 0, Some(0));
    RunSnoc(kf, [], ensured);
    assert [] + [ensured] == [ensured];
    RunSnoc(kf, [ensured], ended);
    var v := Run(kf, [ensured]);
    assert JobsOf(v, kf(id)) == [id] && v.made == map[] && ReadyOf(v.pool, kf(id)) == [];
  }

  /** A request that is not clean can be given, under its own key, a workspace made for a different identity. */
  lemma UncleanRequestAdoptsAnothers(cfg: SessionConfig) returns (actions: seq<Action>)
    requires !CleanIdentity(IdentityOf(cfg))
    ensures var w := Run(PrewarmKey, actions);
            && cfg.sessionId in w.table && w.table[cfg.sessionId].handle in w.made && cfg.sessionId in w.served
            && w.served[cfg.sessionId] == IdentityOf(cfg)
            && !SameIdentity(w.made[w.table[cfg.sessionId].handle], IdentityOf(cfg))
  {
    var other := UncleanCollides(IdentityOf(cfg));
    var warm := [Ensure(other, 1, true)] + [JobEnds(PrewarmKey(other), 0, Some(0))];
    WarmOne(PrewarmKey, other);
    RunSnoc(PrewarmKey, warm, Start(0, cfg));
    actions := warm + [Start(0, cfg)];
  }
}
