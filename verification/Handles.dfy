/**
 Where handles are over whole runs: no interleaving shares or reaps a held handle, calls that do not overlap on
 a session lose none, and an adopted handle was made for its adopter (src/kernel/prewarmPool.ts,
 src/kernel/session.ts).
 */
module Handles {
  import opened Text
  import opened Pool
  import opened Sessions
  import opened Lifecycle

  // ----- Every interleaving -----

  /** The reaper's timers are armed exactly for the listed handles, and those are alive and in no session. */
  lemma ReaperSparesSessions(kf: KeyOf, actions: seq<Action>, h: Handle)
    ensures var w := Run(kf, actions);
            && (h in w.pool.timers <==> h in Listed(w.pool))
            && (h in w.pool.timers ==> h !in w.destroyed && forall s | s in w.table :: w.table[s].handle != h)
  {
    var w := Run(kf, actions);
    RunInv(kf, actions);
    DrainKeeps(w.pool);
    assert h in w.pool.timers ==> Warm(kf, w, h);
  }

  /** No two sessions hold the same handle. */
  lemma NoSharing(kf: KeyOf, actions: seq<Action>, s: string, t: string)
    requires s in Run(kf, actions).table && t in Run(kf, actions).table && s != t
    ensures Run(kf, actions).table[s].handle != Run(kf, actions).table[t].handle
  {
    RunInv(kf, actions);
  }

  // ----- Conservation -----

  ghost predicate Held(w: World, h: Handle) {
    exists s :: s in w.table && w.table[s].handle == h
  }

  ghost predicate Accounted(w: World, h: Handle) {
    h in w.pool.timers || h in w.destroyed || Held(w, h)
  }

  /** Every handle ever made is in the pool, in a session, or destroyed. */
  ghost predicate NoneLost(w: World) {
    forall h | h in w.made :: Accounted(w, h)
  }

  /** The stretch overwrites or deletes a session's entry whose handle nobody has destroyed. */
  predicate Drops(w: World, a: Action) {
    && Enabled(w, a)
    && (a.OldDestroyed? || (a.Provisioned? && a.handle.Some?))
    && var s := w.calls[a.call].cfg.sessionId;
       s in w.table && w.table[s].handle !in w.destroyed
  }

  /** Holders other than `except` still hold the same handles. */
  lemma StillHeld(w: World, n: World, except: string, h: Handle)
    requires forall s | s in w.table && s != except :: s in n.table && n.table[s] == w.table[s]
    requires Held(w, h) && !(except in w.table && w.table[except].handle == h)
    ensures Held(n, h)
  {
    var s :| s in w.table && w.table[s].handle == h;
    assert s in n.table && n.table[s].handle == h;
  }

  lemma AdoptKeepsOthers(kf: KeyOf, w: World, call: nat, cfg: SessionConfig, h: Handle)
    requires Inv(kf, w) && Accounted(w, h)
    requires cfg.sessionId in w.table ==> w.table[cfg.sessionId].handle != h || h in w.destroyed
    ensures Accounted(Adopting(kf, w, call, cfg), h)
  {
    var n := Adopting(kf, w, call, cfg);
    var key := kf(IdentityOf(cfg));
    if h in w.pool.timers && h !in n.pool.timers {
      assert h == ReadyOf(w.pool, key)[0];
      assert n.table[cfg.sessionId].handle == h;
    } else if h !in w.pool.timers && h !in w.destroyed {
      StillHeld(w, n, cfg.sessionId, h);
    }
  }

  lemma AdoptDrops(kf: KeyOf, w: World, call: nat, cfg: SessionConfig)
    requires Inv(kf, w) && cfg.sessionId in w.table && w.table[cfg.sessionId].handle !in w.destroyed
    ensures !Accounted(Adopting(kf, w, call, cfg), w.table[cfg.sessionId].handle)
  {
    var n := Adopting(kf, w, call, cfg);
    var h := w.table[cfg.sessionId].handle;
    var key := kf(IdentityOf(cfg));
    HeldIsMade(kf, w, cfg.sessionId);
    if ReadyOf(w.pool, key) != [] {
      assert ReadyOf(w.pool, key)[0] in ReadyOf(w.pool, key);
    }
    forall s | s in n.table
      ensures n.table[s].handle != h
    {
      assert s != cfg.sessionId ==> n.table[s] == w.table[s];
    }
  }

  lemma PoolStepKeeps(kf: KeyOf, w: World, a: Action)
    requires Inv(kf, w) && NoneLost(w) && Enabled(w, a)
    requires a.Ensure? || a.JobEnds? || a.TimerFires? || a.DestroyAll?
    ensures NoneLost(Step(kf, w, a))
  {
    var n := Step(kf, w, a);
    DrainKeeps(w.pool);
    forall h | h in n.made
      ensures Accounted(n, h)
    {
      if h in w.made && h !in w.pool.timers && h !in w.destroyed {
        assert Accounted(w, h);
        var s :| s in w.table && w.table[s].handle == h;
        assert n.table[s].handle == h;
      }
    }
  }

  lemma DestroyKeeps(kf: KeyOf, w: World, n: World, s: string)
    requires Inv(kf, w) && NoneLost(w) && s in w.table
    requires n.pool == w.pool && n.made == w.made && n.destroyed == w.destroyed + {w.table[s].handle}
    requires n.table == w.table || n.table == w.table - {s}
    ensures NoneLost(n)
  {
    forall h | h in n.made
      ensures Accounted(n, h)
    {
      assert Accounted(w, h);
      if h !in w.pool.timers && h !in n.destroyed {
        StillHeld(w, n, s, h);
      }
    }
  }

  lemma AdoptKeeps(kf: KeyOf, w: World, call: nat, cfg: SessionConfig)
    requires Inv(kf, w) && NoneLost(w)
    ensures NoneLost(Adopting(kf, w, call, cfg))
            <==> !(cfg.sessionId in w.table && w.table[cfg.sessionId].handle !in w.destroyed)
  {
    var n := Adopting(kf, w, call, cfg);
    if cfg.sessionId in w.table && w.table[cfg.sessionId].handle !in w.destroyed {
      AdoptDrops(kf, w, call, cfg);
      HeldIsMade(kf, w, cfg.sessionId);
    } else {
      forall h | h in n.made
        ensures Accounted(n, h)
      {
        assert Accounted(w, h);
        AdoptKeepsOthers(kf, w, call, cfg, h);
      }
    }
  }

  lemma ProvisionedKeeps(kf: KeyOf, w: World, a: Action)
    requires Inv(kf, w) && NoneLost(w) && a.Provisioned? && Enabled(w, a)
    ensures NoneLost(Step(kf, w, a)) <==> !Drops(w, a)
  {
    var n := Step(kf, w, a);
    var s := w.calls[a.call].cfg.sessionId;
    if Drops(w, a) {
      var h := w.table[s].handle;
      HeldIsMade(kf, w, s);
      forall t | t in n.table
        ensures n.table[t].handle != h
      {
        assert t != s ==> n.table[t] == w.table[t];
      }
      assert !Accounted(n, h) && h in n.made;
    } else {
      forall h | h in n.made
        ensures Accounted(n, h)
      {
        if a.handle == Some(h) {
          assert n.table[s].handle == h;
        } else {
          assert Accounted(w, h);
          if h !in w.pool.timers && h !in w.destroyed {
            if a.handle.None? {
              var t :| t in w.table && w.table[t].handle == h;
              assert t in n.table;
            } else {
              StillHeld(w, n, s, h);
            }
          }
        }
      }
    }
  }

  /** One stretch of code loses a handle exactly when it drops a live entry. */
  lemma LostExactlyByDrops(kf: KeyOf, w: World, a: Action)
    requires Inv(kf, w) && NoneLost(w)
    ensures NoneLost(Step(kf, w, a)) <==> !Drops(w, a)
  {
    if Enabled(w, a) {
      match a
      case Ensure(_, _, _) => PoolStepKeeps(kf, w, a);
      case JobEnds(_, _, _) => PoolStepKeeps(kf, w, a);
      case TimerFires(_) => PoolStepKeeps(kf, w, a);
      case DestroyAll => PoolStepKeeps(kf, w, a);
      case Start(call, cfg) =>
        if cfg.sessionId !in w.table {
          AdoptKeeps(kf, w, call, cfg);
        } else if !Foreign(w.table[cfg.sessionId], cfg.ownerId) && !Suits(w.table[cfg.sessionId], cfg) {
          DestroyKeeps(kf, w, Step(kf, w, a), cfg.sessionId);
        }
      case OldDestroyed(call) => AdoptKeeps(kf, w, call, w.calls[call].cfg);
      case Provisioned(_, _) => ProvisionedKeeps(kf, w, a);
      case EndSession(s, owner) =>
        if s in w.table && !Foreign(w.table[s], owner) {
          DestroyKeeps(kf, w, Step(kf, w, a), s);
        }
    }
  }

  lemma AdoptedFrom(kf: KeyOf, w: World, call: nat, cfg: SessionConfig, s: string)
    requires PoolOk(w.pool) && s in Adopting(kf, w, call, cfg).table
    ensures var n := Adopting(kf, w, call, cfg);
            (s in w.table && n.table[s] == w.table[s]) || n.table[s].handle in w.pool.timers
  {
    var list := ReadyOf(w.pool, kf(IdentityOf(cfg)));
    assert list != [] ==> list[0] in list;
  }

  /** A session's handle was there before, or comes from the pool, or is new. */
  lemma EntryFrom(kf: KeyOf, w: World, a: Action, s: string)
    requires PoolOk(w.pool) && s in Step(kf, w, a).table
    ensures var n := Step(kf, w, a);
            || (s in w.table && n.table[s] == w.table[s])
            || n.table[s].handle in w.pool.timers
            || n.table[s].handle !in w.made
  {
    if Enabled(w, a) {
      if a.Start? && a.cfg.sessionId !in w.table {
        AdoptedFrom(kf, w, a.call, a.cfg, s);
      } else if a.OldDestroyed? {
        AdoptedFrom(kf, w, a.call, w.calls[a.call].cfg, s);
      }
    }
  }

  /** The pool takes in only new handles. */
  lemma PooledFrom(kf: KeyOf, w: World, a: Action, h: Handle)
    requires h in w.made && h !in w.pool.timers
    ensures h in Step(kf, w, a).made && h !in Step(kf, w, a).pool.timers
  {
  }

  /** Only handles of the pool or of a session are destroyed. */
  lemma DestroyedFrom(kf: KeyOf, w: World, a: Action, h: Handle)
    requires PoolOk(w.pool) && !Accounted(w, h)
    ensures h !in Step(kf, w, a).destroyed
  {
    DrainKeeps(w.pool);
    assert forall s | s in w.table :: w.table[s].handle != h;
  }

  /** A lost handle is never found again. */
  lemma LostStaysLost(kf: KeyOf, w: World, a: Action, h: Handle)
    requires Inv(kf, w) && h in w.made && !Accounted(w, h)
    ensures h in Step(kf, w, a).made && !Accounted(Step(kf, w, a), h)
  {
    PooledFrom(kf, w, a, h);
    DestroyedFrom(kf, w, a, h);
    if s :| s in Step(kf, w, a).table && Step(kf, w, a).table[s].handle == h {
      EntryFrom(kf, w, a, s);
    }
  }

  /** No stretch of the run drops a live entry. */
  predicate NeverDrops(kf: KeyOf, actions: seq<Action>) {
    actions == [] ||
    (var before := actions[..|actions| - 1];
     NeverDrops(kf, before) && !Drops(Run(kf, before), actions[|actions| - 1]))
  }

  /** Over a run, overlapping calls included, every made handle is accounted for exactly when nothing was dropped. */
  lemma {:induction false} RunLosesExactlyByDrops(kf: KeyOf, actions: seq<Action>)
    ensures NoneLost(Run(kf, actions)) <==> NeverDrops(kf, actions)
  {
    if actions != [] {
      var before, last := actions[..|actions| - 1], actions[|actions| - 1];
      var w := Run(kf, before);
      RunLosesExactlyByDrops(kf, before);
      RunInv(kf, before);
      if NoneLost(w) {
        LostExactlyByDrops(kf, w, last);
      } else {
        var h :| h in w.made && !Accounted(w, h);
        LostStaysLost(kf, w, last, h);
      }
    }
  }

  // ----- Calls that do not overlap on a session -----

  predicate Pending(w: World, s: string) {
    exists c :: c in w.calls && w.calls[c].cfg.sessionId == s
  }

  ghost predicate Replaced(w: World, s: string) {
    exists c :: c in w.calls && w.calls[c].Replacing? && w.calls[c].cfg.sessionId == s
  }

  /** No call on a session starts while another on that session is pending. */
  predicate Alone(w: World, a: Action) {
    && (a.Start? ==> !Pending(w, a.cfg.sessionId))
    && (a.EndSession? ==> !Pending(w, a.sessionId))
  }

  predicate Orderly(kf: KeyOf, actions: seq<Action>) {
    actions == [] ||
    (var before := actions[..|actions| - 1];
     Orderly(kf, before) && Alone(Run(kf, before), actions[|actions| - 1]))
  }

  /** A pending call finds its session as it left it: the old handle destroyed, or no entry at all. */
  ghost predicate CallFits(w: World, c: nat)
    requires c in w.calls
  {
    var s := w.calls[c].cfg.sessionId;
    if w.calls[c].Replacing? then s in w.table && w.table[s].handle in w.destroyed else s !in w.table
  }

  ghost predicate CallsInv(w: World) {
    && (forall c, d | c in w.calls && d in w.calls && w.calls[c].cfg.sessionId == w.calls[d].cfg.sessionId :: c == d)
    && (forall c | c in w.calls :: CallFits(w, c))
    && (forall s | s in w.table && w.table[s].handle in w.destroyed :: Replaced(w, s))
  }

  lemma NoDrops(w: World, a: Action)
    requires CallsInv(w)
    ensures !Drops(w, a)
  {
    if Enabled(w, a) && (a.OldDestroyed? || a.Provisioned?) {
      assert CallFits(w, a.call);
    }
  }

  /** The pool's stretches leave sessions and calls alone, and destroy no held handle. */
  lemma PoolStepAside(kf: KeyOf, w: World, a: Action, h: Handle)
    requires Inv(kf, w) && Enabled(w, a) && (a.Ensure? || a.JobEnds? || a.TimerFires? || a.DestroyAll?)
    ensures Step(kf, w, a).table == w.table && Step(kf, w, a).calls == w.calls
    ensures h in w.destroyed ==> h in Step(kf, w, a).destroyed
    ensures h in Step(kf, w, a).destroyed ==> h in w.destroyed || h in w.pool.timers
  {
    DrainKeeps(w.pool);
  }

  lemma PoolStepCalls(kf: KeyOf, w: World, a: Action)
    requires Inv(kf, w) && CallsInv(w) && Enabled(w, a)
    requires a.Ensure? || a.JobEnds? || a.TimerFires? || a.DestroyAll?
    ensures CallsInv(Step(kf, w, a))
  {
    var n := Step(kf, w, a);
    PoolStepAside(kf, w, a, 0);
    forall s | s in w.table
      ensures w.table[s].handle in n.destroyed <==> w.table[s].handle in w.destroyed
    {
      PoolStepAside(kf, w, a, w.table[s].handle);
      HeldIsMade(kf, w, s);
    }
    SameCalls(w, n);
  }

  lemma SameCalls(w: World, n: World)
    requires CallsInv(w) && n.table == w.table && n.calls == w.calls
    requires forall s | s in w.table :: w.table[s].handle in n.destroyed <==> w.table[s].handle in w.destroyed
    ensures CallsInv(n)
  {
    assert forall c | c in n.calls :: CallFits(w, c);
    forall s | s in n.table && n.table[s].handle in n.destroyed
      ensures Replaced(n, s)
    {
      assert Replaced(w, s);
    }
  }

  /** Only the entry of `s`, its call (one of `mine`) and, perhaps, its handle's fate change between `w` and `n`. */
  ghost predicate OnlyTouches(w: World, n: World, s: string, mine: set<nat>) {
    && n.table - {s} == w.table - {s} && n.calls - mine == w.calls - mine
    && (forall c | c in w.calls :: w.calls[c].cfg.sessionId == s <==> c in mine)
    && (forall c | c in n.calls && c in mine :: n.calls[c].cfg.sessionId == s)
    && (forall c, d | c in mine && d in mine :: c == d)
    && w.destroyed <= n.destroyed
    && (forall t | t in n.table && t != s && n.table[t].handle in n.destroyed :: n.table[t].handle in w.destroyed)
  }

  lemma OtherSession(w: World, n: World, s: string, mine: set<nat>, t: string)
    requires OnlyTouches(w, n, s, mine) && t != s
    ensures t in n.table <==> t in w.table
    ensures t in n.table ==> n.table[t] == w.table[t]
  {
    assert t in n.table <==> t in n.table - {s};
    assert t in w.table <==> t in w.table - {s};
    assert t in w.table ==> (n.table - {s})[t] == (w.table - {s})[t];
  }

  lemma OtherCall(w: World, n: World, s: string, mine: set<nat>, c: nat)
    requires OnlyTouches(w, n, s, mine) && c !in mine
    ensures c in n.calls <==> c in w.calls
    ensures c in n.calls ==> n.calls[c] == w.calls[c] && n.calls[c].cfg.sessionId != s
  {
    assert c in n.calls <==> c in n.calls - mine;
    assert c in w.calls <==> c in w.calls - mine;
    assert c in w.calls ==> (n.calls - mine)[c] == (w.calls - mine)[c];
  }

  lemma SessionStepFits(w: World, n: World, s: string, mine: set<nat>, c: nat)
    requires CallsInv(w) && OnlyTouches(w, n, s, mine) && c in n.calls && c !in mine
    ensures CallFits(n, c)
  {
    OtherCall(w, n, s, mine, c);
    OtherSession(w, n, s, mine, n.calls[c].cfg.sessionId);
    assert CallFits(w, c);
  }

  lemma SessionStepMarks(w: World, n: World, s: string, mine: set<nat>, t: string)
    requires CallsInv(w) && OnlyTouches(w, n, s, mine)
    requires t in n.table && t != s && n.table[t].handle in n.destroyed
    ensures Replaced(n, t)
  {
    OtherSession(w, n, s, mine, t);
    assert Replaced(w, t);
    var c :| c in w.calls && w.calls[c].Replacing? && w.calls[c].cfg.sessionId == t;
    OtherCall(w, n, s, mine, c);
  }

  lemma SessionStepCalls(w: World, n: World, s: string, mine: set<nat>)
    requires CallsInv(w) && OnlyTouches(w, n, s, mine)
    requires forall c | c in n.calls && c in mine :: CallFits(n, c)
    requires s in n.table && n.table[s].handle in n.destroyed ==> Replaced(n, s)
    ensures CallsInv(n)
  {
    forall c | c in n.calls
      ensures CallFits(n, c)
    {
      if c !in mine {
        SessionStepFits(w, n, s, mine, c);
      }
    }
    forall t | t in n.table && n.table[t].handle in n.destroyed
      ensures Replaced(n, t)
    {
      if t != s {
        SessionStepMarks(w, n, s, mine, t);
      }
    }
    forall c, d | c in n.calls && d in n.calls && n.calls[c].cfg.sessionId == n.calls[d].cfg.sessionId
      ensures c == d
    {
      if c !in mine { OtherCall(w, n, s, mine, c); }
      if d !in mine { OtherCall(w, n, s, mine, d); }
    }
  }

  lemma AdoptedIsAlive(kf: KeyOf, w: World, key: string)
    requires Inv(kf, w)
    ensures ReadyOf(w.pool, key) != [] ==> ReadyOf(w.pool, key)[0] !in w.destroyed
  {
    if ReadyOf(w.pool, key) != [] {
      assert ReadyOf(w.pool, key)[0] in ReadyOf(w.pool, key);
      assert Warm(kf, w, ReadyOf(w.pool, key)[0]);
    }
  }

  lemma AdoptTouches(kf: KeyOf, w: World, call: nat, cfg: SessionConfig)
    requires forall c | c in w.calls :: w.calls[c].cfg.sessionId == cfg.sessionId <==> c == call
    ensures OnlyTouches(w, Adopting(kf, w, call, cfg), cfg.sessionId, {call})
  {
    var n := Adopting(kf, w, call, cfg);
    var s := cfg.sessionId;
    assert n.table - {s} == w.table - {s};
    assert n.calls - {call} == w.calls - {call};
  }

  lemma AdoptCalls(kf: KeyOf, w: World, call: nat, cfg: SessionConfig)
    requires Inv(kf, w) && CallsInv(w)
    requires forall c | c in w.calls :: w.calls[c].cfg.sessionId == cfg.sessionId <==> c == call
    ensures CallsInv(Adopting(kf, w, call, cfg))
  {
    AdoptedIsAlive(kf, w, kf(IdentityOf(cfg)));
    AdoptTouches(kf, w, call, cfg);
    SessionStepCalls(w, Adopting(kf, w, call, cfg), cfg.sessionId, {call});
  }

  /** Marking the session's handle destroyed while its call `mine` waits, or removing the entry at once. */
  lemma DestroyCalls(kf: KeyOf, w: World, n: World, s: string, mine: set<nat>)
    requires Inv(kf, w) && CallsInv(w) && s in w.table && !Pending(w, s)
    requires n.destroyed == w.destroyed + {w.table[s].handle} && n.calls - mine == w.calls - mine
    requires n.table - {s} == w.table - {s}
    requires (mine == {} && s !in n.table)
          || (exists c :: mine == {c} && c !in w.calls && c in n.calls && n.calls[c].Replacing?
                          && n.calls[c].cfg.sessionId == s && n.table == w.table)
    ensures CallsInv(n)
  {
    forall t | t in n.table && t != s && n.table[t].handle in n.destroyed
      ensures n.table[t].handle in w.destroyed
    {
      assert t in n.table - {s} && t in w.table - {s};
      assert n.table[t] == (n.table - {s})[t] == (w.table - {s})[t];
    }
    SessionStepCalls(w, n, s, mine);
  }

  lemma ProvisionedCalls(kf: KeyOf, w: World, a: Action)
    requires Inv(kf, w) && CallsInv(w) && a.Provisioned? && Enabled(w, a)
    ensures CallsInv(Step(kf, w, a))
  {
    var n := Step(kf, w, a);
    var s := w.calls[a.call].cfg.sessionId;
    assert CallFits(w, a.call);
    assert n.table - {s} == w.table - {s};
    assert n.calls - {a.call} == w.calls - {a.call};
    SessionStepCalls(w, n, s, {a.call});
  }

  lemma StartCalls(kf: KeyOf, w: World, call: nat, cfg: SessionConfig)
    requires Inv(kf, w) && CallsInv(w) && call !in w.calls && !Pending(w, cfg.sessionId)
    ensures CallsInv(Step(kf, w, Start(call, cfg)))
  {
    var s := cfg.sessionId;
    var n := Step(kf, w, Start(call, cfg));
    if s !in w.table {
      AdoptCalls(kf, w, call, cfg);
    } else if !Foreign(w.table[s], cfg.ownerId) && !Suits(w.table[s], cfg) {
      assert n.calls - {call} == w.calls - {call};
      DestroyCalls(kf, w, n, s, {call});
    }
  }

  lemma StepCalls(kf: KeyOf, w: World, a: Action)
    requires Inv(kf, w) && CallsInv(w) && Alone(w, a)
    ensures CallsInv(Step(kf, w, a))
  {
    if Enabled(w, a) {
      match a
      case Ensure(_, _, _) => PoolStepCalls(kf, w, a);
      case JobEnds(_, _, _) => PoolStepCalls(kf, w, a);
      case TimerFires(_) => PoolStepCalls(kf, w, a);
      case DestroyAll => PoolStepCalls(kf, w, a);
      case Start(call, cfg) => StartCalls(kf, w, call, cfg);
      case OldDestroyed(call) => AdoptCalls(kf, w, call, w.calls[call].cfg);
      case Provisioned(_, _) => ProvisionedCalls(kf, w, a);
      case EndSession(s, owner) =>
        if s in w.table && !Foreign(w.table[s], owner) {
          DestroyCalls(kf, w, Step(kf, w, a), s, {});
        }
    }
  }

  lemma {:induction false} OrderlyRun(kf: KeyOf, actions: seq<Action>)
    requires Orderly(kf, actions)
    ensures NoneLost(Run(kf, actions)) && CallsInv(Run(kf, actions))
  {
    if actions != [] {
      var before, last := actions[..|actions| - 1], actions[|actions| - 1];
      OrderlyRun(kf, before);
      RunInv(kf, before);
      NoDrops(Run(kf, before), last);
      LostExactlyByDrops(kf, Run(kf, before), last);
      StepCalls(kf, Run(kf, before), last);
    }
  }

  /** A session holds `h` and is not waiting for it to be destroyed. */
  ghost predicate Owned(w: World, h: Handle) {
    exists s :: s in w.table && w.table[s].handle == h && !Replaced(w, s)
  }

  /**
   When calls on a session do not overlap, every handle ever made is in exactly one place: the warm pool, one
   session, or destroyed.
   */
  lemma ExactlyOnePlace(kf: KeyOf, actions: seq<Action>, h: Handle)
    requires Orderly(kf, actions) && h in Run(kf, actions).made
    ensures var w := Run(kf, actions);
            && (h in w.pool.timers || Owned(w, h) || h in w.destroyed)
            && !(h in w.pool.timers && Owned(w, h)) && !(h in w.pool.timers && h in w.destroyed)
            && !(Owned(w, h) && h in w.destroyed)
  {
    var w := Run(kf, actions);
    OrderlyRun(kf, actions);
    RunInv(kf, actions);
    assert Accounted(w, h);
    assert h in w.pool.timers ==> Warm(kf, w, h);
    forall s | s in w.table && w.table[s].handle == h
      ensures Replaced(w, s) <==> h in w.destroyed
    {
      if Replaced(w, s) {
        var c :| c in w.calls && w.calls[c].Replacing? && w.calls[c].cfg.sessionId == s;
        assert CallFits(w, c);
      }
    }
  }

  lemma RunSnoc(kf: KeyOf, before: seq<Action>, a: Action)
    ensures Run(kf, before + [a]) == Step(kf, Run(kf, before), a)
  {
    assert (before + [a])[..|before|] == before;
  }

  lemma ColdStart(kf: KeyOf, w: World, call: nat, cfg: SessionConfig)
    requires w.pool == EMPTY && w.table == map[] && call !in w.calls
    ensures Step(kf, w, Start(call, cfg)) == w.(calls := w.calls[call := Provisioning(cfg)])
  {
    assert ReadyOf(w.pool, kf(IdentityOf(cfg))) == [];
    assert w.table - {cfg.sessionId} == w.table;
  }

  /** Two overlapping first calls on one session leave a made handle in no place at all. */
  lemma OverlapOrphans(kf: KeyOf, s: string)
    ensures var cfg := SessionConfig(s, None, "local", None, None, None);
            var w := Run(kf, [Start(0, cfg), Start(1, cfg), Provisioned(0, Some(0)), Provisioned(1, Some(1))]);
            0 in w.made && !Accounted(w, 0)
  {
    var cfg := SessionConfig(s, None, "local", None, None, None);
    var starts := [Start(0, cfg)] + [Start(1, cfg)];
    ColdStart(kf, START, 0, cfg);
    RunSnoc(kf, [], Start(0, cfg));
    assert [] + [Start(0, cfg)] == [Start(0, cfg)];
    ColdStart(kf, Run(kf, [Start(0, cfg)]), 1, cfg);
    RunSnoc(kf, [Start(0, cfg)], Start(1, cfg));
    RunSnoc(kf, starts, Provisioned(0, Some(0)));
    RunSnoc(kf, starts + [Provisioned(0, Some(0))], Provisioned(1, Some(1)));
    Overwritten(kf, Run(kf, starts), cfg);
    assert starts + [Provisioned(0, Some(0))] + [Provisioned(1, Some(1))]
        == [Start(0, cfg), Start(1, cfg), Provisioned(0, Some(0)), Provisioned(1, Some(1))];
  }

  lemma Overwritten(kf: KeyOf, w: World, cfg: SessionConfig)
    requires w == START.(calls := map[0 := Provisioning(cfg), 1 := Provisioning(cfg)])
    ensures var n := Step(kf, Step(kf, w, Provisioned(0, Some(0))), Provisioned(1, Some(1)));
            0 in n.made && !Accounted(n, 0)
  {
    var m := Step(kf, w, Provisioned(0, Some(0)));
    assert 1 in m.calls && m.calls[1] == Provisioning(cfg) && m.made.Keys == {0} && m.table.Keys == {cfg.sessionId};
    var n := Step(kf, m, Provisioned(1, Some(1)));
    assert n.table.Keys == {cfg.sessionId} && n.table[cfg.sessionId].handle == 1;
  }
}
