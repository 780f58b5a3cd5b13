/** The pool and session objects, driven through any interleaving, are where the step system says they are. */
module Schedule {
  import opened Identity
  import opened Pool
  import opened Sessions
  import opened Lifecycle

  predicate Agrees(m: SessionManager, w: World)
    reads m, m.pool
  {
    m.sessions == w.table && m.pool.ready == w.pool.ready && m.pool.inflight == w.pool.inflight
    && m.pool.timers == w.pool.timers
  }

  /** The pool's own stretches. */
  method PerformPool(m: SessionManager, w: World, a: Action)
    requires Agrees(m, w) && Enabled(w, a)
    requires a.Ensure? || a.JobEnds? || a.TimerFires? || a.DestroyAll?
    modifies m.pool
    ensures Agrees(m, Step(PrewarmKey, w, a))
  {
    match a {
      case Ensure(id, target, resolves) =>
        var _, _ := m.pool.Ensure(id, target, resolves);
      case JobEnds(key, _, handle) => m.pool.ProvisionEnds(key, handle);
      case TimerFires(expired) =>
        var _ := m.pool.Evict(m.pool.timers[expired], expired);
      case DestroyAll =>
        var _ := m.pool.DestroyAll();
    }
  }

  method PerformSession(m: SessionManager, w: World, a: Action)
    requires Agrees(m, w) && Enabled(w, a)
    requires a.Start? || a.OldDestroyed? || a.Provisioned? || a.EndSession?
    modifies m, m.pool
    ensures Agrees(m, Step(PrewarmKey, w, a))
  {
    match a {
      case Start(_, cfg) =>
        var _ := m.Start(cfg);
      case OldDestroyed(call) =>
        var _ := m.Adopt(w.calls[call].cfg);
      case Provisioned(call, handle) =>
        if handle.Some? {
          m.Complete(w.calls[call].cfg, handle.value);
        }
      case EndSession(sessionId, ownerId) =>
        var _ := m.End(sessionId, ownerId);
    }
  }

  /** Any schedule of stretches, run on a new pool and session manager. */
  method Replay(actions: seq<Action>) returns (m: SessionManager)
    ensures Agrees(m, Run(PrewarmKey, actions))
  {
    var pool := new PrewarmPool();
    m := new SessionManager(pool);
    var w := START;
    assert pool.State() == EMPTY;
    for i := 0 to |actions|
      invariant fresh(m) && fresh(m.pool)
      invariant w == Run(PrewarmKey, actions[..i]) && Agrees(m, w)
    {
      var a := actions[i];
      assert actions[..i + 1][..i] == actions[..i];
      if Enabled(w, a) {
        if a.Ensure? || a.JobEnds? || a.TimerFires? || a.DestroyAll? {
          PerformPool(m, w, a);
        } else {
          PerformSession(m, w, a);
        }
      }
      w := Step(PrewarmKey, w, a);
    }
    assert actions[..|actions|] == actions;
  }
}
