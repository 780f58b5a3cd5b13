/**
 The life of workspace handles over every interleaving of the warm pool and the session manager
 (src/kernel/prewarmPool.ts, src/kernel/session.ts). A world is changed by one stretch of code at a time;
 between two stretches of one call any others may run. `made` remembers what each handle was provisioned for
 and `served` whose workspace request each session's entry came from.
 */
module Lifecycle {
  import opened Text
  import opened Identity
  import opened Pool
  import opened Sessions

  type KeyOf = PrewarmIdentity -> string

  /** A call of `ensureWorkspace` waiting at an `await`. */
  datatype Call = Replacing(cfg: SessionConfig) | Provisioning(cfg: SessionConfig)

  datatype World = World(
    pool: PoolState,
    jobs: map<string, seq<PrewarmIdentity>>,
    table: Table,
    calls: map<nat, Call>,
    made: map<Handle, PrewarmIdentity>,
    served: map<string, PrewarmIdentity>,
    destroyed: set<Handle>)

  datatype Action =
    | Ensure(id: PrewarmIdentity, target: int, resolves: bool)
    | JobEnds(key: string, i: nat, handle: Option<Handle>)
    | TimerFires(expired: Handle)
    | DestroyAll
    | Start(call: nat, cfg: SessionConfig)
    | OldDestroyed(call: nat)
    | Provisioned(call: nat, handle: Option<Handle>)
    | EndSession(sessionId: string, ownerId: Option<string>)

  const START := World(EMPTY, map[], map[], map[], map[], map[], {})

  function JobsOf(w: World, key: string): seq<PrewarmIdentity> {
    if key in w.jobs then w.jobs[key] else []
  }

  /** Provisions end with a handle never seen before, timers fire only while armed, call numbers are fresh. */
  predicate Enabled(w: World, a: Action) {
    match a
    case JobEnds(key, i, handle) => i < |JobsOf(w, key)| && (handle.Some? ==> handle.value !in w.made)
    case TimerFires(expired) => expired in w.pool.timers
    case Start(call, _) => call !in w.calls
    case OldDestroyed(call) => call in w.calls && w.calls[call].Replacing?
    case Provisioned(call, handle) =>
      call in w.calls && w.calls[call].Provisioning? && (handle.Some? ==> handle.value !in w.made)
    case _ => true
  }

  function Repeat(id: PrewarmIdentity, n: nat): (ids: seq<PrewarmIdentity>)
    ensures |ids| == n && forall x | x in ids :: x == id
  {
    if n == 0 then [] else [id] + Repeat(id, n - 1)
  }

  /** Adoption for a call of `ensureWorkspace` that holds no workspace any more. */
  function Adopting(kf: KeyOf, w: World, call: nat, cfg: SessionConfig): World {
    var key := kf(IdentityOf(cfg));
    var adopts := ReadyOf(w.pool, key) != [];
    w.(pool := Claimed(w.pool, key),
       table := AdoptedTable(w.table, w.pool, cfg, key),
       served := if adopts then w.served[cfg.sessionId := IdentityOf(cfg)] else w.served,
       calls := if adopts then w.calls - {call} else w.calls[call := Provisioning(cfg)])
  }

  function Step(kf: KeyOf, w: World, a: Action): World {
    if !Enabled(w, a) then w
    else match a
      case Ensure(id, target, resolves) =>
        var count := if resolves then Want(w.pool, kf(id), target) else 0;
        w.(pool := Ensured(w.pool, kf(id), target, resolves),
           jobs := w.jobs[kf(id) := JobsOf(w, kf(id)) + Repeat(id, count)])
      case JobEnds(key, i, handle) =>
        var job := JobsOf(w, key)[i];
        w.(pool := if handle.Some? then Stocked(w.pool, key, handle.value) else Finished(w.pool, key),
           jobs := w.jobs[key := JobsOf(w, key)[..i] + JobsOf(w, key)[i + 1..]],
           made := if handle.Some? then w.made[handle.value := job] else w.made)
      case TimerFires(expired) =>
        w.(pool := Evicted(w.pool, w.pool.timers[expired], expired), destroyed := w.destroyed + {expired})
      case DestroyAll =>
        w.(pool := Drained(w.pool), destroyed := w.destroyed + Listed(w.pool))
      case Start(call, cfg) =>
        if cfg.sessionId !in w.table then Adopting(kf, w, call, cfg)
        else if Foreign(w.table[cfg.sessionId], cfg.ownerId) || Suits(w.table[cfg.sessionId], cfg) then w
        else
          w.(calls := w.calls[call := Replacing(cfg)], destroyed := w.destroyed + {w.table[cfg.sessionId].handle})
      case OldDestroyed(call) => Adopting(kf, w, call, w.calls[call].cfg)
      case Provisioned(call, handle) =>
        var cfg := w.calls[call].cfg;
        if handle.None? then w.(calls := w.calls - {call})
        else
          w.(calls := w.calls - {call},
             made := w.made[handle.value := IdentityOf(cfg)],
             table := w.table[cfg.sessionId := Entry(cfg, handle.value)],
             served := w.served[cfg.sessionId := IdentityOf(cfg)])
      case EndSession(sessionId, ownerId) =>
        if sessionId !in w.table || Foreign(w.table[sessionId], ownerId) then w
        else w.(table := w.table - {sessionId}, destroyed := w.destroyed + {w.table[sessionId].handle})
  }

  /** A provision that ends ends its call; one that fails changes nothing else, one that succeeds makes the entry. */
  lemma ProvisionEndsCall(kf: KeyOf, w: World, call: nat, handle: Option<Handle>)
    requires Enabled(w, Provisioned(call, handle))
    ensures var n, cfg := Step(kf, w, Provisioned(call, handle)), w.calls[call].cfg;
            && n.calls == w.calls - {call} && n.pool == w.pool && n.jobs == w.jobs && n.destroyed == w.destroyed
            && (handle.None? ==> n.table == w.table && n.made == w.made && n.served == w.served)
            && (handle.Some? ==>
                  && n.made == w.made[handle.value := IdentityOf(cfg)] && cfg.sessionId in n.table
                  && n.table[cfg.sessionId].handle == handle.value
                  && n.table[cfg.sessionId].environmentRef == cfg.environment
                  && n.table[cfg.sessionId].runtimeProfile == cfg.runtimeProfile
                  && n.table[cfg.sessionId].ownerId == cfg.ownerId)
  {
  }

  function Run(kf: KeyOf, actions: seq<Action>): World {
    if actions == [] then START else Step(kf, Run(kf, actions[..|actions| - 1]), actions[|actions| - 1])
  }

  // ----- What holds in every interleaving -----

  /** A warm handle is made, kept under its own key, alive, and in no session. */
  ghost predicate Warm(kf: KeyOf, w: World, h: Handle)
    requires h in w.pool.timers
  {
    && h in w.made && kf(w.made[h]) == w.pool.timers[h]
    && h !in w.destroyed
    && forall s | s in w.table :: w.table[s].handle != h
  }

  ghost predicate PoolInv(kf: KeyOf, w: World) {
    PoolOk(w.pool) && forall h | h in w.pool.timers :: Warm(kf, w, h)
  }

  /** Unfinished provisions are filed under their own key. */
  ghost predicate JobsInv(kf: KeyOf, w: World) {
    forall key, job | job in JobsOf(w, key) :: kf(job) == key
  }

  /** A session's entry was made for the request it serves. */
  ghost predicate Serves(kf: KeyOf, w: World, s: string)
    requires s in w.table
  {
    && w.table[s].handle in w.made && s in w.served
    && kf(w.made[w.table[s].handle]) == kf(w.served[s])
    && w.served[s].ownerId == w.table[s].ownerId
    && w.served[s].environment == w.table[s].environmentRef
    && w.served[s].runtimeProfile == w.table[s].runtimeProfile
  }

  /** No two sessions hold the same handle. */
  ghost predicate TableInv(kf: KeyOf, w: World) {
    && (forall s | s in w.table :: Serves(kf, w, s))
    && (forall s, t | s in w.table && t in w.table && w.table[s].handle == w.table[t].handle :: s == t)
    && w.destroyed <= w.made.Keys
  }

  ghost predicate Inv(kf: KeyOf, w: World) {
    PoolInv(kf, w) && JobsInv(kf, w) && TableInv(kf, w)
  }

  lemma EnsureInv(kf: KeyOf, w: World, a: Action)
    requires Inv(kf, w) && a.Ensure?
    ensures Inv(kf, Step(kf, w, a))
  {
    var n := Step(kf, w, a);
    EnsureKeeps(w.pool, kf(a.id), a.target, a.resolves);
    assert forall h | h in n.pool.timers :: Warm(kf, w, h);
    assert forall s | s in n.table :: Serves(kf, w, s);
    assert JobsInv(kf, n) by {
      forall key, job | job in JobsOf(n, key)
        ensures kf(job) == key
      {
        assert job in JobsOf(w, key) || (key == kf(a.id) && job == a.id);
      }
    }
  }

  lemma JobsShrink(kf: KeyOf, w: World, n: World, key: string, i: nat)
    requires JobsInv(kf, w) && i < |JobsOf(w, key)|
    requires n.jobs == w.jobs[key := JobsOf(w, key)[..i] + JobsOf(w, key)[i + 1..]]
    ensures JobsInv(kf, n)
  {
    forall k, job | job in JobsOf(n, k)
      ensures kf(job) == k
    {
      assert job in JobsOf(w, k);
    }
  }

  lemma JobEndsInv(kf: KeyOf, w: World, a: Action)
    requires Inv(kf, w) && a.JobEnds? && Enabled(w, a)
    ensures Inv(kf, Step(kf, w, a))
  {
    var n := Step(kf, w, a);
    JobsShrink(kf, w, n, a.key, a.i);
    assert JobsOf(w, a.key)[a.i] in JobsOf(w, a.key);
    assert forall s | s in n.table :: Serves(kf, w, s);
    if a.handle.Some? {
      StockInv(kf, w, n, a.key, a.handle.value);
    } else {
      FinishKeeps(w.pool, a.key);
      assert forall h | h in w.pool.timers :: Warm(kf, w, h);
    }
  }

  lemma StockInv(kf: KeyOf, w: World, n: World, key: string, h: Handle)
    requires PoolInv(kf, w) && TableInv(kf, w) && h !in w.made
    requires n.pool == Stocked(w.pool, key, h)
    requires h in n.made && n.made == w.made[h := n.made[h]] && kf(n.made[h]) == key
    requires n.table == w.table && n.destroyed == w.destroyed
    ensures PoolInv(kf, n)
  {
    assert h in w.pool.timers ==> Warm(kf, w, h);
    StockKeeps(w.pool, key, h);
    assert forall s | s in w.table :: Serves(kf, w, s);
    forall g | g in n.pool.timers
      ensures Warm(kf, n, g)
    {
      if g != h {
        assert Warm(kf, w, g);
      }
    }
  }

  lemma AdoptingInv(kf: KeyOf, w: World, call: nat, cfg: SessionConfig)
    requires Inv(kf, w)
    ensures Inv(kf, Adopting(kf, w, call, cfg))
  {
    var n := Adopting(kf, w, call, cfg);
    assert forall k :: JobsOf(n, k) == JobsOf(w, k);
    AdoptingPool(kf, w, call, cfg);
    AdoptingTable(kf, w, call, cfg);
  }

  lemma AdoptingPool(kf: KeyOf, w: World, call: nat, cfg: SessionConfig)
    requires Inv(kf, w)
    ensures PoolInv(kf, Adopting(kf, w, call, cfg))
  {
    var n := Adopting(kf, w, call, cfg);
    ClaimKeeps(w.pool, kf(IdentityOf(cfg)));
    forall h | h in n.pool.timers
      ensures Warm(kf, n, h)
    {
      assert Warm(kf, w, h);
    }
  }

  lemma AdoptingTable(kf: KeyOf, w: World, call: nat, cfg: SessionConfig)
    requires Inv(kf, w)
    ensures TableInv(kf, Adopting(kf, w, call, cfg))
  {
    var key := kf(IdentityOf(cfg));
    var n := Adopting(kf, w, call, cfg);
    assert forall s | s in w.table :: Serves(kf, w, s);
    if ReadyOf(w.pool, key) != [] {
      var h := ReadyOf(w.pool, key)[0];
      assert h in ReadyOf(w.pool, key) && Warm(kf, w, h);
      assert Serves(kf, n, cfg.sessionId);
    }
  }

  /** Destroying a handle that is not in the pool breaks nothing. */
  lemma DestroyInv(kf: KeyOf, w: World, n: World, h: Handle)
    requires Inv(kf, w) && h in w.made && h !in w.pool.timers
    requires n.pool == w.pool && n.jobs == w.jobs && n.made == w.made && n.served == w.served
    requires n.destroyed == w.destroyed + {h} && n.table.Keys <= w.table.Keys
    requires forall s | s in n.table :: n.table[s] == w.table[s]
    ensures Inv(kf, n)
  {
    assert forall h | h in w.pool.timers :: Warm(kf, w, h);
    assert forall s | s in n.table :: Serves(kf, w, s);
    assert forall k :: JobsOf(n, k) == JobsOf(w, k);
  }

  lemma ReaperInv(kf: KeyOf, w: World, a: Action)
    requires Inv(kf, w) && (a.TimerFires? || a.DestroyAll?) && Enabled(w, a)
    ensures Inv(kf, Step(kf, w, a))
  {
    var n := Step(kf, w, a);
    assert forall s | s in w.table :: Serves(kf, w, s);
    assert forall k :: JobsOf(n, k) == JobsOf(w, k);
    DrainKeeps(w.pool);
    assert forall h | h in Listed(w.pool) :: Warm(kf, w, h);
    if a.TimerFires? {
      EvictKeeps(w.pool, a.expired);
      assert Warm(kf, w, a.expired);
    }
    forall h | h in n.pool.timers
      ensures Warm(kf, n, h)
    {
      assert Warm(kf, w, h);
    }
  }

  lemma ProvisionedInv(kf: KeyOf, w: World, a: Action)
    requires Inv(kf, w) && a.Provisioned? && Enabled(w, a)
    ensures Inv(kf, Step(kf, w, a))
  {
    var n := Step(kf, w, a);
    assert forall k :: JobsOf(n, k) == JobsOf(w, k);
    if a.handle.Some? {
      CompletePool(kf, w, n, w.calls[a.call].cfg, a.handle.value);
      CompleteTable(kf, w, n, w.calls[a.call].cfg, a.handle.value);
    } else {
      assert forall h | h in w.pool.timers :: Warm(kf, w, h);
      assert forall s | s in w.table :: Serves(kf, w, s);
    }
  }

  lemma CompletePool(kf: KeyOf, w: World, n: World, cfg: SessionConfig, h: Handle)
    requires Inv(kf, w) && h !in w.made
    requires n.pool == w.pool && n.destroyed == w.destroyed && n.made == w.made[h := IdentityOf(cfg)]
    requires n.table == w.table[cfg.sessionId := Entry(cfg, h)]
    ensures PoolInv(kf, n)
  {
    forall g | g in n.pool.timers
      ensures Warm(kf, n, g)
    {
      assert Warm(kf, w, g);
    }
  }

  lemma CompleteTable(kf: KeyOf, w: World, n: World, cfg: SessionConfig, h: Handle)
    requires Inv(kf, w) && h !in w.made
    requires n.destroyed == w.destroyed && n.made == w.made[h := IdentityOf(cfg)]
    requires n.table == w.table[cfg.sessionId := Entry(cfg, h)]
    requires n.served == w.served[cfg.sessionId := IdentityOf(cfg)]
    ensures TableInv(kf, n)
  {
    forall s | s in n.table
      ensures Serves(kf, n, s)
    {
      assert s in w.table ==> Serves(kf, w, s);
    }
    assert forall s | s in w.table :: Serves(kf, w, s);
  }

  /** Every stretch of code keeps the invariant, and a destroyed handle stays destroyed. */
  lemma StepInv(kf: KeyOf, w: World, a: Action)
    requires Inv(kf, w)
    ensures Inv(kf, Step(kf, w, a))
    ensures w.destroyed <= Step(kf, w, a).destroyed
  {
    if Enabled(w, a) {
      match a
      case Ensure(_, _, _) => EnsureInv(kf, w, a);
      case JobEnds(_, _, _) => JobEndsInv(kf, w, a);
      case TimerFires(_) => ReaperInv(kf, w, a);
      case DestroyAll => ReaperInv(kf, w, a);
      case Start(call, cfg) => StartInv(kf, w, call, cfg);
      case OldDestroyed(call) => AdoptingInv(kf, w, call, w.calls[call].cfg);
      case Provisioned(_, _) => ProvisionedInv(kf, w, a);
      case EndSession(s, owner) => EndInv(kf, w, s, owner);
    }
  }

  lemma StartInv(kf: KeyOf, w: World, call: nat, cfg: SessionConfig)
    requires Inv(kf, w) && call !in w.calls
    ensures Inv(kf, Step(kf, w, Start(call, cfg)))
  {
    if cfg.sessionId !in w.table {
      AdoptingInv(kf, w, call, cfg);
    } else if !Foreign(w.table[cfg.sessionId], cfg.ownerId) && !Suits(w.table[cfg.sessionId], cfg) {
      HeldIsMade(kf, w, cfg.sessionId);
      DestroyInv(kf, w, Step(kf, w, Start(call, cfg)), w.table[cfg.sessionId].handle);
    }
  }

  lemma EndInv(kf: KeyOf, w: World, s: string, owner: Option<string>)
    requires Inv(kf, w)
    ensures Inv(kf, Step(kf, w, EndSession(s, owner)))
  {
    if s in w.table && !Foreign(w.table[s], owner) {
      HeldIsMade(kf, w, s);
      DestroyInv(kf, w, Step(kf, w, EndSession(s, owner)), w.table[s].handle);
    }
  }

  lemma HeldIsMade(kf: KeyOf, w: World, s: string)
    requires Inv(kf, w) && s in w.table
    ensures w.table[s].handle in w.made && w.table[s].handle !in w.pool.timers
  {
    assert Serves(kf, w, s);
    assert w.table[s].handle in w.pool.timers ==> Warm(kf, w, w.table[s].handle);
  }

  /** Every run keeps the invariant, and a destroyed handle stays destroyed. */
  lemma {:induction false} RunInv(kf: KeyOf, actions: seq<Action>)
    ensures Inv(kf, Run(kf, actions))
  {
    if actions != [] {
      RunInv(kf, actions[..|actions| - 1]);
      StepInv(kf, Run(kf, actions[..|actions| - 1]), actions[|actions| - 1]);
    }
  }
}
