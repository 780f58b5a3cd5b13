/** The session manager (src/kernel/session.ts), in the same stretches between `await`s as the pool. */
module Sessions {
  import opened Text
  import opened Identity
  import opened Pool

  datatype SessionState = SessionState(handle: Handle, environmentRef: string, runtimeProfile: Option<string>,
        ownerId: Option<string>)

  datatype SessionConfig = SessionConfig(sessionId: string, ownerId: Option<string>, environment: string,
        runtimeProfile: Option<string>, projectId: Option<string>, source: Option<Source>)

  type Table = map<string, SessionState>

  /** Where a call of `ensureWorkspace` stands at its next `await` or at its end. */
  datatype Progress = Refused | Have(handle: Handle) | Destroying(handle: Handle) | NeedsProvision

  /** Both sides name an owner, and not the same one. */
  predicate Foreign(st: SessionState, caller: Option<string>) {
    && caller.Some? && caller.value != ""
    && st.ownerId.Some? && st.ownerId.value != ""
    && st.ownerId != caller
  }

  predicate Named(ownerId: Option<string>) {
    ownerId.Some? && ownerId.value != ""
  }

  /** Caller and entry name different owners. */
  predicate Strangers(st: SessionState, caller: Option<string>) {
    Named(caller) && Named(st.ownerId) && caller.value != st.ownerId.value
  }

  function IdentityOf(cfg: SessionConfig): PrewarmIdentity {
    PrewarmIdentity(cfg.ownerId, cfg.environment, cfg.runtimeProfile, cfg.projectId,
                    Some(if cfg.source.Some? then cfg.source.value else Files(0)))
  }

  function Entry(cfg: SessionConfig, h: Handle): SessionState {
    SessionState(h, cfg.environment, cfg.runtimeProfile, cfg.ownerId)
  }

  predicate Suits(st: SessionState, cfg: SessionConfig) {
    st.environmentRef == cfg.environment && st.runtimeProfile == cfg.runtimeProfile
  }

  /** Drops the session's old entry and adopts a warm handle kept under `key`, if there is one. */
  function AdoptedTable(table: Table, p: PoolState, cfg: SessionConfig, key: string): Table {
    if ReadyOf(p, key) == [] then table - {cfg.sessionId}
    else table[cfg.sessionId := Entry(cfg, ReadyOf(p, key)[0])]
  }

  function AdoptProgress(p: PoolState, key: string): Progress {
    if ReadyOf(p, key) == [] then NeedsProvision else Have(ReadyOf(p, key)[0])
  }

  function StartProgress(table: Table, p: PoolState, cfg: SessionConfig, key: string): Progress {
    if cfg.sessionId !in table then AdoptProgress(p, key)
    else
      var st := table[cfg.sessionId];
      if Foreign(st, cfg.ownerId) then Refused
      else if Suits(st, cfg) then Have(st.handle)
      else Destroying(st.handle)
  }

  function GetProgress(table: Table, sessionId: string, ownerId: Option<string>): Progress {
    if sessionId !in table then NeedsProvision
    else if Foreign(table[sessionId], ownerId) then Refused
    else Have(table[sessionId].handle)
  }

  class SessionManager {
    var sessions: Table
    const pool: PrewarmPool

    constructor (pool: PrewarmPool)
      ensures sessions == map[] && this.pool == pool
    {
      sessions := map[];
      this.pool := pool;
    }

    /** `ensureWorkspace` up to its first `await`, or to its end when there is none. */
    method Start(cfg: SessionConfig) returns (next: Progress)
      modifies this, pool
      ensures next == StartProgress(old(sessions), old(pool.State()), cfg, PrewarmKey(IdentityOf(cfg)))
      ensures cfg.sessionId in old(sessions) ==> sessions == old(sessions) && pool.State() == old(pool.State())
      ensures cfg.sessionId !in old(sessions) ==>
                && sessions == AdoptedTable(old(sessions), old(pool.State()), cfg, PrewarmKey(IdentityOf(cfg)))
                && pool.State() == Claimed(old(pool.State()), PrewarmKey(IdentityOf(cfg)))
      ensures next.Refused? <==> cfg.sessionId in old(sessions) && Strangers(old(sessions)[cfg.sessionId], cfg.ownerId)
      ensures cfg.sessionId in old(sessions) && next.Have? ==>
                var st := old(sessions)[cfg.sessionId];
                && next.handle == st.handle
                && st.environmentRef == cfg.environment && st.runtimeProfile == cfg.runtimeProfile
      ensures cfg.sessionId in old(sessions) && next.Destroying? ==>
                var st := old(sessions)[cfg.sessionId];
                && next.handle == st.handle
                && (st.environmentRef != cfg.environment || st.runtimeProfile != cfg.runtimeProfile)
    {
      if cfg.sessionId in sessions {
        var existing := sessions[cfg.sessionId];
        if Foreign(existing, cfg.ownerId) {
          return Refused;
        }
        if existing.environmentRef == cfg.environment && existing.runtimeProfile == cfg.runtimeProfile {
          return Have(existing.handle);
        }
        return Destroying(existing.handle);
      }
      next := Adopt(cfg);
    }

    /** `ensureWorkspace` after the old workspace is destroyed, up to the provision or its end. */
    method Adopt(cfg: SessionConfig) returns (next: Progress)
      modifies this, pool
      ensures next == AdoptProgress(old(pool.State()), PrewarmKey(IdentityOf(cfg)))
      ensures sessions == AdoptedTable(old(sessions), old(pool.State()), cfg, PrewarmKey(IdentityOf(cfg)))
      ensures pool.State() == Claimed(old(pool.State()), PrewarmKey(IdentityOf(cfg)))
    {
      sessions := sessions - {cfg.sessionId};
      var claimed := pool.Claim(IdentityOf(cfg));
      if claimed.None? {
        return NeedsProvision;
      }
      sessions := sessions[cfg.sessionId := Entry(cfg, claimed.value)];
      return Have(claimed.value);
    }

    /** `ensureWorkspace` after its own provision has succeeded. */
    method Complete(cfg: SessionConfig, handle: Handle)
      modifies this
      ensures sessions == old(sessions)[cfg.sessionId := Entry(cfg, handle)]
    {
      sessions := sessions[cfg.sessionId := Entry(cfg, handle)];
    }

    method Get(sessionId: string, ownerId: Option<string>) returns (found: Progress)
      ensures found == GetProgress(sessions, sessionId, ownerId)
      ensures found.Refused? <==> sessionId in sessions && Strangers(sessions[sessionId], ownerId)
      ensures found.Have? <==> sessionId in sessions && !Strangers(sessions[sessionId], ownerId)
      ensures found.Have? ==> found.handle == sessions[sessionId].handle
    {
      if sessionId !in sessions {
        return NeedsProvision;
      }
      if Foreign(sessions[sessionId], ownerId) {
        return Refused;
      }
      return Have(sessions[sessionId].handle);
    }

    /** Ends a session; the handle handed back is destroyed. */
    method End(sessionId: string, ownerId: Option<string>) returns (ended: Progress)
      modifies this
      ensures sessionId in old(sessions) && !Foreign(old(sessions)[sessionId], ownerId) ==>
                ended == Destroying(old(sessions)[sessionId].handle) && sessions == old(sessions) - {sessionId}
      ensures !(sessionId in old(sessions) && !Foreign(old(sessions)[sessionId], ownerId)) ==>
                ended in {NeedsProvision, Refused} && sessions == old(sessions)
      ensures ended.Refused? <==> sessionId in old(sessions) && Strangers(old(sessions)[sessionId], ownerId)
      ensures ended.Destroying? <==> sessionId in old(sessions) && !Strangers(old(sessions)[sessionId], ownerId)
      ensures sessionId in sessions <==> sessionId in old(sessions) && Strangers(old(sessions)[sessionId], ownerId)
    {
      if sessionId !in sessions {
        return NeedsProvision;
      }
      var st := sessions[sessionId];
      if Foreign(st, ownerId) {
        return Refused;
      }
      sessions := sessions - {sessionId};
      return Destroying(st.handle);
    }
  }
}
