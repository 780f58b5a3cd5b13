/**
 The warm pool (src/kernel/prewarmPool.ts). A method is one stretch of code between two `await`s, so
 interleavings are sequences of these methods. A handle is known by a number; its TTL timer is armed while
 the handle is a key of `timers`.
 */
module Pool {
  import opened Text
  import opened Identity

  type Handle = nat

  datatype PoolState = PoolState(ready: map<string, seq<Handle>>, inflight: map<string, nat>,
        timers: map<Handle, string>)

  datatype Status = Status(key: string, ready: nat, provisioning: nat, target: int)

  const EMPTY := PoolState(map[], map[], map[])

  function ReadyOf(p: PoolState, key: string): seq<Handle> {
    if key in p.ready then p.ready[key] else []
  }

  function InflightOf(p: PoolState, key: string): nat {
    if key in p.inflight then p.inflight[key] else 0
  }

  /** How many provisions `ensure` starts. */
  function Want(p: PoolState, key: string, target: int): nat {
    var short := target - |ReadyOf(p, key)| - InflightOf(p, key);
    if short > 0 then short else 0
  }

  function Ensured(p: PoolState, key: string, target: int, resolves: bool): PoolState {
    if Want(p, key, target) == 0 then p
    else p.(inflight := p.inflight[key := InflightOf(p, key) + if resolves then Want(p, key, target) else 0])
  }

  function Finished(p: PoolState, key: string): PoolState {
    var n := if key in p.inflight then p.inflight[key] else 1;
    p.(inflight := p.inflight[key := if n > 0 then n - 1 else 0])
  }

  function Stocked(p: PoolState, key: string, h: Handle): PoolState {
    Finished(p.(ready := p.ready[key := ReadyOf(p, key) + [h]], timers := p.timers[h := key]), key)
  }

  /** The ready lists without position `i` of `key`; an emptied list is dropped. */
  function Unlisted(p: PoolState, key: string, i: nat): map<string, seq<Handle>>
    requires i < |ReadyOf(p, key)|
  {
    var list := ReadyOf(p, key)[..i] + ReadyOf(p, key)[i + 1..];
    if list == [] then p.ready - {key} else p.ready[key := list]
  }

  function Claimed(p: PoolState, key: string): PoolState {
    if ReadyOf(p, key) == [] then p
    else PoolState(Unlisted(p, key, 0), p.inflight, p.timers - {ReadyOf(p, key)[0]})
  }

  function Position(list: seq<Handle>, h: Handle): (i: int)
    ensures -1 <= i < |list|
    ensures i >= 0 ==> list[i] == h
    ensures i == -1 ==> h !in list
  {
    if list == [] then -1
    else if list[0] == h then 0
    else
      var i := Position(list[1..], h);
      if i == -1 then -1 else i + 1
  }

  function Evicted(p: PoolState, key: string, h: Handle): PoolState {
    var i := Position(ReadyOf(p, key), h);
    PoolState(if i == -1 then p.ready else Unlisted(p, key, i), p.inflight, p.timers - {h})
  }

  function Listed(p: PoolState): set<Handle> {
    set key, h | key in p.ready && h in p.ready[key] :: h
  }

  function Drained(p: PoolState): PoolState {
    PoolState(map[], map[], p.timers - Listed(p))
  }

  class PrewarmPool {
    var ready: map<string, seq<Handle>>
    var inflight: map<string, nat>
    var timers: map<Handle, string>

    ghost function State(): PoolState
      reads this
    {
      PoolState(ready, inflight, timers)
    }

    constructor ()
      ensures State() == EMPTY
    {
      ready, inflight, timers := map[], map[], map[];
    }

    /**
     `started` provisions are left running in the background. With `resolves` false the environment
     reference is unknown, and each provision fails before its first `await`.
     */
    method Ensure(id: PrewarmIdentity, target: int, resolves: bool) returns (status: Status, started: nat)
      modifies this
      ensures State() == Ensured(old(State()), PrewarmKey(id), target, resolves)
      ensures started == if resolves then Want(old(State()), PrewarmKey(id), target) else 0
      ensures var key := PrewarmKey(id);
              status == Status(key, |ReadyOf(old(State()), key)|,
                               InflightOf(old(State()), key) + Want(old(State()), key, target), target)
    {
      var key := PrewarmKey(id);
      var have := |ReadyOf(PoolState(ready, inflight, timers), key)|;
      var pending := if key in inflight then inflight[key] else 0;
      var want := if target - have - pending > 0 then target - have - pending else 0;
      started := 0;
      for i := 0 to want
        invariant ready == old(ready) && timers == old(timers)
        invariant started == if resolves then i else 0
        invariant inflight == if i == 0 then old(inflight) else old(inflight)[key := pending + started]
      {
        inflight := inflight[key := (if key in inflight then inflight[key] else 0) + 1];
        if resolves {
          started := started + 1;
        } else {
          Settle(key);
        }
      }
      status := Status(key, have, pending + want, target);
    }

    /** The `finally` of a provision. */
    method Settle(key: string)
      modifies this`inflight
      ensures State() == Finished(old(State()), key)
    {
      var n := if key in inflight then inflight[key] else 1;
      inflight := inflight[key := if n > 0 then n - 1 else 0];
    }

    /** A background provision ends: with a handle, which is listed and its timer armed, or without. */
    method ProvisionEnds(key: string, handle: Option<Handle>)
      modifies this
      ensures State() == if handle.Some? then Stocked(old(State()), key, handle.value) else Finished(old(State()), key)
    {
      if handle.Some? {
        timers := timers[handle.value := key];
        var list := if key in ready then ready[key] else [];
        ready := ready[key := list + [handle.value]];
      }
      Settle(key);
    }

    method Claim(id: PrewarmIdentity) returns (handle: Option<Handle>)
      modifies this
      ensures State() == Claimed(old(State()), PrewarmKey(id))
      ensures var list := ReadyOf(old(State()), PrewarmKey(id));
              handle == if list == [] then None else Some(list[0])
    {
      var key := PrewarmKey(id);
      if key !in ready || |ready[key]| == 0 {
        return None;
      }
      var list := ready[key];
      handle := Some(list[0]);
      list := list[1..];
      assert list == ready[key][..0] + ready[key][0 + 1..];
      timers := timers - {handle.value};
      if |list| == 0 {
        ready := ready - {key};
      } else {
        ready := ready[key := list];
      }
    }

    /** A fired TTL timer: the handle leaves the pool and is destroyed, listed or not. */
    method Evict(key: string, handle: Handle) returns (destroyed: Handle)
      modifies this
      ensures State() == Evicted(old(State()), key, handle)
      ensures destroyed == handle
    {
      if key in ready {
        var idx := Position(ready[key], handle);
        if idx >= 0 {
          var list := ready[key][..idx] + ready[key][idx + 1..];
          if |list| == 0 {
            ready := ready - {key};
          } else {
            ready := ready[key := list];
          }
        }
      }
      timers := timers - {handle};
      destroyed := handle;
    }

    /** Empties the pool and hands back what it held, to be destroyed; the in-flight counters are forgotten. */
    method DestroyAll() returns (destroyed: set<Handle>)
      modifies this
      ensures State() == Drained(old(State()))
      ensures destroyed == Listed(old(State()))
    {
      destroyed := set key, h | key in ready && h in ready[key] :: h;
      ready, inflight := map[], map[];
      timers := timers - destroyed;
    }
  }

  // ----- First come, first served -----

  function StockAll(p: PoolState, key: string, handles: seq<Handle>): PoolState {
    if handles == [] then p
    else Stocked(StockAll(p, key, handles[..|handles| - 1]), key, handles[|handles| - 1])
  }

  function ClaimAll(p: PoolState, key: string, n: nat): PoolState {
    if n == 0 then p else Claimed(ClaimAll(p, key, n - 1), key)
  }

  lemma {:induction false} StockedWait(p: PoolState, key: string, handles: seq<Handle>, k: string)
    ensures ReadyOf(StockAll(p, key, handles), k) == ReadyOf(p, k) + if k == key then handles else []
  {
    if handles == [] {
      assert ReadyOf(p, k) + handles == ReadyOf(p, k) + [] == ReadyOf(p, k);
    } else {
      var front, last := handles[..|handles| - 1], handles[|handles| - 1];
      StockedWait(p, key, front, k);
      AppendAssociates(ReadyOf(p, k), front, [last]);
      assert handles == front + [last];
    }
  }

  lemma {:induction false} ClaimsTakeFirst(p: PoolState, key: string, n: nat, k: string)
    requires n <= |ReadyOf(p, key)|
    ensures ReadyOf(ClaimAll(p, key, n), k) == if k == key then ReadyOf(p, k)[n..] else ReadyOf(p, k)
  {
    if n > 0 {
      var q := ClaimAll(p, key, n - 1);
      ClaimsTakeFirst(p, key, n - 1, k);
      ClaimsTakeFirst(p, key, n - 1, key);
      ClaimTakesFirst(q, key, k);
      assert ReadyOf(p, key)[n - 1..][1..] == ReadyOf(p, key)[n..];
    }
  }

  lemma ClaimTakesFirst(p: PoolState, key: string, k: string)
    requires ReadyOf(p, key) != []
    ensures ReadyOf(Claimed(p, key), k) == if k == key then ReadyOf(p, k)[1..] else ReadyOf(p, k)
  {
    UnlistMoves(p, key, 0, k);
    assert ReadyOf(p, key)[..0] + ReadyOf(p, key)[1..] == ReadyOf(p, key)[1..];
  }

  /** Handles are claimed in the order in which their provisions ended, after those that were waiting before. */
  lemma FirstComeFirstServed(p: PoolState, key: string, handles: seq<Handle>, i: nat)
    requires i < |handles|
    ensures var q := ClaimAll(StockAll(p, key, handles), key, |ReadyOf(p, key)| + i);
            ReadyOf(q, key) != [] && ReadyOf(q, key)[0] == handles[i]
  {
    StockedWait(p, key, handles, key);
    NextAfter(StockAll(p, key, handles), key, ReadyOf(p, key), handles, i);
  }

  lemma NextAfter(p: PoolState, key: string, a: seq<Handle>, b: seq<Handle>, i: nat)
    requires ReadyOf(p, key) == a + b && i < |b|
    ensures var q := ClaimAll(p, key, |a| + i);
            ReadyOf(q, key) != [] && ReadyOf(q, key)[0] == b[i]
  {
    var list, rest := ReadyOf(p, key), ReadyOf(ClaimAll(p, key, |a| + i), key);
    assert rest == list[|a| + i..] by {
      ClaimsTakeFirst(p, key, |a| + i, key);
    }
    BehindFront(list, rest, a, b, i);
  }

  lemma BehindFront<T>(list: seq<T>, rest: seq<T>, a: seq<T>, b: seq<T>, i: nat)
    requires i < |b| && list == a + b && rest == list[|a| + i..]
    ensures rest != [] && rest[0] == b[i]
  {
  }

  // ----- What every stretch of code keeps -----

  predicate Distinct(list: seq<Handle>) {
    forall i, j | 0 <= i < j < |list| :: list[i] != list[j]
  }

  /** A timer is armed exactly for the listed handles, and no handle is listed twice. */
  ghost predicate PoolOk(p: PoolState) {
    && (forall key, h | h in ReadyOf(p, key) :: h in p.timers && p.timers[h] == key)
    && (forall h | h in p.timers :: h in ReadyOf(p, p.timers[h]))
    && (forall key :: Distinct(ReadyOf(p, key)))
  }

  lemma EnsureKeeps(p: PoolState, key: string, target: int, resolves: bool)
    requires PoolOk(p)
    ensures PoolOk(Ensured(p, key, target, resolves))
  {
    var q := Ensured(p, key, target, resolves);
    assert forall k :: ReadyOf(q, k) == ReadyOf(p, k);
  }

  lemma FinishKeeps(p: PoolState, key: string)
    requires PoolOk(p)
    ensures PoolOk(Finished(p, key))
  {
    var q := Finished(p, key);
    assert forall k :: ReadyOf(q, k) == ReadyOf(p, k);
  }

  lemma StockKeeps(p: PoolState, key: string, h: Handle)
    requires PoolOk(p) && h !in p.timers
    ensures PoolOk(Stocked(p, key, h))
  {
    var q := Stocked(p, key, h);
    assert forall k :: ReadyOf(q, k) == if k == key then ReadyOf(p, key) + [h] else ReadyOf(p, k);
    assert h !in ReadyOf(p, key);
    forall k
      ensures Distinct(ReadyOf(q, k))
    {
      assert Distinct(ReadyOf(p, k));
      DistinctOneMore(ReadyOf(p, key), h);
    }
  }

  lemma DistinctOneMore(list: seq<Handle>, h: Handle)
    ensures Distinct(list) && h !in list ==> Distinct(list + [h])
  {
  }

  lemma UnlistLeaves(p: PoolState, key: string, i: nat)
    requires PoolOk(p) && i < |ReadyOf(p, key)|
    ensures var list := ReadyOf(p, key);
            var rest := list[..i] + list[i + 1..];
            && Distinct(rest) && forall h :: h in rest <==> h in list && h != list[i]
  {
    var list := ReadyOf(p, key);
    var rest := list[..i] + list[i + 1..];
    assert Distinct(list);
    forall h
      ensures h in rest <==> h in list && h != list[i]
    {
      if h in list && h != list[i] {
        var j :| 0 <= j < |list| && list[j] == h;
        assert h == if j < i then rest[j] else rest[j - 1];
      }
    }
  }

  lemma UnlistMoves(p: PoolState, key: string, i: nat, k: string)
    requires i < |ReadyOf(p, key)|
    ensures var list := ReadyOf(p, key);
            ReadyOf(p.(ready := Unlisted(p, key, i)), k) ==
              if k == key then list[..i] + list[i + 1..] else ReadyOf(p, k)
  {
    var q := p.(ready := Unlisted(p, key, i));
    if k == key {
      assert ReadyOf(q, k) == ReadyOf(p, key)[..i] + ReadyOf(p, key)[i + 1..];
    } else {
      assert k in q.ready <==> k in p.ready;
    }
  }

  /** The listed handles lose just the one at position `i`. */
  lemma UnlistListed(p: PoolState, key: string, i: nat, q: PoolState, k: string, h: Handle)
    requires PoolOk(p) && i < |ReadyOf(p, key)| && q.ready == Unlisted(p, key, i)
    ensures h in ReadyOf(q, k) <==> h in ReadyOf(p, k) && h != ReadyOf(p, key)[i]
  {
    UnlistMoves(p, key, i, k);
    if k == key {
      UnlistLeaves(p, key, i);
    } else {
      var out := ReadyOf(p, key)[i];
      assert out in ReadyOf(p, key) && p.timers[out] == key;
      assert ReadyOf(q, k) == ReadyOf(p, k);
      assert forall g | g in ReadyOf(p, k) :: g in p.timers && p.timers[g] == k;
    }
  }

  lemma UnlistDistinct(p: PoolState, key: string, i: nat, q: PoolState, k: string)
    requires PoolOk(p) && i < |ReadyOf(p, key)| && q.ready == Unlisted(p, key, i)
    ensures Distinct(ReadyOf(q, k))
  {
    UnlistMoves(p, key, i, k);
    UnlistLeaves(p, key, i);
    assert Distinct(ReadyOf(p, k));
  }

  lemma UnlistTimers(p: PoolState, key: string, i: nat, q: PoolState)
    requires PoolOk(p) && i < |ReadyOf(p, key)|
    requires q == PoolState(Unlisted(p, key, i), p.inflight, p.timers - {ReadyOf(p, key)[i]})
    ensures forall k, h | h in ReadyOf(q, k) :: h in q.timers && q.timers[h] == k
    ensures forall h | h in q.timers :: h in ReadyOf(q, q.timers[h])
  {
    forall k, h | h in ReadyOf(q, k)
      ensures h in q.timers && q.timers[h] == k
    {
      UnlistListed(p, key, i, q, k, h);
    }
    forall h | h in q.timers
      ensures h in ReadyOf(q, q.timers[h])
    {
      UnlistListed(p, key, i, q, p.timers[h], h);
    }
  }

  lemma UnlistKeeps(p: PoolState, key: string, i: nat, q: PoolState)
    requires PoolOk(p) && i < |ReadyOf(p, key)|
    requires q == PoolState(Unlisted(p, key, i), p.inflight, p.timers - {ReadyOf(p, key)[i]})
    ensures PoolOk(q)
  {
    UnlistTimers(p, key, i, q);
    forall k
      ensures Distinct(ReadyOf(q, k))
    {
      UnlistDistinct(p, key, i, q, k);
    }
  }

  lemma ClaimKeeps(p: PoolState, key: string)
    requires PoolOk(p)
    ensures PoolOk(Claimed(p, key))
  {
    if ReadyOf(p, key) != [] {
      UnlistKeeps(p, key, 0, Claimed(p, key));
    }
  }

  lemma EvictKeeps(p: PoolState, h: Handle)
    requires PoolOk(p) && h in p.timers
    ensures PoolOk(Evicted(p, p.timers[h], h))
  {
    var key := p.timers[h];
    var i := Position(ReadyOf(p, key), h);
    assert h in ReadyOf(p, key);
    UnlistKeeps(p, key, i, Evicted(p, key, h));
  }

  lemma DrainKeeps(p: PoolState)
    requires PoolOk(p)
    ensures Drained(p).timers == map[] && Listed(p) == p.timers.Keys && PoolOk(Drained(p))
  {
    forall h
      ensures h in Listed(p) <==> h in p.timers
    {
      if h in Listed(p) {
        var key :| key in p.ready && h in p.ready[key];
        assert h in ReadyOf(p, key);
      }
      if h in p.timers {
        assert h in ReadyOf(p, p.timers[h]);
      }
    }
  }
}
