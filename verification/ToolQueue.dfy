/**
 The tool queue of an environment handle (src/tools/index.ts, and again in
 src/harnesses/openai-agents/execEngine.ts): each call is chained on the promise of the one before it.
 */
module ToolQueue {
  import opened Text

  /** A handle is known by a number. */
  type Env = nat

  /**
   A chained call: its predecessor has not settled; the `catch` has, so the function is about to start; the
   function runs; its promise has settled.
   */
  datatype Stage = Waiting | Caught | Running | Settled(rejected: bool)

  /** `previous` is the call whose promise this one was chained on, if any. */
  datatype Call = Call(env: Env, previous: Option<nat>, stage: Stage)

  /** The calls in call order, and the newest promise of each handle. */
  datatype Queue = Queue(calls: seq<Call>, tails: map<Env, nat>)

  datatype Action = Serialize(env: Env) | CatchRuns(i: nat) | ThenRuns(i: nat) | Ends(i: nat, rejected: bool)

  const START := Queue([], map[])

  predicate IsSettled(q: Queue, i: nat) {
    i < |q.calls| && q.calls[i].stage.Settled?
  }

  /** A reaction runs once the promise it waits for has settled, fulfilled or rejected. */
  predicate Enabled(q: Queue, a: Action) {
    match a
    case Serialize(_) => true
    case CatchRuns(i) =>
      && i < |q.calls| && q.calls[i].stage.Waiting?
      && (q.calls[i].previous.Some? ==> IsSettled(q, q.calls[i].previous.value))
    case ThenRuns(i) => i < |q.calls| && q.calls[i].stage.Caught?
    case Ends(i, _) => i < |q.calls| && q.calls[i].stage.Running?
  }

  function Chained(q: Queue, env: Env): Queue {
    Queue(q.calls + [Call(env, if env in q.tails then Some(q.tails[env]) else None, Waiting)],
          q.tails[env := |q.calls|])
  }

  function Moved(q: Queue, i: nat, stage: Stage): Queue
    requires i < |q.calls|
  {
    q.(calls := q.calls[i := q.calls[i].(stage := stage)])
  }

  function Step(q: Queue, a: Action): Queue {
    if !Enabled(q, a) then q
    else match a
      case Serialize(env) => Chained(q, env)
      case CatchRuns(i) => Moved(q, i, Caught)
      case ThenRuns(i) => Moved(q, i, Running)
      case Ends(i, rejected) => Moved(q, i, Settled(rejected))
  }

  function Run(actions: seq<Action>): Queue {
    if actions == [] then START else Step(Run(actions[..|actions| - 1]), actions[|actions| - 1])
  }

  class ToolQueues {
    var calls: seq<Call>
    var queues: map<Env, nat>

    ghost function State(): Queue
      reads this
    {
      Queue(calls, queues)
    }

    constructor ()
      ensures State() == START
    {
      calls, queues := [], map[];
    }

    /** Chains a call and hands back its promise. */
    method Chain(env: Env) returns (next: nat)
      modifies this
      ensures State() == Step(old(State()), Serialize(env)) && next == |old(calls)|
      ensures |calls| == next + 1 && calls[..next] == old(calls)
      ensures calls[next].env == env && calls[next].stage == Waiting
    {
      var previous := if env in queues then Some(queues[env]) else None;
      next := |calls|;
      calls := calls + [Call(env, previous, Waiting)];
      queues := queues[env := next];
    }
  }

  // ----- What one step does -----

  /** A call only ever moves from waiting to caught, to running, to settled, one step at a time and each by its own. */
  lemma StagesFollow(q: Queue, a: Action, i: nat)
    requires i < |q.calls|
    ensures var n := Step(q, a);
            && i < |n.calls| && n.calls[i].env == q.calls[i].env && n.calls[i].previous == q.calls[i].previous
            && match n.calls[i].stage
               case Waiting => q.calls[i].stage.Waiting?
               case Caught => q.calls[i].stage.Caught? || (q.calls[i].stage.Waiting? && a == CatchRuns(i))
               case Running => q.calls[i].stage.Running? || (q.calls[i].stage.Caught? && a == ThenRuns(i))
               case Settled(rejected) =>
                 q.calls[i].stage == Settled(rejected) || (q.calls[i].stage.Running? && a == Ends(i, rejected))
  {
  }

  /** What is enabled happens. */
  lemma EnabledHappens(q: Queue, i: nat, rejected: bool)
    requires i < |q.calls|
    ensures Enabled(q, CatchRuns(i)) ==> Step(q, CatchRuns(i)).calls[i].stage == Caught
    ensures q.calls[i].stage.Caught? ==> Step(q, ThenRuns(i)).calls[i].stage == Running
    ensures q.calls[i].stage.Running? ==> Step(q, Ends(i, rejected)).calls[i].stage == Settled(rejected)
  {
  }

  function Serialized(actions: seq<Action>): seq<Env> {
    if actions == [] then []
    else
      var a := actions[|actions| - 1];
      Serialized(actions[..|actions| - 1]) + if a.Serialize? then [a.env] else []
  }

  /** In every run the calls are those that were made, in order, each on its own handle. */
  lemma {:induction false} CallsAreKept(actions: seq<Action>)
    ensures var calls, made := Run(actions).calls, Serialized(actions);
            |calls| == |made| && forall i | 0 <= i < |calls| :: calls[i].env == made[i]
  {
    if actions != [] {
      CallsAreKept(actions[..|actions| - 1]);
    }
  }

  // ----- What every interleaving keeps -----

  /** No call strictly between `lo` and `hi` is on the handle. */
  predicate NoneBetween(q: Queue, env: Env, lo: int, hi: nat) {
    forall k | lo < k < hi && 0 <= k < |q.calls| :: q.calls[k].env != env
  }

  predicate Linked(q: Queue, i: nat)
    requires i < |q.calls|
  {
    var c := q.calls[i];
    match c.previous
    case None => NoneBetween(q, c.env, -1, i)
    case Some(p) =>
      && p < i && q.calls[p].env == c.env && NoneBetween(q, c.env, p, i)
      && (!c.stage.Waiting? ==> IsSettled(q, p))
  }

  predicate TailOk(q: Queue, env: Env) {
    if env in q.tails
    then
      && q.tails[env] < |q.calls| && q.calls[q.tails[env]].env == env
      && NoneBetween(q, env, q.tails[env], |q.calls|)
    else NoneBetween(q, env, -1, |q.calls|)
  }

  ghost predicate Inv(q: Queue) {
    (forall i | 0 <= i < |q.calls| :: Linked(q, i)) && (forall env :: TailOk(q, env))
  }

  lemma ChainInv(q: Queue, env: Env)
    requires Inv(q)
    ensures Inv(Chained(q, env))
  {
    var n := Chained(q, env);
    assert TailOk(q, env);
    forall i | 0 <= i < |n.calls|
      ensures Linked(n, i)
    {
      if i < |q.calls| {
        assert Linked(q, i);
        assert n.calls[i] == q.calls[i];
        assert forall k | 0 <= k < |q.calls| :: n.calls[k] == q.calls[k];
      }
    }
    forall e
      ensures TailOk(n, e)
    {
      assert TailOk(q, e);
    }
  }

  lemma MoveInv(q: Queue, i: nat, stage: Stage)
    requires Inv(q) && i < |q.calls| && !q.calls[i].stage.Settled?
    requires q.calls[i].stage.Waiting? ==> (q.calls[i].previous.Some? ==> IsSettled(q, q.calls[i].previous.value))
    ensures Inv(Moved(q, i, stage))
  {
    var n := Moved(q, i, stage);
    forall j | 0 <= j < |n.calls|
      ensures Linked(n, j)
    {
      assert Linked(q, j);
      assert Linked(q, i);
    }
    forall e
      ensures TailOk(n, e)
    {
      assert TailOk(q, e);
    }
  }

  lemma {:induction false} RunInv(actions: seq<Action>)
    ensures Inv(Run(actions))
  {
    if actions != [] {
      var q, a := Run(actions[..|actions| - 1]), actions[|actions| - 1];
      RunInv(actions[..|actions| - 1]);
      if Enabled(q, a) {
        match a
        case Serialize(env) => ChainInv(q, env);
        case CatchRuns(i) => MoveInv(q, i, Caught);
        case ThenRuns(i) => MoveInv(q, i, Running);
        case Ends(i, rejected) => MoveInv(q, i, Settled(rejected));
      }
    }
  }

  /** A call past waiting, and the settled calls, have only settled calls before them on the handle. */
  lemma {:induction false} EarlierSettled(q: Queue, i: nat, j: nat)
    requires Inv(q) && j < i < |q.calls| && q.calls[j].env == q.calls[i].env && !q.calls[i].stage.Waiting?
    ensures IsSettled(q, j)
  {
    assert Linked(q, i);
    var p := q.calls[i].previous;
    if p.Some? && j != p.value {
      EarlierSettled(q, p.value, j);
    }
  }

  // ----- What a caller can rely on -----

  /** One call at a time runs on a handle, and calls run in call order. */
  lemma OneAtATimeInOrder(actions: seq<Action>, i: nat, j: nat)
    requires j < i < |Run(actions).calls| && Run(actions).calls[j].env == Run(actions).calls[i].env
    ensures var q := Run(actions);
            && !(q.calls[i].stage.Running? && q.calls[j].stage.Running?)
            && (!q.calls[i].stage.Waiting? ==> q.calls[j].stage.Settled?)
  {
    RunInv(actions);
    if !Run(actions).calls[i].stage.Waiting? {
      EarlierSettled(Run(actions), i, j);
    }
  }

  /**
   A waiting call can go ahead exactly when every earlier call on its own handle has settled, rejected or not;
   calls on other handles do not matter.
   */
  lemma GoesAheadOnItsTurn(actions: seq<Action>, i: nat)
    requires i < |Run(actions).calls| && Run(actions).calls[i].stage.Waiting?
    ensures var q := Run(actions);
            Enabled(q, CatchRuns(i)) <==>
              forall j | 0 <= j < i && q.calls[j].env == q.calls[i].env :: q.calls[j].stage.Settled?
  {
    var q := Run(actions);
    RunInv(actions);
    assert Linked(q, i);
    if Enabled(q, CatchRuns(i)) {
      forall j | 0 <= j < i && q.calls[j].env == q.calls[i].env
        ensures q.calls[j].stage.Settled?
      {
        var p := q.calls[i].previous;
        if p.Some? && j != p.value {
          EarlierSettled(q, p.value, j);
        }
      }
    }
  }

  /** Nothing is ever stuck: while a call is unsettled, some call of its handle can move. */
  lemma {:induction false} NeverStuck(actions: seq<Action>, i: nat)
    requires i < |Run(actions).calls| && !Run(actions).calls[i].stage.Settled?
    ensures exists j :: 0 <= j <= i && Run(actions).calls[j].env == Run(actions).calls[i].env
              && (Enabled(Run(actions), CatchRuns(j)) || Enabled(Run(actions), ThenRuns(j))
                  || Enabled(Run(actions), Ends(j, false)))
  {
    var q := Run(actions);
    if q.calls[i].stage.Waiting? && !Enabled(q, CatchRuns(i)) {
      RunInv(actions);
      assert Linked(q, i);
      NeverStuck(actions, q.calls[i].previous.value);
    }
  }

  lemma RunSnoc(actions: seq<Action>, a: Action)
    ensures Run(actions + [a]) == Step(Run(actions), a)
  {
    assert (actions + [a])[..|actions|] == actions;
  }

  /** From any point a call can be brought to run and settle, by reactions and ends alone. */
  lemma {:induction false} CanSettle(actions: seq<Action>, i: nat) returns (more: seq<Action>)
    requires i < |Run(actions).calls|
    ensures forall a | a in more :: !a.Serialize?
    ensures IsSettled(Run(actions + more), i)
    decreases i, 1
  {
    var first := CanGoAhead(actions, i);
    var rest := FromCaught(actions + first, i);
    more := first + rest;
    AppendAssociates(actions, first, rest);
  }

  /** It can get past waiting, once its predecessor has settled. */
  lemma {:induction false} CanGoAhead(actions: seq<Action>, i: nat) returns (more: seq<Action>)
    requires i < |Run(actions).calls|
    ensures forall a | a in more :: !a.Serialize?
    ensures i < |Run(actions + more).calls| && !Run(actions + more).calls[i].stage.Waiting?
    decreases i, 0
  {
    more := [];
    assert actions + more == actions;
    if Run(actions).calls[i].stage.Waiting? {
      var p := Run(actions).calls[i].previous;
      RunInv(actions);
      assert Linked(Run(actions), i);
      if p.Some? {
        more := CanSettle(actions, p.value);
      }
      StaysLinked(actions, more, i);
      if Run(actions + more).calls[i].stage.Waiting? {
        RunSnoc(actions + more, CatchRuns(i));
        AppendAssociates(actions, more, [CatchRuns(i)]);
        EnabledHappens(Run(actions + more), i, false);
        more := more + [CatchRuns(i)];
      }
    }
  }

  lemma {:induction false} StaysLinked(actions: seq<Action>, more: seq<Action>, i: nat)
    requires i < |Run(actions).calls|
    ensures i < |Run(actions + more).calls| && Run(actions + more).calls[i].previous == Run(actions).calls[i].previous
  {
    if more == [] {
      assert actions + more == actions;
    } else {
      var front, last := more[..|more| - 1], more[|more| - 1];
      StaysLinked(actions, front, i);
      assert actions + more == actions + front + [last];
      RunSnoc(actions + front, last);
      StagesFollow(Run(actions + front), last, i);
    }
  }

  lemma FromCaught(actions: seq<Action>, i: nat) returns (more: seq<Action>)
    requires i < |Run(actions).calls| && !Run(actions).calls[i].stage.Waiting?
    ensures forall a | a in more :: !a.Serialize?
    ensures IsSettled(Run(actions + more), i)
  {
    var q := Run(actions);
    more := [];
    assert actions + more == actions;
    if q.calls[i].stage.Caught? {
      EnabledHappens(q, i, false);
      RunSnoc(actions, ThenRuns(i));
      more := [ThenRuns(i)];
    }
    if !IsSettled(Run(actions + more), i) {
      EnabledHappens(Run(actions + more), i, false);
      RunSnoc(actions + more, Ends(i, false));
      AppendAssociates(actions, more, [Ends(i, false)]);
      more := more + [Ends(i, false)];
    }
  }
}
