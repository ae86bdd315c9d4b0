/**
 `get_pool` and `close_pool` (backend/db/connection.py and control-plane/db/connection.py):
 double-checked creation under an asyncio lock, by any number of tasks.  A step is what a task
 does between two awaits; creating and closing a pool may fail or be cancelled.
 */
module ConnectionPool {
  import opened Text

  type Task = nat
  type Pool = nat

  /** What a task inside one of the two functions awaits. */
  datatype Await = GetLock | Creation | CloseLock | Closure

  /** `live` are the pools that hold connections, `created` how many were ever made. */
  datatype State = State(current: Option<Pool>, holder: Option<Task>, tasks: map<Task, Await>,
                         created: nat, live: set<Pool>, returned: seq<Pool>)

  datatype Event =
    | GetCall(task: Task)
    | GetLocked(task: Task)
    | CreationDone(task: Task)
    | CreationFailed(task: Task)
    | CloseCall(task: Task)
    | CloseLocked(task: Task)
    | ClosureDone(task: Task)
    | ClosureFailed(task: Task, terminated: bool)
    | Cancelled(task: Task)

  const INIT: State := State(None, None, map[], 0, {}, [])

  predicate At(s: State, task: Task, await: Await) { task in s.tasks && s.tasks[task] == await }

  predicate Enabled(s: State, e: Event) {
    match e
    case GetCall(t) => t !in s.tasks
    case GetLocked(t) => At(s, t, GetLock) && s.holder == None
    case CreationDone(t) => At(s, t, Creation)
    case CreationFailed(t) => At(s, t, Creation)
    case CloseCall(t) => t !in s.tasks
    case CloseLocked(t) => At(s, t, CloseLock) && s.holder == None
    case ClosureDone(t) => At(s, t, Closure)
    case ClosureFailed(t, _) => At(s, t, Closure)
    case Cancelled(t) => At(s, t, GetLock) || At(s, t, CloseLock)
  }

  function Leave(s: State, t: Task): State { s.(tasks := s.tasks - {t}) }

  function Step(s: State, e: Event): State
    requires Enabled(s, e)
  {
    match e
    case GetCall(t) =>
      if s.current.Some? then s.(returned := s.returned + [s.current.value])
      else s.(tasks := s.tasks[t := GetLock])
    case GetLocked(t) =>
      if s.current.None? then s.(holder := Some(t), tasks := s.tasks[t := Creation])
      else Leave(s, t).(returned := s.returned + [s.current.value])
    case CreationDone(t) =>
      Leave(s, t).(current := Some(s.created), holder := None, created := s.created + 1,
                   live := s.live + {s.created}, returned := s.returned + [s.created])
    case CreationFailed(t) => Leave(s, t).(holder := None)
    case CloseCall(t) => s.(tasks := s.tasks[t := CloseLock])
    case CloseLocked(t) =>
      if s.current.Some? then s.(holder := Some(t), tasks := s.tasks[t := Closure]) else Leave(s, t)
    case ClosureDone(t) =>
      Leave(s, t).(current := None, holder := None,
                   live := if s.current.Some? then s.live - {s.current.value} else s.live)
    case ClosureFailed(t, terminated) =>
      Leave(s, t).(holder := None,
                   live := if terminated && s.current.Some? then s.live - {s.current.value} else s.live)
    case Cancelled(t) => Leave(s, t)
  }

  // ---------------------------------------------------------------- the module's two functions

  /** The module globals `_pool` and `_pool_lock`, and the tasks inside its functions. */
  class PoolModule {
    var current: Option<Pool>
    var holder: Option<Task>
    var tasks: map<Task, Await>
    var created: nat
    var live: set<Pool>
    var returned: seq<Pool>

    function View(): State
      reads this
    {
      State(current, holder, tasks, created, live, returned)
    }

    constructor ()
      ensures View() == INIT
    {
      current, holder, tasks, created, live, returned := None, None, map[], 0, {}, [];
    }

    /** `get_pool` up to the lock. */
    method GetPool(t: Task)
      requires Enabled(View(), GetCall(t))
      modifies this
      ensures View() == Step(old(View()), GetCall(t))
    {
      if current.Some? {
        returned := returned + [current.value];
        return;
      }
      tasks := tasks[t := GetLock];
    }

    /** The second check, with the lock held. */
    method GetPoolLocked(t: Task)
      requires Enabled(View(), GetLocked(t))
      modifies this
      ensures View() == Step(old(View()), GetLocked(t))
    {
      if current.None? {
        holder := Some(t);
        tasks := tasks[t := Creation];
      } else {
        tasks := tasks - {t};
        returned := returned + [current.value];
      }
    }

    method PoolCreated(t: Task)
      requires Enabled(View(), CreationDone(t))
      modifies this
      ensures View() == Step(old(View()), CreationDone(t))
    {
      current := Some(created);
      live := live + {created};
      returned := returned + [created];
      created := created + 1;
      holder := None;
      tasks := tasks - {t};
    }

    method PoolNotCreated(t: Task)
      requires Enabled(View(), CreationFailed(t))
      modifies this
      ensures View() == Step(old(View()), CreationFailed(t))
    {
      holder := None;
      tasks := tasks - {t};
    }

    method ClosePool(t: Task)
      requires Enabled(View(), CloseCall(t))
      modifies this
      ensures View() == Step(old(View()), CloseCall(t))
    {
      tasks := tasks[t := CloseLock];
    }

    method ClosePoolLocked(t: Task)
      requires Enabled(View(), CloseLocked(t))
      modifies this
      ensures View() == Step(old(View()), CloseLocked(t))
    {
      if current.Some? {
        holder := Some(t);
        tasks := tasks[t := Closure];
      } else {
        tasks := tasks - {t};
      }
    }

    method PoolClosed(t: Task)
      requires Enabled(View(), ClosureDone(t))
      modifies this
      ensures View() == Step(old(View()), ClosureDone(t))
    {
      if current.Some? {
        live := live - {current.value};
      }
      current := None;
      holder := None;
      tasks := tasks - {t};
    }

    method PoolNotClosed(t: Task, terminated: bool)
      requires Enabled(View(), ClosureFailed(t, terminated))
      modifies this
      ensures View() == Step(old(View()), ClosureFailed(t, terminated))
    {
      if terminated && current.Some? {
        live := live - {current.value};
      }
      holder := None;
      tasks := tasks - {t};
    }

    method WaitCancelled(t: Task)
      requires Enabled(View(), Cancelled(t))
      modifies this
      ensures View() == Step(old(View()), Cancelled(t))
    {
      tasks := tasks - {t};
    }
  }

  // ---------------------------------------------------------------- every reachable state

  ghost predicate Behaviour(ss: seq<State>, es: seq<Event>) {
    && |ss| == |es| + 1
    && ss[0] == INIT
    && forall k :: 0 <= k < |es| ==> Follows(ss, es, k)
  }

  /** The k-th step can happen and leads to the next state. */
  ghost predicate Follows(ss: seq<State>, es: seq<Event>, k: nat)
    requires k < |es| < |ss|
  {
    Enabled(ss[k], es[k]) && ss[k + 1] == Step(ss[k], es[k])
  }

  /** The lock protects: who is inside, and what they found there. */
  predicate Locked(s: State) {
    && (forall t :: t in s.tasks && s.tasks[t] in {Creation, Closure} ==> s.holder == Some(t))
    && (s.holder.Some? ==> s.holder.value in s.tasks && s.tasks[s.holder.value] in {Creation, Closure})
    && (forall t :: t in s.tasks && s.tasks[t] == Creation ==> s.current.None?)
    && (forall t :: t in s.tasks && s.tasks[t] == Closure ==> s.current.Some?)
  }

  /** Of the pools ever created, only the current one may be open. */
  predicate OnlyCurrentOpen(s: State) {
    && (s.current.Some? ==> s.current.value < s.created)
    && forall p :: p in s.live ==> s.current == Some(p)
  }

  lemma StepKeepsLock(s: State, e: Event)
    requires Locked(s) && Enabled(s, e)
    ensures Locked(Step(s, e))
  {
  }

  lemma StepKeepsPools(s: State, e: Event)
    requires Locked(s) && OnlyCurrentOpen(s) && Enabled(s, e)
    ensures OnlyCurrentOpen(Step(s, e))
  {
  }

  lemma {:induction false} ReachableStatesAreGood(ss: seq<State>, es: seq<Event>, k: nat)
    requires Behaviour(ss, es) && k < |ss|
    ensures Locked(ss[k]) && OnlyCurrentOpen(ss[k])
  {
    if k == 0 {
    } else {
      ReachableStatesAreGood(ss, es, k - 1);
      assert Follows(ss, es, k - 1);
      StepKeepsLock(ss[k - 1], es[k - 1]);
      StepKeepsPools(ss[k - 1], es[k - 1]);
    }
  }

  /** In every reachable state at most one pool is open, and any pool that is not current is closed. */
  lemma AtMostOnePoolOpen(ss: seq<State>, es: seq<Event>, k: nat)
    requires Behaviour(ss, es) && k < |ss|
    ensures |ss[k].live| <= 1
    ensures forall p :: 0 <= p < ss[k].created ==> ss[k].current == Some(p) || p !in ss[k].live
  {
    ReachableStatesAreGood(ss, es, k);
    var s := ss[k];
    if s.current.Some? {
      assert s.live <= {s.current.value};
      assert s.live == {} || s.live == {s.current.value};
    } else {
      assert s.live == {};
    }
  }

  /** A pool is created only while none is open: the second check under the lock is enough. */
  lemma CreationMeetsNoOpenPool(ss: seq<State>, es: seq<Event>, k: nat)
    requires Behaviour(ss, es) && k < |es| && es[k].CreationDone?
    ensures ss[k].live == {} && ss[k].current.None?
    ensures forall t :: At(ss[k], t, Creation) || At(ss[k], t, Closure) ==> t == es[k].task
  {
    ReachableStatesAreGood(ss, es, k);
    assert Follows(ss, es, k);
  }

  // ---------------------------------------------------------------- what callers receive

  predicate CurrentUsable(s: State) { s.current.Some? ==> s.current.value in s.live }

  /** Only a closing that fails after ending the connections leaves a dead pool in place. */
  lemma UsableIsLostExactly(ss: seq<State>, es: seq<Event>, k: nat)
    requires Behaviour(ss, es) && k < |es| && CurrentUsable(ss[k])
    ensures CurrentUsable(ss[k + 1]) <==> !(es[k].ClosureFailed? && es[k].terminated)
  {
    ReachableStatesAreGood(ss, es, k);
    assert Follows(ss, es, k);
  }

  /** `get_pool` always hands out the pool that is current when it returns. */
  lemma ReturnsCurrent(ss: seq<State>, es: seq<Event>, k: nat)
    requires Behaviour(ss, es) && k < |es|
    ensures |ss[k].returned| <= |ss[k + 1].returned| <= |ss[k].returned| + 1
    ensures |ss[k + 1].returned| > |ss[k].returned| ==>
              ss[k + 1].current == Some(ss[k + 1].returned[|ss[k].returned|])
  {
    assert Follows(ss, es, k);
  }

  predicate Getting(s: State, t: Task) { At(s, t, GetLock) || At(s, t, Creation) }

  /** A pool is handed out exactly by a call that finds one, before the lock or with it, or that has made one. */
  lemma ReturnsExactly(ss: seq<State>, es: seq<Event>, k: nat)
    requires Behaviour(ss, es) && k < |es|
    ensures |ss[k + 1].returned| > |ss[k].returned| <==>
            ((es[k].GetCall? || es[k].GetLocked?) && ss[k].current.Some?) || es[k].CreationDone?
  {
    assert Follows(ss, es, k);
  }

  /** A waiting `get_pool` leaves with a pool unless its creation failed or it was cancelled; it waits on only to create. */
  lemma GetEndsExactly(ss: seq<State>, es: seq<Event>, k: nat, t: Task)
    requires Behaviour(ss, es) && k < |es| && Getting(ss[k], t)
    ensures t !in ss[k + 1].tasks <==>
            (es[k] == GetLocked(t) && ss[k].current.Some?) || es[k] == CreationDone(t)
            || es[k] == CreationFailed(t) || es[k] == Cancelled(t)
    ensures t in ss[k + 1].tasks ==> Getting(ss[k + 1], t)
    ensures At(ss[k], t, GetLock) && At(ss[k + 1], t, Creation) <==> es[k] == GetLocked(t) && ss[k].current.None?
  {
    assert Follows(ss, es, k);
  }

  /** A `close_pool` leaves at once when there is no pool, and otherwise after the closing, done or failed. */
  lemma CloseEndsExactly(ss: seq<State>, es: seq<Event>, k: nat, t: Task)
    requires Behaviour(ss, es) && k < |es| && (At(ss[k], t, CloseLock) || At(ss[k], t, Closure))
    ensures t !in ss[k + 1].tasks <==>
            (es[k] == CloseLocked(t) && ss[k].current.None?) || es[k] == ClosureDone(t)
            || (es[k].ClosureFailed? && es[k].task == t) || es[k] == Cancelled(t)
    ensures es[k] == ClosureDone(t) ==> ss[k + 1].current == None && ss[k + 1].live == {}
  {
    ReachableStatesAreGood(ss, es, k);
    assert Follows(ss, es, k);
  }

  /**
   The check before the lock sees a pool that another task is already closing: a caller can hold
   a pool that is closed, without any failure.
   */
  lemma CallerGetsAClosingPool() returns (ss: seq<State>, es: seq<Event>)
    ensures Behaviour(ss, es) && es != [] && forall k :: 0 <= k < |es| ==> !es[k].ClosureFailed?
    ensures var before, end := ss[|es| - 1], ss[|es|];
            && es[|es| - 1].ClosureDone? && before.returned == end.returned
            && before.returned == [0, 0] && 0 !in end.live
  {
    ss, es := PoolIsCreated();
    ss, es := Extend(ss, es, CloseCall(2));
    ss, es := Extend(ss, es, CloseLocked(2));
    ss, es := Extend(ss, es, GetCall(3));
    ss, es := Extend(ss, es, ClosureDone(2));
  }

  lemma PoolIsCreated() returns (ss: seq<State>, es: seq<Event>)
    ensures Behaviour(ss, es) && forall k :: 0 <= k < |es| ==> !es[k].ClosureFailed?
    ensures ss[|es|] == State(Some(0), None, map[], 1, {0}, [0])
  {
    ss, es := [INIT], [];
    ss, es := Extend(ss, es, GetCall(1));
    ss, es := Extend(ss, es, GetLocked(1));
    ss, es := Extend(ss, es, CreationDone(1));
  }

  lemma Extend(ss: seq<State>, es: seq<Event>, e: Event) returns (ss': seq<State>, es': seq<Event>)
    requires Behaviour(ss, es) && Enabled(ss[|es|], e)
    ensures Behaviour(ss', es') && es' == es + [e] && ss' == ss + [Step(ss[|es|], e)]
  {
    es' := es + [e];
    ss' := ss + [Step(ss[|es|], e)];
    forall k | 0 <= k < |es'| ensures Follows(ss', es', k) {
      assert k < |es| ==> Follows(ss, es, k);
    }
  }

  /** The pool a return hands over is being closed exactly when a closing task holds the lock. */
  predicate BeingClosed(s: State) { s.holder.Some? && At(s, s.holder.value, Closure) }

  /** The pool handed over is one being closed exactly when it came from the check before the lock, during a closing. */
  lemma LockedPathIsClean(ss: seq<State>, es: seq<Event>, k: nat)
    requires Behaviour(ss, es) && k < |es|
    requires |ss[k + 1].returned| > |ss[k].returned|
    ensures BeingClosed(ss[k + 1]) <==> es[k].GetCall? && BeingClosed(ss[k])
  {
    assert Follows(ss, es, k);
  }
}
