/** The mutex object, updated in place (src/ipc.c, rt_mutex_init, rt_mutex_take and rt_mutex_release). */
module Mutex {
  import opened Kernel
  import IpcList
  import M = MutexSpec

  class Mutex {
    const flag: IpcFlag
    var value: nat
    var owner: Option<Tid>
    var hold: nat
    var originalPriority: nat
    var suspendThread: seq<Tid>
    /** For every thread inside a take: its thread->error and its timeout. */
    var calls: map<Tid, M.Call>
    /** current_priority of every thread. */
    var current: map<Tid, nat>
    ghost const base: map<Tid, nat>
    ghost var pressed: set<Tid>
    ghost var arrived: map<Tid, nat>
    ghost var clock: nat

    ghost function State(): M.State
      reads this
    {
      M.State(flag, value, owner, hold, originalPriority, suspendThread, calls, current, base, pressed, arrived, clock)
    }

    ghost predicate Valid()
      reads this
    {
      M.Inv(State())
    }

    /** rt_mutex_init, among threads with these priorities. */
    constructor (flag: IpcFlag, priorities: map<Tid, nat>)
      ensures Valid() && State() == M.Init(flag, priorities)
    {
      this.flag := flag;
      value, owner, hold, originalPriority := 1, None, 0, M.NO_PRIORITY;
      suspendThread, calls, current := [], map[], priorities;
      base, pressed, arrived, clock := priorities, {}, map[], 0;
    }

    /** rt_thread_control(thread, RT_THREAD_CTRL_CHANGE_PRIORITY, &priority) */
    method ChangePriority(thread: Tid, priority: nat)
      modifies this`current
      ensures current == old(current)[thread := priority]
    {
      current := current[thread := priority];
    }

    /** rt_mutex_take, up to where it returns or the thread is suspended. */
    method Take(t: Tid, timeout: int) returns (out: M.Outcome)
      requires Valid() && M.Enabled(State(), M.Take(t, timeout))
      modifies this
      ensures (State(), out) == M.Step(old(State()), M.Take(t, timeout))
      ensures Valid() <==> !M.Wraps(old(State()), M.Take(t, timeout))
    {
      M.StepKeepsInvExactly(State(), M.Take(t, timeout));
      if owner == Some(t) {
        hold := (hold + 1) % M.HOLDS;
        return M.Taken;
      }
      if value > 0 {
        Acquire(t);
        return M.Taken;
      }
      if timeout == 0 {
        return M.Refused(ETIMEOUT);
      }
      Suspend(t, timeout);
      return M.Blocked;
    }

    method Acquire(t: Tid)
      requires t in current && value > 0
      modifies this
      ensures State() == M.Acquired(old(State()), t)
    {
      value := value - 1;
      owner, originalPriority := Some(t), current[t];
      hold := (hold + 1) % M.HOLDS;
      pressed := {};
    }

    /** The owner gets the priority of t if that is more urgent. */
    method Boost(o: Tid, t: Tid)
      requires o in current && t in current
      modifies this`current
      ensures State() == old(State()).(current := M.Boosted(old(current), o, t))
    {
      if current[t] < current[o] {
        ChangePriority(o, current[t]);
      }
    }

    /** The current thread goes on the waiting list, behind a boost of the owner. */
    method Suspend(t: Tid, timeout: int)
      requires M.Known(State()) && t in base && owner.Some?
      modifies this
      ensures State() == M.Waiting(old(State()), t, timeout)
    {
      Boost(owner.value, t);
      Enqueue(t, timeout);
    }

    method Enqueue(t: Tid, timeout: int)
      modifies this`suspendThread, this`calls, this`pressed, this`arrived, this`clock
      ensures State() == M.Enqueued(old(State()), t, timeout)
    {
      suspendThread := IpcList.Suspend(suspendThread, t, M.PriorityOf(current), flag);
      calls := calls[t := M.Call(timeout, Suspended)];
      pressed, arrived, clock := pressed + {t}, arrived[t := clock], clock + 1;
    }

    /** rt_mutex_take, from where the suspended thread runs again. */
    method TakeReturn(t: Tid) returns (error: Error)
      requires Valid() && M.Enabled(State(), M.Return(t))
      modifies this`calls
      ensures Valid() && (State(), M.Returned(error)) == M.Step(old(State()), M.Return(t))
      ensures error == EOK ==> owner == Some(t) && hold == 1
    {
      M.StepKeepsInvExactly(State(), M.Return(t));
      match calls[t].wait {
        case Failed(e) => error := e;
        case _ => error := EOK;
      }
      calls := calls - {t};
    }

    /** rt_mutex_release */
    method Release(t: Tid) returns (out: M.Outcome)
      requires Valid() && M.Enabled(State(), M.Release(t))
      modifies this
      ensures Valid() && (State(), out) == M.Step(old(State()), M.Release(t))
    {
      M.StepKeepsInvExactly(State(), M.Release(t));
      if owner != Some(t) {
        return M.Refused(ERROR);
      }
      if hold != 1 {
        hold := (hold + M.HOLDS - 1) % M.HOLDS;
        return M.Released;
      }
      if suspendThread != [] {
        out := M.Handed(suspendThread[0]);
        PassOn(t);
      } else {
        Free(t);
        out := M.Released;
      }
    }

    /** The owner gets its own priority back. */
    method Restore(t: Tid)
      requires t in current
      modifies this`current
      ensures State() == old(State()).(current := old(current)[t := originalPriority])
    {
      if originalPriority != current[t] {
        ChangePriority(t, originalPriority);
      }
      assert current == old(current)[t := originalPriority];
    }

    /** The last hold is given up while threads wait. */
    method PassOn(t: Tid)
      requires M.Known(State()) && t in current && hold == 1 && suspendThread != []
      modifies this
      ensures State() == M.PassedOn(old(State()), t)
    {
      hold := hold - 1;
      Restore(t);
      assert suspendThread[0] in suspendThread;
      HandOn();
    }

    /** The first waiting thread owns the mutex. */
    method HandOn()
      requires hold == 0 && suspendThread != [] && suspendThread[0] in current && suspendThread[0] in calls
      modifies this
      ensures State() == M.HandedOn(old(State()))
    {
      var thread := suspendThread[0];
      owner, originalPriority := Some(thread), current[thread];
      hold := hold + 1;
      suspendThread, calls := suspendThread[1..], calls[thread := calls[thread].(wait := Woken)];
      pressed := {};
    }

    /** The last hold is given up and nobody waits. */
    method Free(t: Tid)
      requires t in current && hold == 1
      modifies this
      ensures State() == M.Freed(old(State()), t)
    {
      hold := hold - 1;
      Restore(t);
      value := value + 1;
      owner, originalPriority := None, M.NO_PRIORITY;
      pressed := {};
    }

    /** rt_thread_timeout, for a thread suspended here. */
    method Expire(t: Tid)
      requires Valid() && M.Enabled(State(), M.Expire(t))
      modifies this`suspendThread, this`calls
      ensures Valid() && State() == M.Step(old(State()), M.Expire(t)).0
    {
      M.StepKeepsInvExactly(State(), M.Expire(t));
      suspendThread := Without(suspendThread, IndexOf(suspendThread, t));
      calls := calls[t := calls[t].(wait := Failed(ETIMEOUT))];
    }
  }
}
