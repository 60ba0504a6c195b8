/** The semaphore object, updated in place (src/ipc.c), and the condition made of it (components/pthreads/pthread_cond.c). */
module Semaphore {
  import opened Kernel
  import IpcList
  import P = SemaphoreSpec

  class Semaphore {
    const flag: IpcFlag
    var value: nat
    var suspendThread: seq<Tid>

    ghost function Sem(): P.Sem
      reads this
    {
      P.Sem(flag, value, suspendThread)
    }

    ghost predicate Valid()
      reads this
    {
      P.Sound(Sem())
    }

    constructor (flag: IpcFlag, value: nat)
      requires value < P.VALUES
      ensures Valid() && Sem() == P.Sem(flag, value, [])
    {
      this.flag, this.value, suspendThread := flag, value, [];
    }

    /** rt_sem_trytake, and what rt_sem_take does first. */
    method TryTake() returns (ok: bool)
      modifies this`value
      ensures (Sem(), ok) == P.Tried(old(Sem()))
    {
      ok := value > 0;
      if ok {
        value := value - 1;
      }
    }

    method Suspend(t: Tid, prio: Tid -> nat)
      modifies this`suspendThread
      ensures Sem() == P.Suspended(old(Sem()), t, prio)
    {
      suspendThread := IpcList.Suspend(suspendThread, t, prio, flag);
    }

    /** rt_sem_release, and the thread it resumes; value is counted in 16 bits. */
    method Release() returns (woken: Option<Tid>)
      modifies this
      ensures (Sem(), woken) == P.Released(old(Sem()))
    {
      if suspendThread != [] {
        woken, suspendThread := Some(suspendThread[0]), suspendThread[1..];
      } else {
        woken, value := None, (value + 1) % P.VALUES;
      }
    }

    /** A thread whose time is up leaves the list. */
    method Drop(t: Tid)
      requires t in suspendThread
      modifies this`suspendThread
      ensures Sem() == P.Dropped(old(Sem()), t)
    {
      suspendThread := Without(suspendThread, IndexOf(suspendThread, t));
    }

    /** pthread_cond_broadcast: release until a take succeeds, then put that one back. Everybody is woken, in order. */
    method Broadcast() returns (woken: seq<Tid>)
      requires Valid()
      modifies this
      ensures Valid() && (Sem(), woken) == P.Broadcast(old(Sem()))
      ensures suspendThread == [] && woken == old(suspendThread) && value == if old(value) == 0 then 1 else old(value)
    {
      ghost var s := Sem();
      P.BroadcastWakesAll(s);
      woken := [];
      assert [] + P.Broadcast(s).1 == P.Broadcast(s).1;
      while true
        invariant value < P.VALUES
        invariant P.Broadcast(s).0 == P.Broadcast(Sem()).0 && P.Broadcast(s).1 == woken + P.Broadcast(Sem()).1
        decreases |suspendThread|, if value == 0 then 1 else 0
      {
        ghost var before := Sem();
        var ok := TryTake();
        if !ok {
          var t := Release();
          WokenSoFar(woken, if t.Some? then [t.value] else [], P.Broadcast(Sem()).1);
          woken := woken + if t.Some? then [t.value] else [];
        } else {
          var t := Release();
          woken := woken + if t.Some? then [t.value] else [];
          break;
        }
      }
    }

    /** One turn of that loop; timeouts may come before the next one. */
    method BroadcastTurn(next: P.Turn, woken: seq<Tid>, ghost late: seq<Tid>) returns (after: P.Turn, all: seq<Tid>)
      requires !next.Done?
      modifies this
      ensures P.Loop(Sem(), after, all, late) == P.Advanced(P.Loop(old(Sem()), next, woken, late))
    {
      after, all := next, woken;
      if next.Try? {
        var ok := TryTake();
        after := if ok then P.PutBack else P.GiveUp;
      } else {
        var t := Release();
        all := woken + if t.Some? then [t.value] else [];
        after := if next.GiveUp? then P.Try else P.Done;
      }
    }

    static lemma WokenSoFar(a: seq<Tid>, b: seq<Tid>, c: seq<Tid>)
      ensures a + (b + c) == (a + b) + c
    {
    }
  }

  /** The threads inside rt_sem_take, on top of the semaphore they wait for. */
  class Takers {
    const sem: Semaphore
    /** For every thread inside a take: its thread->error and its timeout. */
    var calls: map<Tid, P.Call>

    ghost function State(): P.State
      reads this, sem
    {
      P.State(sem.Sem(), calls)
    }

    ghost predicate Valid()
      reads this, sem
    {
      P.Inv(State())
    }

    /** rt_sem_init */
    constructor (flag: IpcFlag, value: nat)
      requires value < P.VALUES
      ensures Valid() && State() == P.Init(flag, value) && fresh(sem)
    {
      sem := new Semaphore(flag, value);
      calls := map[];
    }

    /** rt_sem_take, up to where it returns or the thread is suspended. */
    method Take(t: Tid, timeout: int, prio: Tid -> nat) returns (out: P.Outcome)
      requires Valid() && t !in calls
      modifies this, sem
      ensures Valid() && (State(), out) == P.Step(old(State()), P.Take(t, timeout, prio))
    {
      P.StepKeepsInv(State(), P.Take(t, timeout, prio));
      var ok := sem.TryTake();
      if ok {
        return P.Taken;
      }
      if timeout == 0 {
        return P.Refused(ETIMEOUT);
      }
      sem.Suspend(t, prio);
      calls := calls[t := P.Call(timeout, Suspended)];
      return P.Blocked;
    }

    /** rt_sem_take, from where the suspended thread runs again. */
    method TakeReturn(t: Tid) returns (error: Error)
      requires Valid() && P.Enabled(State(), P.Return(t))
      modifies this
      ensures Valid() && (State(), P.Returned(error)) == P.Step(old(State()), P.Return(t))
    {
      P.StepKeepsInv(State(), P.Return(t));
      error := if calls[t].wait.Failed? then calls[t].wait.error else EOK;
      calls := calls - {t};
    }

    /** rt_sem_release */
    method Release() returns (out: P.Outcome)
      requires Valid()
      modifies this, sem
      ensures Valid() && (State(), out) == P.Step(old(State()), P.Release)
    {
      P.StepKeepsInv(State(), P.Release);
      var woken := sem.Release();
      if woken.Some? {
        calls := calls[woken.value := calls[woken.value].(wait := Woken)];
        return P.Handed(woken.value);
      }
      return P.Given;
    }

    /** rt_sem_control with the reset command; the new value is cut to 16 bits. */
    method Reset(value: nat)
      requires Valid()
      modifies this, sem
      ensures Valid() && State() == P.Step(old(State()), P.Reset(value)).0
    {
      P.StepKeepsInv(State(), P.Reset(value));
      FailAll();
      sem.value := value % P.VALUES;
    }

    /** rt_ipc_list_resume_all: every waiting thread is resumed with an error. */
    method FailAll()
      requires Valid()
      modifies this, sem`suspendThread
      ensures sem.Sem() == old(sem.Sem()).(waiters := []) && calls == P.AllFailed(old(calls))
    {
      while sem.suspendThread != []
        invariant sem.value == old(sem.value)
        invariant Distinct(sem.suspendThread)
        invariant forall t :: t in sem.suspendThread ==> t in old(calls)
        invariant forall t :: t in sem.suspendThread <==> t in calls && calls[t].wait.Suspended?
        invariant P.AllFailed(calls) == P.AllFailed(old(calls))
        decreases |sem.suspendThread|
      {
        var t := sem.suspendThread[0];
        FirstLeaves(sem.suspendThread);
        calls := calls[t := calls[t].(wait := Failed(ERROR))];
        sem.suspendThread := sem.suspendThread[1..];
      }
    }

    /** rt_thread_timeout, for a thread suspended here. */
    method Expire(t: Tid)
      requires Valid() && P.Enabled(State(), P.Expire(t))
      modifies this, sem
      ensures Valid() && State() == P.Step(old(State()), P.Expire(t)).0
    {
      P.StepKeepsInv(State(), P.Expire(t));
      sem.Drop(t);
      calls := calls[t := calls[t].(wait := Failed(ETIMEOUT))];
    }
  }
}
