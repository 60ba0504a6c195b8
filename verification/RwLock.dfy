/**
 The read-write lock, updated in place (components/pthreads/pthread_rwlock.c). Each method is what a thread does
 between taking rw_mutex and letting go of it, or one operation on a condition's semaphore in between.
 */
module RwLock {
  import opened Kernel
  import S = Semaphore
  import L = RwLockSpec

  class RwLock {
    var refcount: int
    var nwaitreaders: int
    var nwaitwriters: int
    /** rw_condreaders.sem and rw_condwriters.sem */
    const readers: S.Semaphore
    const writers: S.Semaphore
    /** How far each thread is in its call. */
    var phases: map<Tid, L.Phase>

    ghost function State(): L.State
      reads this, readers, writers
    {
      L.State(refcount, nwaitreaders, nwaitwriters, readers.Sem(), writers.Sem(), phases)
    }

    ghost predicate Valid()
      reads this, readers, writers
    {
      readers != writers && L.Inv(State())
    }

    /** pthread_rwlock_init */
    constructor ()
      ensures Valid() && State() == L.Init() && fresh(readers) && fresh(writers)
    {
      refcount, nwaitreaders, nwaitwriters, phases := 0, 0, 0, map[];
      readers := new S.Semaphore(Fifo, 0);
      writers := new S.Semaphore(Fifo, 0);
      new;
      assert L.Where(phases, L.Holding(L.Read)) == {} && L.Where(phases, L.Holding(L.Write)) == {};
      assert L.Where(phases, L.Waiting(L.Read)) == {} && L.Where(phases, L.Waiting(L.Write)) == {};
    }

    /** One turn of the loop of pthread_rwlock_rdlock and pthread_rwlock_timedrdlock. */
    method EnterRead(t: Tid, timed: bool) returns (out: L.Outcome)
      modifies this
      ensures (State(), out) == L.Entering(old(State()), t, L.Read, timed)
    {
      if refcount < 0 || nwaitwriters > 0 {
        nwaitreaders := nwaitreaders + 1;
        phases := phases[t := L.Leaving(L.Read, timed)];
        return L.Waits;
      }
      refcount := refcount + 1;
      phases := phases[t := L.Holds(L.Read)];
      return L.Entered;
    }

    /** One turn of the loop of pthread_rwlock_wrlock and pthread_rwlock_timedwrlock. */
    method EnterWrite(t: Tid, timed: bool) returns (out: L.Outcome)
      modifies this
      ensures (State(), out) == L.Entering(old(State()), t, L.Write, timed)
    {
      if refcount != 0 {
        nwaitwriters := nwaitwriters + 1;
        phases := phases[t := L.Leaving(L.Write, timed)];
        return L.Waits;
      }
      refcount := -1;
      phases := phases[t := L.Holds(L.Write)];
      return L.Entered;
    }

    /** pthread_rwlock_rdlock or pthread_rwlock_timedrdlock, up to where it returns or waits. */
    method RdLock(t: Tid, timed: bool) returns (out: L.Outcome)
      requires Valid() && t !in phases
      modifies this
      ensures Valid() && (State(), out) == L.Step(old(State()), L.Lock(t, L.Read, timed))
    {
      L.StepKeepsInv(State(), L.Lock(t, L.Read, timed));
      out := EnterRead(t, timed);
    }

    /** pthread_rwlock_wrlock or pthread_rwlock_timedwrlock, up to where it returns or waits. */
    method WrLock(t: Tid, timed: bool) returns (out: L.Outcome)
      requires Valid() && t !in phases
      modifies this
      ensures Valid() && (State(), out) == L.Step(old(State()), L.Lock(t, L.Write, timed))
    {
      L.StepKeepsInv(State(), L.Lock(t, L.Write, timed));
      out := EnterWrite(t, timed);
    }

    /** pthread_rwlock_tryrdlock */
    method TryRdLock(t: Tid) returns (out: L.Outcome)
      requires Valid() && t !in phases
      modifies this
      ensures Valid() && (State(), out) == L.Step(old(State()), L.TryLock(t, L.Read))
    {
      L.StepKeepsInv(State(), L.TryLock(t, L.Read));
      if refcount < 0 || nwaitwriters > 0 {
        return L.Busy;
      }
      refcount := refcount + 1;
      phases := phases[t := L.Holds(L.Read)];
      return L.Entered;
    }

    /** pthread_rwlock_trywrlock */
    method TryWrLock(t: Tid) returns (out: L.Outcome)
      requires Valid() && t !in phases
      modifies this
      ensures Valid() && (State(), out) == L.Step(old(State()), L.TryLock(t, L.Write))
    {
      L.StepKeepsInv(State(), L.TryLock(t, L.Write));
      if refcount != 0 {
        return L.Busy;
      }
      refcount := -1;
      phases := phases[t := L.Holds(L.Write)];
      return L.Entered;
    }

    /** The rt_sem_take inside pthread_cond_wait or pthread_cond_timedwait, for a thread that has let go of rw_mutex. */
    method SemTake(t: Tid, at_once: bool)
      requires Valid() && L.Enabled(State(), L.SemTake(t, at_once))
      modifies this, readers, writers
      ensures Valid() && State() == L.Step(old(State()), L.SemTake(t, at_once)).0
    {
      L.StepKeepsInv(State(), L.SemTake(t, at_once));
      var (side, timed) := (phases[t].side, phases[t].timed);
      var cond := if side.Read? then readers else writers;
      var ok := cond.TryTake();
      if ok {
        phases := phases[t := L.Back(side, timed)];
      } else if at_once {
        phases := phases[t := L.Late(side)];
      } else {
        cond.Suspend(t, _ => 0);
        phases := phases[t := L.Blocked(side, timed)];
      }
    }

    /** rt_thread_timeout, for a thread suspended on a condition. */
    method Expire(t: Tid)
      requires Valid() && L.Enabled(State(), L.Expire(t))
      modifies this, readers, writers
      ensures Valid() && State() == L.Step(old(State()), L.Expire(t)).0
    {
      L.StepKeepsInv(State(), L.Expire(t));
      var side := phases[t].side;
      var cond := if side.Read? then readers else writers;
      cond.Drop(t);
      phases := phases[t := L.Late(side)];
    }

    /** From where pthread_cond_wait or pthread_cond_timedwait has taken rw_mutex again. */
    method Again(t: Tid) returns (out: L.Outcome)
      requires Valid() && L.Enabled(State(), L.Again(t))
      modifies this
      ensures Valid() && (State(), out) == L.Step(old(State()), L.Again(t))
    {
      L.StepKeepsInv(State(), L.Again(t));
      var p := phases[t];
      StopWaiting(p.side);
      if p.Late? {
        phases := phases - {t};
        return L.TimedOut;
      }
      if p.side.Read? {
        out := EnterRead(t, p.timed);
      } else {
        out := EnterWrite(t, p.timed);
      }
    }

    method StopWaiting(side: L.Side)
      modifies this`nwaitreaders, this`nwaitwriters
      ensures State() == L.Counted(old(State()), side, -1)
    {
      if side.Read? {
        nwaitreaders := nwaitreaders - 1;
      } else {
        nwaitwriters := nwaitwriters - 1;
      }
    }

    /** pthread_rwlock_unlock, by a thread that holds the lock. */
    method Unlock(t: Tid)
      requires Valid() && L.Enabled(State(), L.Unlock(t))
      modifies this, readers, writers
      ensures Valid() && State() == L.Step(old(State()), L.Unlock(t)).0
    {
      L.StepKeepsInv(State(), L.Unlock(t));
      if refcount > 0 {
        refcount := refcount - 1;
      } else if refcount == -1 {
        refcount := 0;
      }
      phases := phases - {t};
      if nwaitwriters > 0 {
        if refcount == 0 {
          var woken := writers.Release();
          phases := L.Woken(phases, if woken.Some? then [woken.value] else []);
        }
      } else if nwaitreaders > 0 {
        var woken := readers.Broadcast();
        phases := L.Woken(phases, woken);
      }
    }
  }
}
