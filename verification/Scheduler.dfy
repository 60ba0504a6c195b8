/** The scheduler's variables, updated in place (src/scheduler.c, src/thread.c). */
module Scheduler {
  import opened Kernel
  import B = ReadyBitmap
  import S = SchedulerSpec

  /** rt_lowest_bitmap */
  method Table() returns (table: seq<nat>)
    ensures B.Good(table)
  {
    B.LowestBitmapIsGood();
    table := B.LowestBitmap();
  }

  class Scheduler {
    /** RT_THREAD_PRIORITY_MAX is above 32. */
    const two: bool
    const lowestBitmap: seq<nat>
    /** rt_thread_priority_table */
    const priorityTable: array<seq<Tid>>
    /** rt_thread_ready_priority_group */
    var group: set<nat>
    /** rt_thread_ready_table */
    const readyTable: array<set<nat>>
    /** stat and current_priority of every thread. */
    var stat: map<Tid, S.Stat>
    var priority: map<Tid, nat>
    /** rt_current_thread, rt_current_priority, rt_scheduler_lock_nest */
    var currentThread: Option<Tid>
    var currentPriority: nat
    var lockNest: nat
    ghost const idle: Tid

    ghost predicate Framed()
      reads this, readyTable, priorityTable
    {
      && readyTable.Length == 32 && priorityTable.Length == B.Max(two) && readyTable as object != priorityTable
      && B.Good(lowestBitmap)
    }

    ghost function Bitmap(): B.Bitmap
      reads this, readyTable
    {
      B.Bitmap(two, group, readyTable[..])
    }

    ghost function State(): S.State
      reads this, readyTable, priorityTable
    {
      S.State(Bitmap(), priorityTable[..], stat, priority, currentThread, currentPriority, lockNest, idle)
    }

    ghost predicate Valid()
      reads this, readyTable, priorityTable
    {
      Framed() && S.Inv(State())
    }

    /** rt_system_scheduler_init */
    constructor (two: bool, threads: map<Tid, nat>, idle: Tid)
      requires forall t :: t in threads ==> threads[t] < B.Max(two)
      ensures Valid() && State() == S.Initial(two, threads, idle) && fresh(readyTable) && fresh(priorityTable)
    {
      this.two, this.idle := two, idle;
      var table := Table();
      lowestBitmap := table;
      priorityTable := new seq<Tid>[B.Max(two)](_ => []);
      readyTable := new set<nat>[32](_ => {});
      group, stat, priority := {}, map t | t in threads :: S.Init, threads;
      currentThread, currentPriority, lockNest := None, B.Max(two) - 1, 0;
      new;
      assert Bitmap() == B.Empty(two);
      assert priorityTable[..] == S.NoThreads(B.Max(two));
      S.InitialInv(two, threads, idle);
    }

    method MarkReady(p: nat)
      requires Framed() && p < B.Max(two)
      modifies this`group, readyTable
      ensures Bitmap() == B.Mark(old(Bitmap()), p)
    {
      if two {
        readyTable[p / 8] := readyTable[p / 8] + {p % 8};
        group := group + {p / 8};
      } else {
        group := group + {p};
      }
    }

    method UnmarkReady(p: nat)
      requires Framed() && p < B.Max(two)
      modifies this`group, readyTable
      ensures Bitmap() == B.Unmark(old(Bitmap()), p)
    {
      if two {
        readyTable[p / 8] := readyTable[p / 8] - {p % 8};
        if readyTable[p / 8] == {} {
          group := group - {p / 8};
        }
      } else {
        group := group - {p};
      }
    }

    /** rt_schedule_insert_thread */
    method InsertThread(t: Tid)
      requires Framed() && S.Sized(State()) && t in priority
      modifies this`group, this`stat, readyTable, priorityTable
      ensures Framed() && State() == S.Inserted(old(State()), t)
    {
      var p := priority[t];
      stat := stat[t := S.Ready];
      priorityTable[p] := priorityTable[p] + [t];
      MarkReady(p);
    }

    /** rt_schedule_remove_thread, by a caller that sets the state of the thread. */
    method RemoveThread(t: Tid, state: S.Stat)
      requires Framed() && S.Sized(State()) && t in priority
      modifies this`group, this`stat, readyTable, priorityTable
      ensures Framed() && State() == S.Removed(old(State()), t, state)
    {
      var p := priority[t];
      stat := stat[t := state];
      if t in priorityTable[p] {
        priorityTable[p] := Without(priorityTable[p], IndexOf(priorityTable[p], t));
      }
      if priorityTable[p] == [] {
        UnmarkReady(p);
      }
    }

    /** The lookup of the highest ready priority. */
    method HighestReady() returns (p: nat)
      requires Framed()
      ensures p == S.Top(lowestBitmap, State())
    {
      var number := B.LowestOfWord(lowestBitmap, group);
      p := if two && number < 32 then 8 * number + B.LowestOfByte(lowestBitmap, readyTable[number], 0) else number;
    }

    /** The switch at the end of rt_schedule; the context switch itself is left out. */
    method Switch()
      requires Valid() && idle in stat && stat[idle] == S.Ready
      modifies this`currentThread, this`currentPriority
      ensures Valid() && State() == S.Switched(lowestBitmap, old(State()))
    {
      S.SwitchedKeeps(lowestBitmap, State());
      var p := HighestReady();
      var thread := priorityTable[p][0];
      if currentThread != Some(thread) {
        currentPriority, currentThread := p, Some(thread);
      }
    }

    /** rt_schedule */
    method Schedule()
      requires Valid() && currentThread.Some?
      modifies this`currentThread, this`currentPriority
      ensures Valid() && State() == S.Scheduled(lowestBitmap, old(State())) && currentThread.Some?
      ensures lockNest == 0 ==> forall t :: t in stat && stat[t] == S.Ready ==>
                                currentThread.value in priority && priority[currentThread.value] <= priority[t]
    {
      forall t | t in stat && stat[t] == S.Ready && lockNest == 0
        ensures var r := S.Scheduled(lowestBitmap, State());
                r.current.Some? && r.current.value in r.prio && r.prio[r.current.value] <= r.prio[t]
      {
        S.MostUrgentRuns(lowestBitmap, State(), t);
      }
      if lockNest == 0 {
        Switch();
      }
    }

    /** rt_thread_startup, with the priority the thread was created with. */
    method Startup(t: Tid, p: nat)
      requires Valid() && S.Enabled(State(), S.Startup(t, p))
      modifies this, readyTable, priorityTable
      ensures Valid() && State() == S.Step(lowestBitmap, old(State()), S.Startup(t, p))
    {
      S.PriorityChangeKeeps(State(), t, p);
      priority := priority[t := p];
      S.InsertedKeeps(State(), t);
      InsertThread(t);
      if currentThread.Some? {
        Schedule();
      }
    }

    /** rt_thread_resume */
    method Resume(t: Tid) returns (error: Error)
      requires Valid() && t in stat
      modifies this`group, this`stat, readyTable, priorityTable
      ensures Valid() && State() == S.Step(lowestBitmap, old(State()), S.Resume(t))
      ensures error == if old(stat)[t] == S.Suspend then EOK else ERROR
    {
      if stat[t] != S.Suspend {
        return ERROR;
      }
      S.InsertedKeeps(State(), t);
      InsertThread(t);
      return EOK;
    }

    /** rt_thread_suspend */
    method SuspendThread(t: Tid) returns (error: Error)
      requires Valid() && t in stat && t != idle
      modifies this`group, this`stat, readyTable, priorityTable
      ensures Valid() && State() == S.Step(lowestBitmap, old(State()), S.SuspendIt(t))
      ensures error == if old(stat)[t] == S.Ready then EOK else ERROR
    {
      if stat[t] != S.Ready {
        return ERROR;
      }
      S.RemovedKeeps(State(), t, S.Suspend);
      RemoveThread(t, S.Suspend);
      return EOK;
    }

    /** rt_thread_timeout */
    method Timeout(t: Tid)
      requires Valid() && S.Enabled(State(), S.Timeout(t))
      modifies this, readyTable, priorityTable
      ensures Valid() && State() == S.Step(lowestBitmap, old(State()), S.Timeout(t))
    {
      S.InsertedKeeps(State(), t);
      InsertThread(t);
      Schedule();
    }

    /** rt_thread_yield */
    method Yield()
      requires Valid() && S.Enabled(State(), S.Yield)
      modifies this, priorityTable
      ensures Valid() && State() == S.Step(lowestBitmap, old(State()), S.Yield)
    {
      var thread := currentThread.value;
      var p := priority[thread];
      if stat[thread] == S.Ready && |priorityTable[p]| > 1 {
        S.RotatedKeeps(State(), thread);
        assert S.ListOf(priorityTable[..][p], p, stat, priority);
        priorityTable[p] := Without(priorityTable[p], IndexOf(priorityTable[p], thread)) + [thread];
        Schedule();
      }
    }

    /** rt_thread_control, RT_THREAD_CTRL_CHANGE_PRIORITY */
    method ChangePriority(t: Tid, p: nat)
      requires Valid() && S.Enabled(State(), S.ChangePriority(t, p))
      modifies this`group, this`stat, this`priority, readyTable, priorityTable
      ensures Valid() && State() == S.Step(lowestBitmap, old(State()), S.ChangePriority(t, p))
    {
      S.MovedKeeps(State(), t, p);
      if stat[t] == S.Ready {
        RemoveThread(t, S.Ready);
        priority := priority[t := p];
        InsertThread(t);
      } else {
        priority := priority[t := p];
      }
    }

    /** rt_thread_exit, rt_thread_delete and rt_thread_detach, as far as the lists go. */
    method CloseThread(t: Tid)
      requires Valid() && t in stat && t != idle
      modifies this`group, this`stat, readyTable, priorityTable
      ensures Valid() && State() == S.Step(lowestBitmap, old(State()), S.CloseIt(t))
    {
      S.RemovedKeeps(State(), t, S.Close);
      RemoveThread(t, S.Close);
    }

    /** rt_enter_critical */
    method EnterCritical()
      requires Valid()
      modifies this`lockNest
      ensures Valid() && State() == S.Step(lowestBitmap, old(State()), S.Enter)
    {
      lockNest := lockNest + 1;
    }

    /** rt_exit_critical */
    method ExitCritical()
      requires Valid() && currentThread.Some?
      modifies this`lockNest, this`currentThread, this`currentPriority
      ensures Valid() && State() == S.Step(lowestBitmap, old(State()), S.Exit)
    {
      if lockNest <= 1 {
        lockNest := 0;
        Schedule();
      } else {
        lockNest := lockNest - 1;
      }
    }
  }
}
