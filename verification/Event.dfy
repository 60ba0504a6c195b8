/** The event object, updated in place (src/ipc.c, rt_event_init to rt_event_control). */
module Event {
  import opened Kernel
  import IpcList
  import E = EventSpec

  class Event {
    const flag: IpcFlag
    /** event->set */
    var bits: E.Bits
    var suspendThread: seq<Tid>
    /** For every thread inside a recv: its event_set and event_info, its thread->error, its timeout. */
    var calls: map<Tid, E.Call>

    ghost function State(): E.State
      reads this
    {
      E.State(flag, bits, suspendThread, calls)
    }

    ghost predicate Valid()
      reads this
    {
      E.Inv(State())
    }

    constructor (flag: IpcFlag)
      ensures Valid() && State() == E.Init(flag)
    {
      this.flag := flag;
      bits, suspendThread, calls := {}, [], map[];
    }

    /** The walk passes a receiver that goes on waiting. */
    static lemma WalkSkips(bits: E.Bits, done: seq<Tid>, todo: seq<Tid>, calls: map<Tid, E.Call>)
      requires todo != [] && todo[0] in calls && !E.Holds(bits, calls[todo[0]].want)
      ensures var (r, t) := (E.Scanned(bits, todo, calls), E.Scanned(bits, todo[1..], calls));
              r.bits == t.bits && r.calls == t.calls && done + r.waiters == (done + [todo[0]]) + t.waiters
    {
    }

    /** rt_event_send */
    method Send(set_bits: E.Bits) returns (out: E.Outcome)
      requires Valid()
      modifies this`bits, this`suspendThread, this`calls
      ensures Valid() && (State(), out) == E.Step(old(State()), E.Send(set_bits))
    {
      E.StepKeepsInv(State(), E.Send(set_bits));
      if set_bits == {} {
        return E.Refused(ERROR);
      }
      bits := bits + set_bits;
      Walk();
      return E.Sent;
    }

    /** The loop of rt_event_send. */
    method Walk()
      requires forall t :: t in suspendThread ==> t in calls
      modifies this`bits, this`suspendThread, this`calls
      ensures E.Scan(bits, suspendThread, calls) == E.Scanned(old(bits), old(suspendThread), old(calls))
    {
      ghost var r := E.Scanned(bits, suspendThread, calls);
      var n := 0;
      assert suspendThread[..0] + r.waiters == r.waiters && suspendThread[0..] == suspendThread;
      while n < |suspendThread|
        invariant n <= |suspendThread| && forall t :: t in suspendThread ==> t in calls
        invariant Ahead(r, suspendThread[..n], E.Scanned(bits, suspendThread[n..], calls))
        decreases |suspendThread| - n
      {
        var thread := suspendThread[n];
        ghost var (done, todo) := (suspendThread[..n], suspendThread[n..]);
        assert todo[0] == thread && todo[1..] == suspendThread[n + 1..] && thread in suspendThread;
        if E.Holds(bits, calls[thread].want) {
          Resume(n);
          assert suspendThread[..n] == done && suspendThread[n..] == todo[1..];
          forall t | t in suspendThread
            ensures t in calls
          {
            assert t in done || t in todo[1..];
          }
        } else {
          WalkSkips(bits, done, todo, calls);
          assert suspendThread[..n + 1] == done + [thread];
          n := n + 1;
        }
      }
      assert suspendThread[..n] + [] == suspendThread && suspendThread[n..] == [];
    }

    /** The whole walk leaves r: `done` is what stays of its first part, t what its last part will leave. */
    static ghost predicate Ahead(r: E.Scan, done: seq<Tid>, t: E.Scan) {
      r.bits == t.bits && r.calls == t.calls && r.waiters == done + t.waiters
    }

    /** The n-th receiver is served, and leaves the list. */
    method Resume(n: nat)
      requires n < |suspendThread| && suspendThread[n] in calls
      modifies this`bits, this`suspendThread, this`calls
      ensures suspendThread == Without(old(suspendThread), n)
      ensures calls == E.Served(old(calls), old(suspendThread)[n], old(bits))
      ensures bits == E.Left(old(bits), old(calls)[old(suspendThread)[n]].want)
    {
      var thread := suspendThread[n];
      var got := calls[thread].want.bits * bits;
      calls := calls[thread := calls[thread].(got := got, wait := Woken)];
      if calls[thread].want.clear {
        bits := bits - got;
      }
      suspendThread := Without(suspendThread, n);
    }

    /** rt_event_recv, up to where it returns or the thread is suspended. */
    method Recv(t: Tid, want: E.Want, timeout: int, prio: Tid -> nat) returns (out: E.Outcome)
      requires Valid() && t !in calls
      modifies this`bits, this`suspendThread, this`calls
      ensures Valid() && (State(), out) == E.Step(old(State()), E.Recv(t, want, timeout, prio))
    {
      E.StepKeepsInv(State(), E.Recv(t, want, timeout, prio));
      if want.bits == {} {
        return E.Refused(ERROR);
      }
      if E.Holds(bits, want) {
        out := E.Received(want.bits * bits);
        if want.clear {
          bits := bits - want.bits;
        }
        return;
      }
      if timeout == 0 {
        return E.Refused(ETIMEOUT);
      }
      suspendThread := IpcList.Suspend(suspendThread, t, prio, flag);
      calls := calls[t := E.Call(want, {}, timeout, Suspended)];
      return E.Blocked;
    }

    /** rt_event_recv, from where the suspended thread runs again. */
    method RecvReturn(t: Tid) returns (out: E.Outcome)
      requires Valid() && E.Enabled(State(), E.Return(t))
      modifies this`calls
      ensures Valid() && (State(), out) == E.Step(old(State()), E.Return(t))
    {
      if calls[t].wait.Failed? {
        out := E.Refused(calls[t].wait.error);
      } else {
        out := E.Received(calls[t].got);
      }
      calls := calls - {t};
    }

    /** rt_thread_timeout, for a thread suspended here. */
    method Expire(t: Tid)
      requires Valid() && E.Enabled(State(), E.Expire(t))
      modifies this`suspendThread, this`calls
      ensures Valid() && State() == E.Step(old(State()), E.Expire(t)).0
    {
      E.StepKeepsInv(State(), E.Expire(t));
      suspendThread := Without(suspendThread, IndexOf(suspendThread, t));
      calls := calls[t := calls[t].(wait := Failed(ETIMEOUT))];
    }

    /** rt_event_control, RT_IPC_CMD_RESET */
    method Reset()
      requires Valid()
      modifies this`bits, this`suspendThread, this`calls
      ensures Valid() && State() == E.Step(old(State()), E.Reset).0
    {
      E.StepKeepsInv(State(), E.Reset);
      ResumeAll();
      bits := {};
    }

    /** rt_ipc_list_resume_all */
    method ResumeAll()
      requires E.Listed(suspendThread, calls)
      modifies this`suspendThread, this`calls
      ensures suspendThread == [] && calls == E.AllFailed(old(calls))
    {
      ghost var woken: seq<Tid> := [];
      while suspendThread != []
        invariant old(suspendThread) == woken + suspendThread
        invariant calls == map t | t in old(calls) :: if t in woken then old(calls)[t].(wait := Failed(ERROR)) else old(calls)[t]
      {
        var thread := suspendThread[0];
        assert thread in old(suspendThread);
        calls := calls[thread := calls[thread].(wait := Failed(ERROR))];
        woken, suspendThread := woken + [thread], suspendThread[1..];
      }
    }
  }
}
