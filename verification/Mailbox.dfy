/** The mailbox object itself: a ring buffer and two waiting lists, updated in place (src/ipc.c). */
module Mailbox {
  import opened Kernel
  import IpcList
  import M = MailboxSpec

  /** The offset reached from `offset` after n steps around a ring of the given size. */
  function Around(size: nat, offset: nat, n: nat): (r: nat)
    requires (offset < size || offset == 0) && n <= size
    ensures 0 < size ==> r < size
  {
    if offset + n < size then offset + n else offset + n - size
  }

  lemma AroundIsModulo(size: nat, offset: nat, n: nat)
    requires offset < size && n <= size
    ensures Around(size, offset, n) == (offset + n) % size
  {
    if offset + n >= size {
      assert offset + n == size + (offset + n - size);
    }
  }

  /** The n mails stored from offset out on. */
  ghost function Ring(pool: seq<M.Mail>, out: nat, n: nat): (s: seq<M.Mail>)
    requires (out < |pool| || out == 0) && n <= |pool|
    ensures |s| == n && forall i :: 0 <= i < n ==> s[i] == pool[Around(|pool|, out, i)]
  {
    seq(n, i requires 0 <= i < n => pool[Around(|pool|, out, i)])
  }

  /** rt_ipc_list_resume_all: every thread of the list is made ready with an error, the first one first. */
  method ResumeAll(list: seq<Tid>, calls: map<Tid, M.Call>) returns (r: map<Tid, M.Call>)
    requires forall t :: t in list ==> t in calls
    ensures r == map t | t in calls :: if t in list then calls[t].(wait := Failed(ERROR)) else calls[t]
  {
    r := calls;
    var rest := list;
    ghost var woken := [];
    while rest != []
      invariant list == woken + rest
      invariant r == map t | t in calls :: if t in woken then calls[t].(wait := Failed(ERROR)) else calls[t]
    {
      var thread := rest[0];
      assert thread in list;
      r := r[thread := r[thread].(wait := Failed(ERROR))];
      woken, rest := woken + [thread], rest[1..];
    }
  }

  class Mailbox {
    const flag: IpcFlag
    const msgPool: array<M.Mail>
    var entry: nat
    var inOffset: nat
    var outOffset: nat
    var suspendThread: seq<Tid>
    var suspendSender: seq<Tid>
    /** For every thread inside a blocking call: its thread->error, its place and its saved arguments. */
    var calls: map<Tid, M.Call>

    ghost predicate RingValid()
      reads this`entry, this`inOffset, this`outOffset
    {
      && entry <= msgPool.Length
      && (outOffset < msgPool.Length || outOffset == 0)
      && inOffset == Around(msgPool.Length, outOffset, entry)
    }

    ghost function Contents(): (s: seq<M.Mail>)
      reads this`entry, this`inOffset, this`outOffset, msgPool
      requires RingValid()
      ensures |s| == entry
    {
      Ring(msgPool[..], outOffset, entry)
    }

    ghost function State(): M.State
      reads this, msgPool
      requires RingValid()
    {
      M.State(msgPool.Length, flag, Contents(), suspendThread, suspendSender, calls)
    }

    /** The rt_mailbox invariant: in_offset runs entry places ahead of out_offset, round the pool. */
    lemma InFollowsOut()
      requires RingValid() && msgPool.Length > 0
      ensures inOffset == (outOffset + entry) % msgPool.Length
    {
      AroundIsModulo(msgPool.Length, outOffset, entry);
    }

    ghost predicate Valid()
      reads this, msgPool
    {
      RingValid() && M.Inv(State())
    }

    /** rt_mb_init; the size is stored in 16 bits. */
    constructor (size: nat, flag: IpcFlag)
      requires size < 0x1_0000
      ensures Valid() && fresh(msgPool)
      ensures State() == M.Init(size, flag)
    {
      this.flag := flag;
      msgPool := new M.Mail[size](_ => 0);
      entry, inOffset, outOffset := 0, 0, 0;
      suspendThread, suspendSender := [], [];
      calls := map[];
    }

    method Store(value: M.Mail)
      requires RingValid() && entry < msgPool.Length
      modifies this`inOffset, this`entry, msgPool
      ensures RingValid()
      ensures Contents() == old(Contents()) + [value]
    {
      msgPool[inOffset] := value;
      inOffset := inOffset + 1;
      if inOffset >= msgPool.Length {
        inOffset := 0;
      }
      entry := entry + 1;
    }

    method Fetch() returns (value: M.Mail)
      requires RingValid() && entry > 0
      modifies this`outOffset, this`entry
      ensures RingValid()
      ensures old(Contents()) == [value] + Contents()
    {
      value := msgPool[outOffset];
      outOffset := outOffset + 1;
      if outOffset >= msgPool.Length {
        outOffset := 0;
      }
      entry := entry - 1;
    }

    /** rt_ipc_list_resume on the receivers, if there are any. */
    method ResumeReceiver()
      requires suspendThread != [] ==> suspendThread[0] in calls
      modifies this`suspendThread, this`calls
      ensures suspendThread == M.Rest(old(suspendThread))
      ensures calls == M.Resumed(old(calls), old(suspendThread))
    {
      if suspendThread != [] {
        var thread := suspendThread[0];
        suspendThread := suspendThread[1..];
        calls := calls[thread := calls[thread].(wait := Woken)];
      }
    }

    method ResumeSender()
      requires suspendSender != [] ==> suspendSender[0] in calls
      modifies this`suspendSender, this`calls
      ensures suspendSender == M.Rest(old(suspendSender))
      ensures calls == M.Resumed(old(calls), old(suspendSender))
    {
      if suspendSender != [] {
        var thread := suspendSender[0];
        suspendSender := suspendSender[1..];
        calls := calls[thread := calls[thread].(wait := Woken)];
      }
    }

    /** The send path from the test for a full mailbox on. */
    method SendOrWait(t: Tid, value: M.Mail, timeout: int, prio: Tid -> nat) returns (out: M.Outcome)
      requires RingValid() && M.Consistent(State())
      modifies this, msgPool
      ensures RingValid()
      ensures (State(), out) == M.TrySend(old(State()), t, value, timeout, prio)
    {
      if entry == msgPool.Length {
        if timeout == 0 {
          return M.Refused(EFULL);
        }
        suspendSender := IpcList.Suspend(suspendSender, t, prio, flag);
        calls := calls[t := M.Sending(value, timeout, Suspended)];
        return M.Blocked;
      }
      Store(value);
      ResumeReceiver();
      return M.Sent(value);
    }

    method RecvOrWait(t: Tid, timeout: int, prio: Tid -> nat) returns (out: M.Outcome)
      requires RingValid() && M.Consistent(State())
      modifies this
      ensures RingValid()
      ensures (State(), out) == M.TryRecv(old(State()), t, timeout, prio)
    {
      if entry == 0 {
        if timeout == 0 {
          return M.Refused(ETIMEOUT);
        }
        suspendThread := IpcList.Suspend(suspendThread, t, prio, flag);
        calls := calls[t := M.Receiving(timeout, Suspended)];
        return M.Blocked;
      }
      ghost var was := Contents();
      var value := Fetch();
      assert Contents() == was[1..];
      ResumeSender();
      return M.Received(value);
    }

    /** A blocked call is scheduled again without an error: what is left of its timeout. */
    method Continue(t: Tid, elapsed: nat) returns (call: M.Call)
      requires RingValid() && M.Consistent(State())
      requires t in calls && calls[t].wait.Woken?
      modifies this`calls
      ensures State() == M.Running(old(State()), t)
      ensures call == old(calls)[t].(timeout := Remaining(old(calls)[t].timeout, elapsed))
    {
      call := calls[t];
      calls := calls - {t};
      if call.timeout > 0 {
        var timeout := call.timeout - elapsed;
        if timeout < 0 {
          timeout := 0;
        }
        call := call.(timeout := timeout);
      }
    }

    /** A blocked call is scheduled again after a timeout or a reset: it returns the error. */
    method GiveUp(t: Tid) returns (error: Error)
      requires RingValid() && M.Consistent(State())
      requires t in calls && calls[t].wait.Failed?
      modifies this`calls
      ensures State() == M.Running(old(State()), t)
      ensures error == old(calls)[t].wait.error
    {
      error := calls[t].wait.error;
      calls := calls - {t};
    }

    /** rt_mb_send_wait, up to the point where the thread is scheduled away or the call returns. */
    method Send(t: Tid, value: M.Mail, timeout: int, prio: Tid -> nat) returns (out: M.Outcome)
      requires Valid() && M.Enabled(State(), M.Op.Send(t, value, timeout, prio))
      modifies this, msgPool
      ensures Valid()
      ensures (State(), out) == M.Step(old(State()), M.Op.Send(t, value, timeout, prio))
    {
      M.StepKeepsInv(State(), M.Op.Send(t, value, timeout, prio));
      out := SendOrWait(t, value, timeout, prio);
    }

    /** rt_mb_send_wait after rt_schedule has returned to the sender. */
    method SendAgain(t: Tid, elapsed: nat, prio: Tid -> nat) returns (out: M.Outcome)
      requires Valid() && M.Enabled(State(), M.Op.SendAgain(t, elapsed, prio))
      modifies this, msgPool
      ensures Valid()
      ensures (State(), out) == M.Step(old(State()), M.Op.SendAgain(t, elapsed, prio))
    {
      M.StepKeepsInv(State(), M.Op.SendAgain(t, elapsed, prio));
      if calls[t].wait.Failed? {
        var error := GiveUp(t);
        return M.Refused(error);
      } else {
        var call := Continue(t, elapsed);
        out := SendOrWait(t, call.value, call.timeout, prio);
      }
    }

    /** rt_mb_recv, up to the point where the thread is scheduled away or the call returns. */
    method Recv(t: Tid, timeout: int, prio: Tid -> nat) returns (out: M.Outcome)
      requires Valid() && M.Enabled(State(), M.Op.Recv(t, timeout, prio))
      modifies this
      ensures Valid()
      ensures (State(), out) == M.Step(old(State()), M.Op.Recv(t, timeout, prio))
    {
      M.StepKeepsInv(State(), M.Op.Recv(t, timeout, prio));
      out := RecvOrWait(t, timeout, prio);
    }

    /** rt_mb_recv after rt_schedule has returned to the receiver. */
    method RecvAgain(t: Tid, elapsed: nat, prio: Tid -> nat) returns (out: M.Outcome)
      requires Valid() && M.Enabled(State(), M.Op.RecvAgain(t, elapsed, prio))
      modifies this
      ensures Valid()
      ensures (State(), out) == M.Step(old(State()), M.Op.RecvAgain(t, elapsed, prio))
    {
      M.StepKeepsInv(State(), M.Op.RecvAgain(t, elapsed, prio));
      if calls[t].wait.Failed? {
        var error := GiveUp(t);
        return M.Refused(error);
      } else {
        var call := Continue(t, elapsed);
        out := RecvOrWait(t, call.timeout, prio);
      }
    }

    /** rt_thread_timeout for a thread suspended here. */
    method Expire(t: Tid)
      requires Valid() && M.Enabled(State(), M.Op.Expire(t))
      modifies this
      ensures Valid()
      ensures State() == M.Step(old(State()), M.Op.Expire(t)).0
    {
      M.StepKeepsInv(State(), M.Op.Expire(t));
      var call := calls[t];
      if call.Receiving? {
        suspendThread := Without(suspendThread, IndexOf(suspendThread, t));
      } else {
        suspendSender := Without(suspendSender, IndexOf(suspendSender, t));
      }
      calls := calls[t := call.(wait := Failed(ETIMEOUT))];
    }

    /** rt_mb_control with the reset command: both lists are emptied thread by thread. */
    method Reset()
      requires Valid()
      modifies this
      ensures Valid()
      ensures State() == M.Step(old(State()), M.Op.Reset).0
    {
      ghost var before := calls;
      M.StepKeepsInv(State(), M.Op.Reset);
      calls := ResumeAll(suspendThread, calls);
      calls := ResumeAll(suspendSender, calls);
      suspendThread, suspendSender := [], [];
      entry, inOffset, outOffset := 0, 0, 0;
      assert calls == M.AllFailed(before);
    }
  }
}
