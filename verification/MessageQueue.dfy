/** The message queue object: singly linked nodes in one pool, updated in place (src/ipc.c). */
module MessageQueue {
  import opened Kernel
  import IpcList
  import Q = MessageQueueSpec

  const NULL := -1

  /** RT_ALIGN(n, 8) */
  function Align(n: nat): nat {
    (n + 7) / 8 * 8
  }

  /** The messages a pool has room for, each behind a link. */
  function Slots(poolSize: nat, msgSize: nat): nat {
    Quotient(poolSize, Align(msgSize) + 4)
  }

  function Quotient(a: nat, b: nat): nat
    requires b > 0
  {
    a / b
  }

  /** A node has room for the message rounded up to 8, and the pool is cut into as many nodes with their links as fit. */
  lemma PoolIsCut(poolSize: nat, msgSize: nat)
    ensures Align(msgSize) % 8 == 0 && msgSize <= Align(msgSize) < msgSize + 8
    ensures Slots(poolSize, msgSize) * (Align(msgSize) + 4) <= poolSize < Slots(poolSize, msgSize) * (Align(msgSize) + 4) + Align(msgSize) + 4
  {
    Cut(poolSize, Align(msgSize) + 4);
  }

  lemma Cut(a: nat, b: nat)
    requires b > 0
    ensures Quotient(a, b) * b <= a < Quotient(a, b) * b + b
  {
    assert a == a / b * b + a % b;
  }

  // ----- chains of nodes ----------------------------------------------------------------------

  /** From head, following next visits exactly `nodes` and ends in NULL. */
  ghost predicate Chain(next: seq<int>, head: int, nodes: seq<nat>)
    decreases |nodes|
  {
    if nodes == [] then head == NULL
    else head == nodes[0] && nodes[0] < |next| && Chain(next, next[nodes[0]], nodes[1..])
  }

  lemma {:induction false} ChainFrame(next: seq<int>, head: int, nodes: seq<nat>, n: nat, v: int)
    requires Chain(next, head, nodes) && n < |next| && n !in nodes
    ensures Chain(next[n := v], head, nodes)
    decreases |nodes|
  {
    if nodes != [] {
      ChainFrame(next, next[nodes[0]], nodes[1..], n, v);
    }
  }

  lemma ChainPush(next: seq<int>, head: int, nodes: seq<nat>, n: nat)
    requires Chain(next, head, nodes) && n < |next| && n !in nodes
    ensures Chain(next[n := head], n, [n] + nodes)
  {
    ChainFrame(next, head, nodes, n, head);
    assert ([n] + nodes)[1..] == nodes;
  }

  lemma {:induction false} ChainAppend(next: seq<int>, head: int, nodes: seq<nat>, n: nat)
    requires Chain(next, head, nodes) && Distinct(nodes) && n < |next| && n !in nodes && next[n] == NULL
    ensures nodes == [] ==> Chain(next, n, [n])
    ensures nodes != [] ==> var last := nodes[|nodes| - 1];
                            last < |next| && Chain(next[last := n], head, nodes + [n])
    decreases |nodes|
  {
    if |nodes| == 1 {
      assert (nodes + [n])[1..] == [n];
    } else if nodes != [] {
      ChainAppend(next, next[nodes[0]], nodes[1..], n);
      assert (nodes + [n])[1..] == nodes[1..] + [n];
    }
  }

  /** tail is the last queued node, or NULL. */
  ghost predicate EndsIn(tail: int, nodes: seq<nat>) {
    tail == if nodes == [] then NULL else nodes[|nodes| - 1]
  }

  /** A node about to be appended already ends the list. */
  ghost predicate Terminated(next: seq<int>, flights: map<Tid, Q.Flight>) {
    forall t :: t in flights && flights[t].Filling? && flights[t].filled && !flights[t].urgent ==>
      flights[t].node < |next| && next[flights[t].node] == NULL
  }

  lemma TerminatedFrame(next: seq<int>, flights: map<Tid, Q.Flight>, n: nat, v: int)
    requires Terminated(next, flights) && n < |next|
    requires n !in Q.InFlight(flights) || v == NULL
    ensures Terminated(next[n := v], flights)
  {
    forall t | t in flights
      ensures flights[t].node in Q.InFlight(flights)
    {
    }
  }

  /** What the receive path hands back: a node to copy from, the need to wait, or an error. */
  datatype Receipt = Node(node: int) | Wait | Fail(error: Error)

  ghost predicate Reports(r: Receipt, out: Q.Outcome, flights: map<Tid, Q.Flight>, t: Tid) {
    match r
    case Node(node) => out.Taken? && t in flights && flights[t].node == node
    case Wait => out.Blocked?
    case Fail(error) => out == Q.Refused(error)
  }

  // ----- the object ---------------------------------------------------------------------------

  class MessageQueue {
    const flag: IpcFlag
    const msgSize: nat
    const next: array<int>
    const buffers: array<Q.Bytes>
    var msgQueueHead: int
    var msgQueueTail: int
    var msgQueueFree: int
    var entry: nat
    var suspendThread: seq<Tid>
    var sleepers: map<Tid, Q.Sleeper>

    /** What the links stand for, and the local variables of calls in progress. */
    ghost var queued: seq<nat>
    ghost var msgs: seq<Q.Bytes>
    ghost var free: seq<nat>
    ghost var flights: map<Tid, Q.Flight>

    ghost function State(): Q.State
      reads this, buffers
    {
      Q.State(buffers.Length, msgSize, flag, buffers[..], queued, msgs, free, flights, suspendThread, sleepers)
    }

    ghost predicate Chained()
      reads this, next
    {
      && next.Length == buffers.Length
      && Chain(next[..], msgQueueHead, queued) && EndsIn(msgQueueTail, queued)
      && Chain(next[..], msgQueueFree, free)
      && Terminated(next[..], flights)
    }

    ghost predicate Linked()
      reads this, next
    {
      Chained() && entry == |queued|
    }

    ghost predicate Valid()
      reads this, next, buffers
    {
      next as object != buffers && Q.Inv(State()) && Linked()
    }

    /** rt_mq_init */
    constructor (msgSize: nat, poolSize: nat, flag: IpcFlag)
      requires Align(msgSize) < 0x1_0000 && Slots(poolSize, msgSize) < 0x1_0000
      ensures Valid() && fresh(next) && fresh(buffers)
      ensures Q.Initial(State()) && this.flag == flag
      ensures this.msgSize == Align(msgSize) && next.Length == Slots(poolSize, msgSize)
    {
      this.flag := flag;
      this.msgSize := Align(msgSize);
      var maxMsgs := Slots(poolSize, msgSize);
      next := new int[maxMsgs](_ => NULL);
      buffers := new Q.Bytes[maxMsgs](_ => seq(Align(msgSize), _ => 0));
      msgQueueHead, msgQueueTail, msgQueueFree := NULL, NULL, NULL;
      entry := 0;
      suspendThread, sleepers := [], map[];
      queued, msgs, free, flights := [], [], [], map[];
      new;
      LinkFree();
      FreshIsValid();
    }

    /** An object with all nodes on the free list and nothing else is valid. */
    lemma FreshIsValid()
      requires next as object != buffers && next.Length == buffers.Length
      requires msgQueueHead == msgQueueTail == NULL && entry == 0 && suspendThread == [] && sleepers == map[]
      requires queued == [] && msgs == [] && flights == map[]
      requires free == Q.Countdown(next.Length) && Chain(next[..], msgQueueFree, free)
      requires forall k :: 0 <= k < buffers.Length ==> |buffers[k]| == msgSize
      requires msgSize < 0x1_0000 && buffers.Length < 0x1_0000
      ensures Valid() && Q.Initial(State())
    {
      Q.InitialInv(State());
    }

    /** Every node goes on the free list. */
    method LinkFree()
      requires msgQueueFree == NULL && free == []
      modifies this`msgQueueFree, this`free, next
      ensures free == Q.Countdown(next.Length) && Chain(next[..], msgQueueFree, free)
    {
      var temp := 0;
      while temp < next.Length
        invariant temp <= next.Length
        invariant free == Q.Countdown(temp) && Chain(next[..], msgQueueFree, free)
      {
        ChainPush(next[..], msgQueueFree, free, temp);
        next[temp] := msgQueueFree;
        msgQueueFree := temp;
        free := [temp] + free;
        temp := temp + 1;
      }
    }

    /** The head of the free list, if there is one. */
    method TakeFree(t: Tid, msg: Q.Bytes, urgent: bool) returns (r: Receipt)
      requires Linked() && t !in flights
      modifies this`msgQueueFree, this`free, this`flights
      ensures Linked() && State() == Q.Begin(old(State()), t, msg, urgent).0
      ensures match Q.Begin(old(State()), t, msg, urgent).1
              case Begun(node) => r == Node(node)
              case Refused(error) => r == Fail(error)
              case _ => false
    {
      if |msg| > msgSize {
        return Fail(ERROR);
      }
      var node := msgQueueFree;
      if node == NULL {
        return Fail(EFULL);
      }
      msgQueueFree := next[node];
      flights := flights[t := Q.Filling(free[0], msg, urgent, false)];
      free := free[1..];
      return Node(node);
    }

    /** First section of rt_mq_send and rt_mq_urgent. */
    method SendBegin(t: Tid, msg: Q.Bytes, urgent: bool) returns (r: Receipt)
      requires Valid() && Q.Enabled(State(), Q.SendBegin(t, msg, urgent))
      modifies this
      ensures Valid()
      ensures State() == Q.Step(old(State()), Q.SendBegin(t, msg, urgent)).0
      ensures match Q.Step(old(State()), Q.SendBegin(t, msg, urgent)).1
              case Begun(node) => r == Node(node)
              case Refused(error) => r == Fail(error)
              case _ => false
    {
      Q.StepKeepsInv(State(), Q.SendBegin(t, msg, urgent));
      r := TakeFree(t, msg, urgent);
    }

    /** The part of a send between its two sections; node and msg are the sender's local variables. */
    method Fill(t: Tid, node: nat, msg: Q.Bytes, urgent: bool)
      requires Valid() && Q.Enabled(State(), Q.Fill(t))
      requires flights[t] == Q.Filling(node, msg, urgent, false)
      modifies this, next, buffers
      ensures Valid()
      ensures State() == Q.Step(old(State()), Q.Fill(t)).0
    {
      Q.StepKeepsInv(State(), Q.Fill(t));
      assert node in Q.InFlight(flights);
      if !urgent {
        ChainFrame(next[..], msgQueueHead, queued, node, NULL);
        ChainFrame(next[..], msgQueueFree, free, node, NULL);
        next[node] := NULL;
      }
      buffers[node] := msg + buffers[node][|msg|..];
      flights := flights[t := flights[t].(filled := true)];
    }

    method ResumeReceiver()
      requires suspendThread != [] ==> suspendThread[0] in sleepers
      modifies this`suspendThread, this`sleepers
      ensures suspendThread == Q.Rest(old(suspendThread))
      ensures sleepers == Q.Resumed(old(sleepers), old(suspendThread))
    {
      if suspendThread != [] {
        var thread := suspendThread[0];
        suspendThread := suspendThread[1..];
        sleepers := sleepers[thread := sleepers[thread].(wait := Woken)];
      }
    }

    /** A node that is on neither list and in no flight, and the tail link. */
    method LinkTail(node: nat)
      requires Linked() && Distinct(queued) && node < next.Length && next[node] == NULL
      requires node !in queued && node !in free
      requires forall n :: n in queued ==> n !in free && n !in Q.InFlight(flights)
      modifies this`msgQueueHead, this`msgQueueTail, this`entry, this`queued, next
      ensures Linked()
      ensures queued == old(queued) + [node]
    {
      ChainAppend(next[..], msgQueueHead, queued, node);
      if msgQueueTail != NULL {
        assert msgQueueTail in queued;
        ChainFrame(next[..], msgQueueFree, free, msgQueueTail, node);
        TerminatedFrame(next[..], flights, msgQueueTail, node);
        next[msgQueueTail] := node;
      }
      msgQueueTail := node;
      if msgQueueHead == NULL {
        msgQueueHead := node;
      }
      entry := entry + 1;
      queued := queued + [node];
    }

    method LinkHead(node: nat)
      requires Linked() && node < next.Length
      requires node !in queued && node !in free && node !in Q.InFlight(flights)
      modifies this`msgQueueHead, this`msgQueueTail, this`entry, this`queued, next
      ensures Linked()
      ensures queued == [node] + old(queued)
    {
      ChainPush(next[..], msgQueueHead, queued, node);
      ChainFrame(next[..], msgQueueFree, free, node, msgQueueHead);
      TerminatedFrame(next[..], flights, node, msgQueueHead);
      next[node] := msgQueueHead;
      msgQueueHead := node;
      if msgQueueTail == NULL {
        msgQueueTail := node;
      }
      entry := entry + 1;
      queued := [node] + queued;
    }

    /** The node leaves its flight and is linked at the head or the tail; one receiver is made ready. */
    method Link(t: Tid, node: nat, urgent: bool)
      requires Linked() && Distinct(queued) && Q.Listed(suspendThread, sleepers)
      requires t in flights && flights[t].Filling? && flights[t].node == node && flights[t].urgent == urgent
      requires node < next.Length && node !in queued && node !in free && node !in Q.InFlight(flights - {t})
      requires urgent || next[node] == NULL
      requires forall n :: n in queued ==> n !in free && n !in Q.InFlight(flights)
      modifies this, next
      ensures Linked() && State() == Q.Linked(old(State()), t)
    {
      msgs := if urgent then [flights[t].msg] + msgs else msgs + [flights[t].msg];
      flights := flights - {t};
      if urgent {
        LinkHead(node);
      } else {
        LinkTail(node);
      }
      ResumeReceiver();
    }

    /** Second section of rt_mq_send and rt_mq_urgent. */
    method SendEnd(t: Tid, node: nat, urgent: bool)
      requires Valid() && Q.Enabled(State(), Q.SendEnd(t))
      requires flights[t].node == node && flights[t].urgent == urgent
      modifies this, next
      ensures Valid()
      ensures State() == Q.Step(old(State()), Q.SendEnd(t)).0
    {
      Q.StepKeepsInv(State(), Q.SendEnd(t));
      Q.FlightLands(flights, t);
      Link(t, node, urgent);
    }

    /** The receive path from the test for an empty queue on. */
    method RecvOrWait(t: Tid, want: nat, timeout: int, prio: Tid -> nat) returns (r: Receipt)
      requires Linked() && Distinct(queued) && |msgs| == |queued| && t !in flights
      modifies this
      ensures Linked()
      ensures State() == Q.TryRecv(old(State()), t, want, timeout, prio).0
      ensures Reports(r, Q.TryRecv(old(State()), t, want, timeout, prio).1, flights, t)
    {
      if entry == 0 {
        if timeout == 0 {
          return Fail(ETIMEOUT);
        }
        suspendThread := IpcList.Suspend(suspendThread, t, prio, flag);
        sleepers := sleepers[t := Q.Sleeper(want, timeout, Suspended)];
        return Wait;
      }
      var msg := msgQueueHead;
      msgQueueHead := next[msg];
      if msgQueueTail == msg {
        msgQueueTail := NULL;
      }
      entry := entry - 1;
      flights := flights[t := Q.Draining(queued[0], msgs[0], want, None)];
      queued, msgs := queued[1..], msgs[1..];
      return Node(msg);
    }

    /** rt_mq_recv, up to the point where the thread is scheduled away, fails or has a node to copy from. */
    method Recv(t: Tid, want: nat, timeout: int, prio: Tid -> nat) returns (r: Receipt)
      requires Valid() && Q.Enabled(State(), Q.Op.Recv(t, want, timeout, prio))
      modifies this
      ensures Valid()
      ensures State() == Q.Step(old(State()), Q.Op.Recv(t, want, timeout, prio)).0
      ensures Reports(r, Q.Step(old(State()), Q.Op.Recv(t, want, timeout, prio)).1, flights, t)
    {
      Q.StepKeepsInv(State(), Q.Op.Recv(t, want, timeout, prio));
      r := RecvOrWait(t, want, timeout, prio);
    }

    /** What is left of the timeout of a receiver that runs again without an error. */
    method Continue(t: Tid, elapsed: nat) returns (want: nat, timeout: int)
      requires t in sleepers
      modifies this`sleepers
      ensures State() == old(State()).(sleepers := old(sleepers) - {t})
      ensures want == old(sleepers)[t].want && timeout == Remaining(old(sleepers)[t].timeout, elapsed)
    {
      want, timeout := sleepers[t].want, sleepers[t].timeout;
      sleepers := sleepers - {t};
      if timeout > 0 {
        timeout := timeout - elapsed;
        if timeout < 0 {
          timeout := 0;
        }
      }
    }

    method RunAgain(t: Tid, elapsed: nat, prio: Tid -> nat) returns (r: Receipt)
      requires Linked() && Distinct(queued) && |msgs| == |queued|
      requires t !in flights && t in sleepers
      modifies this
      ensures Linked()
      ensures State() == Q.Again(old(State()), t, elapsed, prio).0
      ensures Reports(r, Q.Again(old(State()), t, elapsed, prio).1, flights, t)
    {
      if sleepers[t].wait.Failed? {
        r := Fail(sleepers[t].wait.error);
        sleepers := sleepers - {t};
      } else {
        var want, timeout := Continue(t, elapsed);
        r := RecvOrWait(t, want, timeout, prio);
      }
    }

    /** rt_mq_recv after rt_schedule has returned to the receiver. */
    method RecvAgain(t: Tid, elapsed: nat, prio: Tid -> nat) returns (r: Receipt)
      requires Valid() && Q.Enabled(State(), Q.Op.RecvAgain(t, elapsed, prio))
      modifies this
      ensures Valid()
      ensures State() == Q.Step(old(State()), Q.Op.RecvAgain(t, elapsed, prio)).0
      ensures Reports(r, Q.Step(old(State()), Q.Op.RecvAgain(t, elapsed, prio)).1, flights, t)
    {
      Q.StepKeepsInv(State(), Q.Op.RecvAgain(t, elapsed, prio));
      r := RunAgain(t, elapsed, prio);
    }

    /** The receiver's copy out of the node it took. */
    method Drain(t: Tid, node: nat, want: nat) returns (got: Q.Bytes)
      requires Valid() && Q.Enabled(State(), Q.Drain(t))
      requires flights[t].node == node && flights[t].want == want
      modifies this`flights
      ensures Valid()
      ensures State() == Q.Step(old(State()), Q.Drain(t)).0
      ensures flights[t].got == Some(got)
    {
      Q.StepKeepsInv(State(), Q.Drain(t));
      got := buffers[node][..if want > msgSize then msgSize else want];
      flights := flights[t := flights[t].(got := Some(got))];
    }

    method PutFree(t: Tid, node: nat)
      requires Linked() && node < next.Length && t in flights && flights[t].node == node
      requires node !in queued && node !in free && node !in Q.InFlight(flights - {t})
      modifies this`flights, this`msgQueueFree, this`free, next
      ensures Linked() && State() == Q.Released(old(State()), t)
    {
      flights := flights - {t};
      ChainPush(next[..], msgQueueFree, free, node);
      ChainFrame(next[..], msgQueueHead, queued, node, msgQueueFree);
      TerminatedFrame(next[..], flights, node, msgQueueFree);
      next[node] := msgQueueFree;
      msgQueueFree := node;
      free := [node] + free;
    }

    /** Last section of rt_mq_recv. */
    method RecvEnd(t: Tid, node: nat)
      requires Valid() && Q.Enabled(State(), Q.RecvEnd(t)) && flights[t].node == node
      modifies this, next
      ensures Valid()
      ensures State() == Q.Step(old(State()), Q.RecvEnd(t)).0
    {
      Q.StepKeepsInv(State(), Q.RecvEnd(t));
      Q.FlightLands(flights, t);
      PutFree(t, node);
    }

    method Drop(t: Tid)
      requires t in suspendThread && t in sleepers
      modifies this`suspendThread, this`sleepers
      ensures State() == Q.Expired(old(State()), t)
    {
      suspendThread := Without(suspendThread, IndexOf(suspendThread, t));
      sleepers := sleepers[t := sleepers[t].(wait := Failed(ETIMEOUT))];
    }

    /** rt_thread_timeout for a receiver suspended here. */
    method Expire(t: Tid)
      requires Valid() && Q.Enabled(State(), Q.Expire(t))
      modifies this
      ensures Valid()
      ensures State() == Q.Step(old(State()), Q.Expire(t)).0
    {
      Q.StepKeepsInv(State(), Q.Expire(t));
      Drop(t);
    }

    /** rt_ipc_list_resume_all on the receivers. */
    method ResumeAll()
      requires Q.Listed(suspendThread, sleepers)
      modifies this`suspendThread, this`sleepers
      ensures suspendThread == [] && sleepers == Q.AllFailed(old(sleepers))
    {
      while suspendThread != []
        invariant Q.Listed(suspendThread, sleepers)
        invariant Q.AllFailed(sleepers) == Q.AllFailed(old(sleepers))
        decreases |suspendThread|
      {
        var thread := suspendThread[0];
        FirstLeaves(suspendThread);
        sleepers := sleepers[thread := sleepers[thread].(wait := Failed(ERROR))];
        suspendThread := suspendThread[1..];
      }
    }

    /** One message from the head of the queue to the free list. */
    method FreeHead()
      requires Chained() && Distinct(queued) && queued != []
      requires forall n :: n in queued ==> n !in free && n !in Q.InFlight(flights)
      modifies this`msgQueueHead, this`msgQueueTail, this`msgQueueFree, this`queued, this`free, next
      ensures Chained()
      ensures queued == old(queued)[1..] && free == [old(queued)[0]] + old(free)
    {
      var msg := msgQueueHead;
      msgQueueHead := next[msg];
      if msgQueueTail == msg {
        msgQueueTail := NULL;
      }
      ghost var rest := queued[1..];
      assert queued == [queued[0]] + rest;
      ChainFrame(next[..], msgQueueHead, rest, msg, msgQueueFree);
      ChainPush(next[..], msgQueueFree, free, msg);
      TerminatedFrame(next[..], flights, msg, msgQueueFree);
      next[msg] := msgQueueFree;
      msgQueueFree := msg;
      queued, free := rest, [msg] + free;
    }

    /** Every message, head first. */
    method FreeAll()
      requires Chained() && Distinct(queued)
      requires forall n :: n in queued ==> n !in free && n !in Q.InFlight(flights)
      modifies this`msgQueueHead, this`msgQueueTail, this`msgQueueFree, this`queued, this`free, next
      ensures Chained() && queued == [] && free == Q.Reversed(old(queued)) + old(free)
    {
      while msgQueueHead != NULL
        invariant Chained() && Distinct(queued)
        invariant forall n :: n in queued ==> n !in free && n !in Q.InFlight(flights)
        invariant Q.Reversed(queued) + free == Q.Reversed(old(queued)) + old(free)
        decreases |queued|
      {
        ghost var before, rest := free, queued[1..];
        assert queued == [queued[0]] + rest;
        FreeHead();
        assert Q.Reversed(rest) + free == Q.Reversed([free[0]] + rest) + before;
      }
    }

    method Clear()
      requires Chained() && Distinct(queued) && Q.Listed(suspendThread, sleepers)
      requires forall n :: n in queued ==> n !in free && n !in Q.InFlight(flights)
      modifies this, next
      ensures Linked() && State() == Q.Cleared(old(State()))
    {
      ResumeAll();
      FreeAll();
      entry := 0;
      msgs := [];
    }

    /** rt_mq_control with the reset command. */
    method Reset()
      requires Valid()
      modifies this, next
      ensures Valid()
      ensures State() == Q.Step(old(State()), Q.Reset).0
    {
      Q.StepKeepsInv(State(), Q.Reset);
      Clear();
    }
  }
}
