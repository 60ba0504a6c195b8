/**
 The mailbox protocol as a state machine (src/ipc.c, rt_mb_send_wait / rt_mb_recv / rt_mb_control).

 One step is one interrupt-disabled section. A blocking call is several steps: the entry
 section, possibly a suspension that ends by a wake-up, a timeout or a reset, and the section
 that runs when the thread is scheduled again and re-checks the mailbox.
 */
module MailboxSpec {
  import opened Kernel
  import IpcList

  type Mail = bv32

  /** A call that has not returned. A negative timeout means wait forever. */
  datatype Call =
    | Sending(value: Mail, timeout: int, wait: Wait)
    | Receiving(timeout: int, wait: Wait)

  datatype State = State(size: nat, flag: IpcFlag, queue: seq<Mail>,
                         receivers: seq<Tid>, senders: seq<Tid>, calls: map<Tid, Call>)

  datatype Outcome = Sent(mail: Mail) | Received(mail: Mail) | Blocked | Refused(error: Error) | Silent

  /** prio gives the threads' priorities at the moment of the step; elapsed the ticks spent suspended. */
  datatype Op =
    | Send(t: Tid, value: Mail, timeout: int, prio: Tid -> nat)
    | SendAgain(t: Tid, elapsed: nat, prio: Tid -> nat)
    | Recv(t: Tid, timeout: int, prio: Tid -> nat)
    | RecvAgain(t: Tid, elapsed: nat, prio: Tid -> nat)
    | Expire(t: Tid)
    | Reset

  function Init(size: nat, flag: IpcFlag): State {
    State(size, flag, [], [], [], map[])
  }

  // ----- what a step does ---------------------------------------------------------------------

  function Resumed(calls: map<Tid, Call>, list: seq<Tid>): map<Tid, Call>
    requires list != [] ==> list[0] in calls
  {
    if list == [] then calls else calls[list[0] := calls[list[0]].(wait := Woken)]
  }

  function Rest(list: seq<Tid>): seq<Tid> {
    if list == [] then [] else list[1..]
  }

  /** The waiting lists name exactly the suspended calls of their kind. */
  ghost predicate Consistent(s: State) {
    && Distinct(s.receivers) && Distinct(s.senders)
    && (forall t :: t in s.receivers <==> t in s.calls && s.calls[t].Receiving? && s.calls[t].wait.Suspended?)
    && (forall t :: t in s.senders <==> t in s.calls && s.calls[t].Sending? && s.calls[t].wait.Suspended?)
  }

  /** Body of the send call from the test for a full mailbox onwards. */
  ghost function TrySend(s: State, t: Tid, value: Mail, timeout: int, prio: Tid -> nat): (State, Outcome)
    requires Consistent(s)
  {
    if |s.queue| < s.size then
      (s.(queue := s.queue + [value], receivers := Rest(s.receivers), calls := Resumed(s.calls, s.receivers)),
       Sent(value))
    else if timeout == 0 then
      (s, Refused(EFULL))
    else
      (s.(senders := IpcList.Suspended(s.senders, t, prio, s.flag),
          calls := s.calls[t := Sending(value, timeout, Suspended)]),
       Blocked)
  }

  ghost function TryRecv(s: State, t: Tid, timeout: int, prio: Tid -> nat): (State, Outcome)
    requires Consistent(s)
  {
    if s.queue != [] then
      (s.(queue := s.queue[1..], senders := Rest(s.senders), calls := Resumed(s.calls, s.senders)),
       Received(s.queue[0]))
    else if timeout == 0 then
      (s, Refused(ETIMEOUT))
    else
      (s.(receivers := IpcList.Suspended(s.receivers, t, prio, s.flag),
          calls := s.calls[t := Receiving(timeout, Suspended)]),
       Blocked)
  }

  /** rt_thread_timeout: off its list with an error. */
  ghost function Expired(s: State, t: Tid): State
    requires Consistent(s) && t in s.calls && s.calls[t].wait.Suspended?
  {
    var failed := s.calls[t := s.calls[t].(wait := Failed(ETIMEOUT))];
    if s.calls[t].Receiving? then
      s.(receivers := Without(s.receivers, IndexOf(s.receivers, t)), calls := failed)
    else
      s.(senders := Without(s.senders, IndexOf(s.senders, t)), calls := failed)
  }

  function AllFailed(calls: map<Tid, Call>): map<Tid, Call> {
    map t | t in calls :: if calls[t].wait.Suspended? then calls[t].(wait := Failed(ERROR)) else calls[t]
  }

  /** A thread is in at most one blocking call; an interrupt handler may only use timeout 0. */
  ghost predicate Enabled(s: State, op: Op) {
    match op
    case Send(t, _, timeout, _) => timeout == 0 || t !in s.calls
    case Recv(t, timeout, _) => timeout == 0 || t !in s.calls
    case SendAgain(t, _, _) => t in s.calls && s.calls[t].Sending? && !s.calls[t].wait.Suspended?
    case RecvAgain(t, _, _) => t in s.calls && s.calls[t].Receiving? && !s.calls[t].wait.Suspended?
    case Expire(t) => t in s.calls && s.calls[t].wait.Suspended? && s.calls[t].timeout > 0
    case Reset => true
  }

  /** s with t's call taken off the books: t is running again. */
  ghost function Running(s: State, t: Tid): (r: State)
    requires Consistent(s) && t in s.calls && !s.calls[t].wait.Suspended?
    ensures Consistent(r)
  {
    s.(calls := s.calls - {t})
  }

  ghost function Step(s: State, op: Op): (State, Outcome)
    requires Consistent(s) && Enabled(s, op)
  {
    match op
    case Send(t, value, timeout, prio) => TrySend(s, t, value, timeout, prio)
    case Recv(t, timeout, prio) => TryRecv(s, t, timeout, prio)
    case SendAgain(t, elapsed, prio) =>
      var c := s.calls[t];
      if c.wait.Failed? then (Running(s, t), Refused(c.wait.error))
      else TrySend(Running(s, t), t, c.value, Remaining(c.timeout, elapsed), prio)
    case RecvAgain(t, elapsed, prio) =>
      var c := s.calls[t];
      if c.wait.Failed? then (Running(s, t), Refused(c.wait.error))
      else TryRecv(Running(s, t), t, Remaining(c.timeout, elapsed), prio)
    case Expire(t) => (Expired(s, t), Silent)
    case Reset => (State(s.size, s.flag, [], [], [], AllFailed(s.calls)), Silent)
  }

  // ----- no lost wake-up ----------------------------------------------------------------------

  /** Receivers that have been made ready by a send and have not re-checked the mailbox yet. */
  ghost function WokenReceivers(calls: map<Tid, Call>): set<Tid> {
    set t | t in calls && calls[t].Receiving? && calls[t].wait.Woken?
  }

  ghost function WokenSenders(calls: map<Tid, Call>): set<Tid> {
    set t | t in calls && calls[t].Sending? && calls[t].wait.Woken?
  }

  ghost predicate NoLostWakeup(s: State) {
    && (s.receivers != [] ==> |s.queue| <= |WokenReceivers(s.calls)|)
    && (s.senders != [] ==> s.size - |s.queue| <= |WokenSenders(s.calls)|)
  }

  ghost predicate Inv(s: State) {
    Consistent(s) && |s.queue| <= s.size && NoLostWakeup(s)
  }

  lemma WakeReceiver(s: State)
    requires Consistent(s)
    ensures var r := s.(receivers := Rest(s.receivers), calls := Resumed(s.calls, s.receivers));
            && Consistent(r)
            && WokenSenders(r.calls) == WokenSenders(s.calls)
            && |WokenReceivers(r.calls)| == |WokenReceivers(s.calls)| + if s.receivers == [] then 0 else 1
  {
    var r := s.(receivers := Rest(s.receivers), calls := Resumed(s.calls, s.receivers));
    assert WokenSenders(r.calls) == WokenSenders(s.calls);
    if s.receivers != [] {
      assert WokenReceivers(r.calls) == WokenReceivers(s.calls) + {s.receivers[0]};
    }
  }

  lemma WakeSender(s: State)
    requires Consistent(s)
    ensures var r := s.(senders := Rest(s.senders), calls := Resumed(s.calls, s.senders));
            && Consistent(r)
            && WokenReceivers(r.calls) == WokenReceivers(s.calls)
            && |WokenSenders(r.calls)| == |WokenSenders(s.calls)| + if s.senders == [] then 0 else 1
  {
    var r := s.(senders := Rest(s.senders), calls := Resumed(s.calls, s.senders));
    assert WokenReceivers(r.calls) == WokenReceivers(s.calls);
    if s.senders != [] {
      assert WokenSenders(r.calls) == WokenSenders(s.calls) + {s.senders[0]};
    }
  }

  lemma ParkSender(s: State, t: Tid, call: Call, prio: Tid -> nat)
    requires Consistent(s) && t !in s.calls
    requires call.Sending? && call.wait.Suspended?
    ensures var r := s.(senders := IpcList.Suspended(s.senders, t, prio, s.flag), calls := s.calls[t := call]);
            Consistent(r) && WokenSenders(r.calls) == WokenSenders(s.calls) && WokenReceivers(r.calls) == WokenReceivers(s.calls)
  {
    IpcList.SuspendedDistinct(s.senders, t, prio, s.flag);
  }

  lemma ParkReceiver(s: State, t: Tid, call: Call, prio: Tid -> nat)
    requires Consistent(s) && t !in s.calls
    requires call.Receiving? && call.wait.Suspended?
    ensures var r := s.(receivers := IpcList.Suspended(s.receivers, t, prio, s.flag), calls := s.calls[t := call]);
            Consistent(r) && WokenSenders(r.calls) == WokenSenders(s.calls) && WokenReceivers(r.calls) == WokenReceivers(s.calls)
  {
    IpcList.SuspendedDistinct(s.receivers, t, prio, s.flag);
  }

  lemma TrySendKeepsInv(s: State, t: Tid, value: Mail, timeout: int, prio: Tid -> nat)
    requires Consistent(s) && |s.queue| <= s.size
    requires timeout == 0 || t !in s.calls
    requires s.receivers != [] ==> |s.queue| <= |WokenReceivers(s.calls)|
    requires s.senders != [] ==> s.size - |s.queue| <= |WokenSenders(s.calls)| + 1
    ensures Inv(TrySend(s, t, value, timeout, prio).0)
  {
    if |s.queue| < s.size {
      WakeReceiver(s);
    } else if timeout != 0 {
      ParkSender(s, t, Sending(value, timeout, Suspended), prio);
    }
  }

  lemma TryRecvKeepsInv(s: State, t: Tid, timeout: int, prio: Tid -> nat)
    requires Consistent(s) && |s.queue| <= s.size
    requires timeout == 0 || t !in s.calls
    requires s.receivers != [] ==> |s.queue| <= |WokenReceivers(s.calls)| + 1
    requires s.senders != [] ==> s.size - |s.queue| <= |WokenSenders(s.calls)|
    ensures Inv(TryRecv(s, t, timeout, prio).0)
  {
    if s.queue != [] {
      WakeSender(s);
    } else if timeout != 0 {
      ParkReceiver(s, t, Receiving(timeout, Suspended), prio);
    }
  }

  lemma RunningWoken(s: State, t: Tid)
    requires Consistent(s) && t in s.calls && !s.calls[t].wait.Suspended?
    ensures WokenReceivers(Running(s, t).calls) == WokenReceivers(s.calls) - {t}
    ensures WokenSenders(Running(s, t).calls) == WokenSenders(s.calls) - {t}
    ensures !s.calls[t].wait.Woken? || s.calls[t].Sending? ==> WokenReceivers(Running(s, t).calls) == WokenReceivers(s.calls)
    ensures !s.calls[t].wait.Woken? || s.calls[t].Receiving? ==> WokenSenders(Running(s, t).calls) == WokenSenders(s.calls)
  {
  }

  lemma ExpiredKeepsInv(s: State, t: Tid)
    requires Inv(s) && t in s.calls && s.calls[t].wait.Suspended?
    ensures Inv(Expired(s, t))
  {
    var r := Expired(s, t);
    assert WokenReceivers(r.calls) == WokenReceivers(s.calls);
    assert WokenSenders(r.calls) == WokenSenders(s.calls);
    var list := if s.calls[t].Receiving? then s.receivers else s.senders;
    WithoutDistinct(list, IndexOf(list, t));
  }

  /** A resumed thread looks again, its failure being reported first. */
  lemma AgainKeepsInv(s: State, op: Op)
    requires Inv(s) && Enabled(s, op) && (op.SendAgain? || op.RecvAgain?)
    ensures Inv(Step(s, op).0)
  {
    var t := op.t;
    var c := s.calls[t];
    RunningWoken(s, t);
    if c.wait.Woken? {
      if op.SendAgain? {
        TrySendKeepsInv(Running(s, t), t, c.value, Remaining(c.timeout, op.elapsed), op.prio);
      } else {
        TryRecvKeepsInv(Running(s, t), t, Remaining(c.timeout, op.elapsed), op.prio);
      }
    }
  }

  /** Every step keeps the waiting lists exact, the queue within its size and loses no wake-up. */
  lemma StepKeepsInv(s: State, op: Op)
    requires Inv(s) && Enabled(s, op)
    ensures Inv(Step(s, op).0)
  {
    if op.SendAgain? || op.RecvAgain? {
      AgainKeepsInv(s, op);
    } else {
      FirstKeepsInv(s, op);
    }
  }

  lemma FirstKeepsInv(s: State, op: Op)
    requires Inv(s) && Enabled(s, op) && !op.SendAgain? && !op.RecvAgain?
    ensures Inv(Step(s, op).0)
  {
    match op
    case Send(t, value, timeout, prio) => TrySendKeepsInv(s, t, value, timeout, prio);
    case Recv(t, timeout, prio) => TryRecvKeepsInv(s, t, timeout, prio);
    case Expire(t) => ExpiredKeepsInv(s, t);
    case Reset => ResetKeepsInv(s);
  }

  lemma ResetKeepsInv(s: State)
    requires Inv(s)
    ensures Inv(Step(s, Reset).0)
  {
  }

  /** Once every resumed thread has re-checked, receivers sleep only on an empty mailbox and senders only on a full one. */
  lemma NobodySleepsInVain(s: State)
    requires Inv(s)
    requires forall t :: t in s.calls ==> !s.calls[t].wait.Woken?
    ensures s.receivers != [] ==> s.queue == []
    ensures s.senders != [] ==> |s.queue| == s.size
    ensures s.size > 0 ==> s.receivers == [] || s.senders == []
  {
    assert WokenReceivers(s.calls) == {};
    assert WokenSenders(s.calls) == {};
  }

  // ----- how each section ends ----------------------------------------------------------------

  /** What becomes of the other calls: the first thread of `list` is made ready, nobody else is touched. */
  ghost predicate WakesFirst(before: map<Tid, Call>, after: map<Tid, Call>, list: seq<Tid>, t: Tid) {
    forall u :: u in before && u != t ==>
      u in after && after[u] == if list != [] && u == list[0] then before[u].(wait := Woken) else before[u]
  }

  /** A send with this many ticks left: accepted while there is room, refused with RT_EFULL if nothing is left, or else asleep. */
  ghost predicate SendEnds(s: State, t: Tid, value: Mail, left: int, r: State, out: Outcome) {
    && (out == Sent(value) <==> |s.queue| < s.size)
    && (out == Refused(EFULL) <==> |s.queue| >= s.size && left == 0)
    && (out == Blocked <==> |s.queue| >= s.size && left != 0)
    && (out.Sent? || out.Refused? || out.Blocked?)
    && (out.Blocked? ==> t in r.senders && t in r.calls && r.calls[t] == Sending(value, left, Suspended))
    && WakesFirst(s.calls, r.calls, if out.Sent? then s.receivers else [], t)
  }

  /** A receive: served while there is a mail, refused with RT_ETIMEOUT if nothing is left, or else asleep. */
  ghost predicate RecvEnds(s: State, t: Tid, left: int, r: State, out: Outcome) {
    && (out.Received? <==> s.queue != [])
    && (out.Received? ==> out.mail == s.queue[0])
    && (out == Refused(ETIMEOUT) <==> s.queue == [] && left == 0)
    && (out == Blocked <==> s.queue == [] && left != 0)
    && (out.Received? || out.Refused? || out.Blocked?)
    && (out.Blocked? ==> t in r.receivers && t in r.calls && r.calls[t] == Receiving(left, Suspended))
    && WakesFirst(s.calls, r.calls, if out.Received? then s.senders else [], t)
  }

  /** The ticks left of a timeout after a sleep; a negative one never runs down. */
  ghost predicate RunsDown(timeout: int, elapsed: nat, left: int) {
    if timeout < 0 then left == timeout else left == if elapsed < timeout then timeout - elapsed else 0
  }

  /** A first section of a call. */
  lemma CallEnds(s: State, op: Op)
    requires Inv(s) && Enabled(s, op) && (op.Send? || op.Recv?)
    ensures var (r, out) := Step(s, op);
            && (op.Send? ==> SendEnds(s, op.t, op.value, op.timeout, r, out))
            && (op.Recv? ==> RecvEnds(s, op.t, op.timeout, r, out))
  {
  }

  /** A later one: a failure is reported, anything else is as for a call with what is left of the timeout. */
  lemma CallAgainEnds(s: State, op: Op, left: int)
    requires Inv(s) && Enabled(s, op) && (op.SendAgain? || op.RecvAgain?)
    requires RunsDown(s.calls[op.t].timeout, op.elapsed, left)
    ensures var (r, out, c) := (Step(s, op).0, Step(s, op).1, s.calls[op.t]);
            && (c.wait.Failed? ==> out == Refused(c.wait.error) && r == s.(calls := s.calls - {op.t}))
            && (!c.wait.Failed? && op.SendAgain? ==> SendEnds(s, op.t, c.value, left, r, out))
            && (!c.wait.Failed? && op.RecvAgain? ==> RecvEnds(s, op.t, left, r, out))
            && (!out.Blocked? ==> op.t !in r.calls)
  {
    assert left == Remaining(s.calls[op.t].timeout, op.elapsed);
  }

  /** A sleep ends with RT_ERROR by a reset, with RT_ETIMEOUT by its own timeout, and well by a mail or by room. */
  lemma SleepEnds(s: State, op: Op, u: Tid)
    requires Inv(s) && Enabled(s, op) && u in s.calls && s.calls[u].wait.Suspended?
    ensures var (r, out) := Step(s, op);
            && u in r.calls
            && r.calls[u] == s.calls[u].(wait :=
                 if op.Reset? then Failed(ERROR)
                 else if op == Expire(u) then Failed(ETIMEOUT)
                 else if (out.Sent? && s.receivers != [] && s.receivers[0] == u) || (out.Received? && s.senders != [] && s.senders[0] == u) then Woken
                 else Suspended)
  {
    match op
    case Send(t, value, timeout, prio) => CallEnds(s, op);
    case Recv(t, timeout, prio) => CallEnds(s, op);
    case SendAgain(t, elapsed, prio) => CallAgainEnds(s, op, Remaining(s.calls[t].timeout, elapsed));
    case RecvAgain(t, elapsed, prio) => CallAgainEnds(s, op, Remaining(s.calls[t].timeout, elapsed));
    case Expire(t) =>
    case Reset =>
  }

  // ----- whole runs ---------------------------------------------------------------------------

  /** A state together with the mails accepted and delivered since the last reset. */
  datatype History = History(s: State, accepted: seq<Mail>, delivered: seq<Mail>)

  ghost function Record(h: History, op: Op): History
    requires Consistent(h.s) && Enabled(h.s, op)
  {
    var (s, out) := Step(h.s, op);
    if op.Reset? then History(s, [], [])
    else match out
      case Sent(m) => History(s, h.accepted + [m], h.delivered)
      case Received(m) => History(s, h.accepted, h.delivered + [m])
      case _ => History(s, h.accepted, h.delivered)
  }

  /** ops can happen one after the other from h and lead to h'. */
  ghost predicate Leads(h: History, ops: seq<Op>, h': History)
    decreases |ops|
  {
    if ops == [] then h == h'
    else Consistent(h.s) && Enabled(h.s, ops[0]) && Leads(Record(h, ops[0]), ops[1..], h')
  }

  ghost predicate Faithful(h: History) {
    Inv(h.s) && h.accepted == h.delivered + h.s.queue
  }

  /** Only an accepted mail enters the queue, at the tail; only a delivered one leaves it, from the head. */
  lemma StepMovesOneMail(s: State, op: Op)
    requires Consistent(s) && Enabled(s, op)
    ensures var (r, out) := Step(s, op);
            match out
            case Sent(m) => |s.queue| < s.size && r.queue == s.queue + [m]
            case Received(m) => s.queue == [m] + r.queue
            case _ => r.queue == if op.Reset? then [] else s.queue
    ensures Step(s, op).0.size == s.size
  {
  }

  lemma RecordKeepsFaithful(h: History, op: Op)
    requires Faithful(h) && Enabled(h.s, op)
    ensures Faithful(Record(h, op)) && Record(h, op).s.size == h.s.size
  {
    StepKeepsInv(h.s, op);
    StepMovesOneMail(h.s, op);
  }

  lemma {:induction false} RunKeepsFaithful(h: History, ops: seq<Op>, h': History)
    requires Faithful(h) && Leads(h, ops, h')
    ensures Faithful(h') && h'.s.size == h.s.size
    decreases |ops|
  {
    if ops != [] {
      RecordKeepsFaithful(h, ops[0]);
      RunKeepsFaithful(Record(h, ops[0]), ops[1..], h');
    }
  }

  /**
   In every state any interleaving can reach, the mailbox is a bounded FIFO of what was accepted and not
   yet delivered, and no wake-up is lost.
   */
  lemma ReachableMailbox(size: nat, flag: IpcFlag, ops: seq<Op>, h: History)
    requires Leads(History(Init(size, flag), [], []), ops, h)
    ensures h.accepted == h.delivered + h.s.queue
    ensures |h.s.queue| <= size
    ensures NoLostWakeup(h.s)
  {
    RunKeepsFaithful(History(Init(size, flag), [], []), ops, h);
  }

  /** A call fails by a reset, or by its timeout if it has one. */
  ghost predicate FailsRightly(s: State) {
    forall t :: t in s.calls && s.calls[t].wait.Failed? ==>
      s.calls[t].wait.error == ERROR || (s.calls[t].wait.error == ETIMEOUT && s.calls[t].timeout > 0)
  }

  lemma StepFailsRightly(s: State, op: Op)
    requires Inv(s) && Enabled(s, op) && FailsRightly(s)
    ensures FailsRightly(Step(s, op).0)
  {
    match op
    case Send(t, value, timeout, prio) => TrySendFailsRightly(s, t, value, timeout, prio);
    case Recv(t, timeout, prio) => TryRecvFailsRightly(s, t, timeout, prio);
    case SendAgain(t, elapsed, prio) =>
      TrySendFailsRightly(Running(s, t), t, s.calls[t].value, Remaining(s.calls[t].timeout, elapsed), prio);
    case RecvAgain(t, elapsed, prio) =>
      TryRecvFailsRightly(Running(s, t), t, Remaining(s.calls[t].timeout, elapsed), prio);
    case Expire(t) =>
    case Reset =>
  }

  lemma TrySendFailsRightly(s: State, t: Tid, value: Mail, timeout: int, prio: Tid -> nat)
    requires Consistent(s) && FailsRightly(s)
    ensures FailsRightly(TrySend(s, t, value, timeout, prio).0)
  {
  }

  lemma TryRecvFailsRightly(s: State, t: Tid, timeout: int, prio: Tid -> nat)
    requires Consistent(s) && FailsRightly(s)
    ensures FailsRightly(TryRecv(s, t, timeout, prio).0)
  {
  }

  lemma RecordFailsRightly(h: History, op: Op, r: History)
    requires Inv(h.s) && Enabled(h.s, op) && FailsRightly(h.s) && r == Record(h, op)
    ensures Inv(r.s) && FailsRightly(r.s)
  {
    assert r.s == Step(h.s, op).0;
    StepKeepsInv(h.s, op);
    StepFailsRightly(h.s, op);
  }

  lemma {:induction false} RunFailsRightly(h: History, ops: seq<Op>, h': History)
    requires Inv(h.s) && FailsRightly(h.s) && Leads(h, ops, h')
    ensures Inv(h'.s) && FailsRightly(h'.s)
    decreases |ops|
  {
    if ops != [] {
      RecordFailsRightly(h, ops[0], Record(h, ops[0]));
      RunFailsRightly(Record(h, ops[0]), ops[1..], h');
    }
  }

  /** A call that waits forever ends by success or by a reset, never with RT_ETIMEOUT or RT_EFULL, and goes on waiting forever. */
  lemma ForeverIsForever(size: nat, flag: IpcFlag, ops: seq<Op>, h: History, op: Op)
    requires Leads(History(Init(size, flag), [], []), ops, h) && Consistent(h.s) && Enabled(h.s, op)
    requires if op.Send? || op.Recv? then op.timeout < 0 else (op.SendAgain? || op.RecvAgain?) && h.s.calls[op.t].timeout < 0
    ensures var (r, out) := Step(h.s, op);
            && (out.Sent? || out.Received? || out == Refused(ERROR) || out.Blocked?)
            && (out.Blocked? ==> op.t in r.calls && r.calls[op.t].timeout < 0)
            && (op.Send? || op.Recv? ==> !out.Refused?)
  {
    RunFailsRightly(History(Init(size, flag), [], []), ops, h);
    WaitsOn(h.s, op);
  }

  lemma WaitsOn(s: State, op: Op)
    requires Inv(s) && FailsRightly(s) && Enabled(s, op)
    requires if op.Send? || op.Recv? then op.timeout < 0 else (op.SendAgain? || op.RecvAgain?) && s.calls[op.t].timeout < 0
    ensures var (r, out) := Step(s, op);
            && (out.Sent? || out.Received? || out == Refused(ERROR) || out.Blocked?)
            && (out.Blocked? ==> op.t in r.calls && r.calls[op.t].timeout < 0)
            && (op.Send? || op.Recv? ==> !out.Refused?)
  {
    if op.Send? || op.Recv? {
      CallEnds(s, op);
    } else {
      CallAgainEnds(s, op, s.calls[op.t].timeout);
    }
  }
}
