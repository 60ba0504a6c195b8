/**
 The message queue protocol as a state machine (src/ipc.c, rt_mq_send / rt_mq_urgent / rt_mq_recv / rt_mq_control).

 A send takes a node in one interrupt-disabled section, copies its message with interrupts enabled, and
 links the node in a second section; a receive unlinks, copies and gives back. In between the node is in
 flight: on neither list. Steps of any number of threads, interrupt handlers, timeouts and resets interleave.
 */
module MessageQueueSpec {
  import opened Kernel
  import IpcList

  type Bytes = seq<bv8>

  /** A node between the two sections of a send or a receive. msg is what the sender of the node passed. */
  datatype Flight =
    | Filling(node: nat, msg: Bytes, urgent: bool, filled: bool)
    | Draining(node: nat, msg: Bytes, want: nat, got: Option<Bytes>)

  /** A receiver inside rt_schedule, or made ready and not yet running. */
  datatype Sleeper = Sleeper(want: nat, timeout: int, wait: Wait)

  /** queued and msgs are parallel: the nodes in the queue and the messages their senders passed. */
  datatype State = State(maxMsgs: nat, msgSize: nat, flag: IpcFlag, buffers: seq<Bytes>,
                         queued: seq<nat>, msgs: seq<Bytes>, free: seq<nat>, flights: map<Tid, Flight>,
                         receivers: seq<Tid>, sleepers: map<Tid, Sleeper>)

  datatype Outcome =
    | Begun(node: nat) | Sent(msg: Bytes) | Taken(msg: Bytes) | Received(got: Bytes)
    | Blocked | Refused(error: Error) | Silent

  datatype Op =
    | SendBegin(t: Tid, msg: Bytes, urgent: bool)
    | Fill(t: Tid)
    | SendEnd(t: Tid)
    | Recv(t: Tid, want: nat, timeout: int, prio: Tid -> nat)
    | RecvAgain(t: Tid, elapsed: nat, prio: Tid -> nat)
    | Drain(t: Tid)
    | RecvEnd(t: Tid)
    | Expire(t: Tid)
    | Reset

  function Min(a: nat, b: nat): nat {
    if a <= b then a else b
  }

  /** n - 1, ..., 1, 0: the order in which the initial loop leaves the free list. */
  function Countdown(n: nat): (s: seq<nat>)
    ensures |s| == n && forall i :: 0 <= i < n ==> s[i] == n - 1 - i
  {
    if n == 0 then [] else [n - 1] + Countdown(n - 1)
  }

  /** The elements of s from last to first. */
  function Reversed<T>(s: seq<T>): (r: seq<T>)
    ensures |r| == |s| && forall i :: 0 <= i < |s| ==> r[i] == s[|s| - 1 - i]
  {
    if s == [] then [] else Reversed(s[1..]) + [s[0]]
  }

  // ----- the invariant ------------------------------------------------------------------------

  ghost function InFlight(flights: map<Tid, Flight>): set<nat> {
    set t | t in flights :: flights[t].node
  }

  ghost predicate OwnNodes(flights: map<Tid, Flight>) {
    forall t, u :: t in flights && u in flights && t != u ==> flights[t].node != flights[u].node
  }

  /** Every node is in exactly one place: queued, free, or in exactly one flight. */
  ghost predicate Partitioned(max: nat, queued: seq<nat>, free: seq<nat>, flights: map<Tid, Flight>) {
    && Distinct(queued) && Distinct(free) && OwnNodes(flights)
    && (forall n :: n in queued ==> n !in free && n !in InFlight(flights))
    && (forall n :: n in free ==> n !in InFlight(flights))
    && (forall n: nat :: n < max <==> n in queued || n in free || n in InFlight(flights))
    && |queued| + |free| + |flights| == max
  }

  /** Every queued node holds the message it stands for. */
  ghost predicate Holds(buffers: seq<Bytes>, queued: seq<nat>, msgs: seq<Bytes>) {
    && |msgs| == |queued|
    && forall i :: 0 <= i < |queued| ==> queued[i] < |buffers| && msgs[i] <= buffers[queued[i]]
  }

  /** So does a node in flight, once it is filled; a copy taken out of it is a copy of what it holds. */
  ghost predicate Carries(buffers: seq<Bytes>, flights: map<Tid, Flight>) {
    forall t :: t in flights ==>
      var f := flights[t];
      && f.node < |buffers|
      && (f.Filling? ==> |f.msg| <= |buffers[f.node]| && (f.filled ==> f.msg <= buffers[f.node]))
      && (f.Draining? ==> f.msg <= buffers[f.node] &&
                          (f.got.Some? ==> f.got.value == buffers[f.node][..Min(f.want, |buffers[f.node]|)]))
  }

  ghost predicate Stored(s: State) {
    && |s.buffers| == s.maxMsgs && (forall n :: 0 <= n < s.maxMsgs ==> |s.buffers[n]| == s.msgSize)
    && Holds(s.buffers, s.queued, s.msgs)
    && Carries(s.buffers, s.flights)
  }

  ghost predicate Listed(receivers: seq<Tid>, sleepers: map<Tid, Sleeper>) {
    && Distinct(receivers)
    && forall t :: t in receivers <==> t in sleepers && sleepers[t].wait.Suspended?
  }

  /** Receivers made ready by a send that have not re-checked the queue yet. */
  ghost function WokenReceivers(sleepers: map<Tid, Sleeper>): set<Tid> {
    set t | t in sleepers && sleepers[t].wait.Woken?
  }

  ghost predicate Inv(s: State) {
    && Partitioned(s.maxMsgs, s.queued, s.free, s.flights)
    && Stored(s)
    && Listed(s.receivers, s.sleepers)
    && (s.receivers != [] ==> |s.queued| <= |WokenReceivers(s.sleepers)|)
  }

  // ----- what a step does ---------------------------------------------------------------------

  ghost predicate Enabled(s: State, op: Op) {
    match op
    case SendBegin(t, msg, _) => t !in s.flights && msg != []
    case Fill(t) => t in s.flights && s.flights[t].Filling? && !s.flights[t].filled
    case SendEnd(t) => t in s.flights && s.flights[t].Filling? && s.flights[t].filled
    case Recv(t, want, _, _) => want > 0 && t !in s.flights && t !in s.sleepers
    case RecvAgain(t, _, _) => t !in s.flights && t in s.sleepers && !s.sleepers[t].wait.Suspended?
    case Drain(t) => t in s.flights && s.flights[t].Draining? && s.flights[t].got.None?
    case RecvEnd(t) => t in s.flights && s.flights[t].Draining? && s.flights[t].got.Some?
    case Expire(t) => t in s.sleepers && s.sleepers[t].wait.Suspended? && s.sleepers[t].timeout > 0
    case Reset => true
  }

  function Resumed(sleepers: map<Tid, Sleeper>, list: seq<Tid>): map<Tid, Sleeper>
    requires list != [] ==> list[0] in sleepers
  {
    if list == [] then sleepers else sleepers[list[0] := sleepers[list[0]].(wait := Woken)]
  }

  function Rest(list: seq<Tid>): seq<Tid> {
    if list == [] then [] else list[1..]
  }

  function AllFailed(sleepers: map<Tid, Sleeper>): map<Tid, Sleeper> {
    map t | t in sleepers :: if sleepers[t].wait.Suspended? then sleepers[t].(wait := Failed(ERROR)) else sleepers[t]
  }

  ghost function TryRecv(s: State, t: Tid, want: nat, timeout: int, prio: Tid -> nat): (State, Outcome)
    requires |s.msgs| == |s.queued|
  {
    if s.queued != [] then
      (s.(queued := s.queued[1..], msgs := s.msgs[1..],
          flights := s.flights[t := Draining(s.queued[0], s.msgs[0], want, None)]),
       Taken(s.msgs[0]))
    else if timeout == 0 then
      (s, Refused(ETIMEOUT))
    else
      (s.(receivers := IpcList.Suspended(s.receivers, t, prio, s.flag),
          sleepers := s.sleepers[t := Sleeper(want, timeout, Suspended)]),
       Blocked)
  }

  /** A receiver runs again: it returns its error or looks at the queue once more. */
  ghost function Again(s: State, t: Tid, elapsed: nat, prio: Tid -> nat): (State, Outcome)
    requires |s.msgs| == |s.queued| && t in s.sleepers
  {
    var c := s.sleepers[t];
    var awake := s.(sleepers := s.sleepers - {t});
    if c.wait.Failed? then (awake, Refused(c.wait.error))
    else TryRecv(awake, t, c.want, Remaining(c.timeout, elapsed), prio)
  }

  /** First section of a send: take a node off the free list. */
  ghost function Begin(s: State, t: Tid, msg: Bytes, urgent: bool): (State, Outcome) {
    if |msg| > s.msgSize then (s, Refused(ERROR))
    else if s.free == [] then (s, Refused(EFULL))
    else (s.(free := s.free[1..], flights := s.flights[t := Filling(s.free[0], msg, urgent, false)]), Begun(s.free[0]))
  }

  /** The sender's memcpy, interrupts enabled. */
  ghost function Filled(s: State, t: Tid): State
    requires Stored(s) && t in s.flights && s.flights[t].Filling?
  {
    var f := s.flights[t];
    s.(buffers := s.buffers[f.node := f.msg + s.buffers[f.node][|f.msg|..]],
       flights := s.flights[t := f.(filled := true)])
  }

  /** Second section of a send: link the node at the tail, or at the head if urgent, and wake one receiver. */
  ghost function Linked(s: State, t: Tid): State
    requires t in s.flights && s.flights[t].Filling?
    requires Listed(s.receivers, s.sleepers)
  {
    var f := s.flights[t];
    s.(queued := if f.urgent then [f.node] + s.queued else s.queued + [f.node],
       msgs := if f.urgent then [f.msg] + s.msgs else s.msgs + [f.msg],
       flights := s.flights - {t},
       receivers := Rest(s.receivers), sleepers := Resumed(s.sleepers, s.receivers))
  }

  /** The receiver's memcpy, interrupts enabled. */
  ghost function Drained(s: State, t: Tid): State
    requires Stored(s) && t in s.flights && s.flights[t].Draining?
  {
    var f := s.flights[t];
    s.(flights := s.flights[t := f.(got := Some(s.buffers[f.node][..Min(f.want, s.msgSize)]))])
  }

  /** Last section of a receive: the node goes back to the free list. */
  ghost function Released(s: State, t: Tid): State
    requires t in s.flights
  {
    s.(free := [s.flights[t].node] + s.free, flights := s.flights - {t})
  }

  ghost function Expired(s: State, t: Tid): State
    requires t in s.sleepers && t in s.receivers
  {
    s.(receivers := Without(s.receivers, IndexOf(s.receivers, t)),
       sleepers := s.sleepers[t := s.sleepers[t].(wait := Failed(ETIMEOUT))])
  }

  ghost function Cleared(s: State): State {
    s.(queued := [], msgs := [], free := Reversed(s.queued) + s.free,
       receivers := [], sleepers := AllFailed(s.sleepers))
  }

  ghost function Step(s: State, op: Op): (State, Outcome)
    requires Inv(s) && Enabled(s, op)
  {
    match op
    case SendBegin(t, msg, urgent) => Begin(s, t, msg, urgent)
    case Fill(t) => (Filled(s, t), Silent)
    case SendEnd(t) => (Linked(s, t), Sent(s.flights[t].msg))
    case Recv(t, want, timeout, prio) => TryRecv(s, t, want, timeout, prio)
    case RecvAgain(t, elapsed, prio) => Again(s, t, elapsed, prio)
    case Drain(t) => (Drained(s, t), Silent)
    case RecvEnd(t) => (Released(s, t), Received(s.flights[t].got.value))
    case Expire(t) => (Expired(s, t), Silent)
    case Reset => (Cleared(s), Silent)
  }

  // ----- nodes are conserved ------------------------------------------------------------------

  lemma FlightTakesOff(flights: map<Tid, Flight>, t: Tid, f: Flight)
    requires OwnNodes(flights) && t !in flights && f.node !in InFlight(flights)
    ensures OwnNodes(flights[t := f]) && InFlight(flights[t := f]) == InFlight(flights) + {f.node}
  {
    var r := flights[t := f];
    forall u | u in flights
      ensures flights[u].node != f.node && flights[u].node in InFlight(r)
    {
      assert flights[u].node in InFlight(flights);
      assert r[u] == flights[u];
    }
    assert r[t].node in InFlight(r);
  }

  lemma FlightLands(flights: map<Tid, Flight>, t: Tid)
    requires OwnNodes(flights) && t in flights
    ensures OwnNodes(flights - {t}) && InFlight(flights - {t}) == InFlight(flights) - {flights[t].node}
    ensures flights[t].node in InFlight(flights) && |flights - {t}| == |flights| - 1
  {
    var r := flights - {t};
    assert flights[t].node in InFlight(flights);
    forall u | u in flights && u != t
      ensures flights[u].node in InFlight(r)
    {
      assert r[u] == flights[u];
    }
    assert |(flights - {t}).Keys| == |flights.Keys - {t}|;
  }

  lemma FlightContinues(flights: map<Tid, Flight>, t: Tid, f: Flight)
    requires OwnNodes(flights) && t in flights && flights[t].node == f.node
    ensures OwnNodes(flights[t := f]) && InFlight(flights[t := f]) == InFlight(flights)
    ensures |flights[t := f]| == |flights|
  {
    FlightLands(flights, t);
    var gone := flights - {t};
    FlightTakesOff(gone, t, f);
    assert gone[t := f] == flights[t := f];
    assert flights[t := f].Keys == flights.Keys;
  }

  lemma TakeFree(max: nat, queued: seq<nat>, free: seq<nat>, flights: map<Tid, Flight>, t: Tid, f: Flight)
    requires Partitioned(max, queued, free, flights) && t !in flights
    requires free != [] && f.node == free[0]
    ensures Partitioned(max, queued, free[1..], flights[t := f])
  {
    FlightTakesOff(flights, t, f);
    var rest := free[1..];
    assert free == [free[0]] + rest;
    assert free[0] in free && free[0] !in rest;
    assert forall n :: n in free <==> n == free[0] || n in rest;
    assert flights[t := f].Keys == flights.Keys + {t};
  }

  lemma TakeQueued(max: nat, queued: seq<nat>, free: seq<nat>, flights: map<Tid, Flight>, t: Tid, f: Flight)
    requires Partitioned(max, queued, free, flights) && t !in flights
    requires queued != [] && f.node == queued[0]
    ensures Partitioned(max, queued[1..], free, flights[t := f])
  {
    FlightTakesOff(flights, t, f);
    var rest := queued[1..];
    assert queued == [queued[0]] + rest;
    assert queued[0] in queued && queued[0] !in rest;
    assert forall n :: n in queued <==> n == queued[0] || n in rest;
    assert flights[t := f].Keys == flights.Keys + {t};
  }

  lemma PutQueued(max: nat, queued: seq<nat>, free: seq<nat>, flights: map<Tid, Flight>, t: Tid, urgent: bool)
    requires Partitioned(max, queued, free, flights) && t in flights
    ensures Partitioned(max, if urgent then [flights[t].node] + queued else queued + [flights[t].node], free, flights - {t})
  {
    FlightLands(flights, t);
  }

  lemma PutFree(max: nat, queued: seq<nat>, free: seq<nat>, flights: map<Tid, Flight>, t: Tid)
    requires Partitioned(max, queued, free, flights) && t in flights
    ensures Partitioned(max, queued, [flights[t].node] + free, flights - {t})
  {
    FlightLands(flights, t);
  }

  lemma ReversedElements(s: seq<nat>)
    requires Distinct(s)
    ensures Distinct(Reversed(s)) && forall n :: n in Reversed(s) <==> n in s
  {
    var r := Reversed(s);
    forall n | n in s
      ensures n in r
    {
      assert r[|s| - 1 - IndexOf(s, n)] == n;
    }
  }

  lemma FreeAll(max: nat, queued: seq<nat>, free: seq<nat>, flights: map<Tid, Flight>)
    requires Partitioned(max, queued, free, flights)
    ensures Partitioned(max, [], Reversed(queued) + free, flights)
  {
    ReversedElements(queued);
    ConcatDistinct(Reversed(queued), free);
  }

  lemma BeginKeepsInv(s: State, t: Tid, msg: Bytes, urgent: bool)
    requires Inv(s) && t !in s.flights
    ensures Inv(Begin(s, t, msg, urgent).0)
  {
    if |msg| <= s.msgSize && s.free != [] {
      TakeFree(s.maxMsgs, s.queued, s.free, s.flights, t, Filling(s.free[0], msg, urgent, false));
      assert s.free[0] in s.free;
    }
  }

  lemma FilledKeepsInv(s: State, t: Tid)
    requires Inv(s) && t in s.flights && s.flights[t].Filling?
    ensures Inv(Filled(s, t))
  {
    var r := Filled(s, t);
    var n := s.flights[t].node;
    FlightContinues(s.flights, t, r.flights[t]);
    assert n in InFlight(s.flights);
    forall i | 0 <= i < |s.queued|
      ensures r.msgs[i] <= r.buffers[r.queued[i]]
    {
      assert s.queued[i] in s.queued;
    }
    forall u | u in s.flights && u != t
      ensures s.flights[u].node != n
    {
    }
  }

  lemma HoldsOneMore(buffers: seq<Bytes>, queued: seq<nat>, msgs: seq<Bytes>, node: nat, msg: Bytes)
    requires Holds(buffers, queued, msgs) && node < |buffers| && msg <= buffers[node]
    ensures Holds(buffers, [node] + queued, [msg] + msgs)
    ensures Holds(buffers, queued + [node], msgs + [msg])
  {
  }

  lemma WakeKeepsListed(receivers: seq<Tid>, sleepers: map<Tid, Sleeper>)
    requires Listed(receivers, sleepers)
    ensures Listed(Rest(receivers), Resumed(sleepers, receivers))
    ensures receivers != [] ==> |WokenReceivers(Resumed(sleepers, receivers))| == |WokenReceivers(sleepers)| + 1
  {
    if receivers != [] {
      assert WokenReceivers(Resumed(sleepers, receivers)) == WokenReceivers(sleepers) + {receivers[0]};
    }
  }

  lemma LinkedKeepsInv(s: State, t: Tid)
    requires Inv(s) && t in s.flights && s.flights[t].Filling? && s.flights[t].filled
    ensures Inv(Linked(s, t))
  {
    var f := s.flights[t];
    LinkedParts(s, t, f, Linked(s, t));
    WakeKeepsListed(s.receivers, s.sleepers);
  }

  lemma LinkedParts(s: State, t: Tid, f: Flight, r: State)
    requires Inv(s) && t in s.flights && s.flights[t] == f && f.Filling? && f.filled && r == Linked(s, t)
    ensures Partitioned(r.maxMsgs, r.queued, r.free, r.flights) && Stored(r)
  {
    PutQueued(s.maxMsgs, s.queued, s.free, s.flights, t, f.urgent);
    HoldsOneMore(s.buffers, s.queued, s.msgs, f.node, f.msg);
  }

  lemma ParkKeepsListed(receivers: seq<Tid>, sleepers: map<Tid, Sleeper>, t: Tid, c: Sleeper, prio: Tid -> nat, flag: IpcFlag)
    requires Listed(receivers, sleepers) && t !in sleepers && c.wait.Suspended?
    ensures Listed(IpcList.Suspended(receivers, t, prio, flag), sleepers[t := c])
    ensures WokenReceivers(sleepers[t := c]) == WokenReceivers(sleepers)
  {
    IpcList.SuspendedDistinct(receivers, t, prio, flag);
  }

  /** A receiver that has just re-checked counts no longer as woken: one mail may be uncovered. */
  lemma TryRecvKeepsInv(s: State, t: Tid, want: nat, timeout: int, prio: Tid -> nat)
    requires Partitioned(s.maxMsgs, s.queued, s.free, s.flights) && Stored(s) && Listed(s.receivers, s.sleepers)
    requires s.receivers != [] ==> |s.queued| <= |WokenReceivers(s.sleepers)| + 1
    requires t !in s.flights && t !in s.sleepers
    ensures Inv(TryRecv(s, t, want, timeout, prio).0)
  {
    if s.queued != [] {
      TakeQueued(s.maxMsgs, s.queued, s.free, s.flights, t, Draining(s.queued[0], s.msgs[0], want, None));
    } else if timeout != 0 {
      ParkKeepsListed(s.receivers, s.sleepers, t, Sleeper(want, timeout, Suspended), prio, s.flag);
    }
  }

  /** The receiver t stops sleeping; if it was woken, one mail may be uncovered. */
  lemma AwakeKeeps(s: State, t: Tid)
    requires Inv(s) && t in s.sleepers && !s.sleepers[t].wait.Suspended?
    ensures var rest := s.sleepers - {t};
            Listed(s.receivers, rest) &&
            (s.receivers != [] ==> |s.queued| <= |WokenReceivers(rest)| + if s.sleepers[t].wait.Woken? then 1 else 0)
  {
    var rest := s.sleepers - {t};
    assert WokenReceivers(rest) == WokenReceivers(s.sleepers) - if s.sleepers[t].wait.Woken? then {t} else {};
  }

  lemma RecvAgainKeepsInv(s: State, t: Tid, elapsed: nat, prio: Tid -> nat)
    requires Inv(s) && t !in s.flights && t in s.sleepers && !s.sleepers[t].wait.Suspended?
    ensures Inv(Again(s, t, elapsed, prio).0)
  {
    var c := s.sleepers[t];
    AwakeKeeps(s, t);
    if c.wait.Woken? {
      TryRecvKeepsInv(s.(sleepers := s.sleepers - {t}), t, c.want, Remaining(c.timeout, elapsed), prio);
    }
  }

  lemma DrainedKeepsInv(s: State, t: Tid)
    requires Inv(s) && t in s.flights && s.flights[t].Draining?
    ensures Inv(Drained(s, t))
  {
    FlightContinues(s.flights, t, Drained(s, t).flights[t]);
  }

  lemma ReleasedKeepsInv(s: State, t: Tid)
    requires Inv(s) && t in s.flights
    ensures Inv(Released(s, t))
  {
    PutFree(s.maxMsgs, s.queued, s.free, s.flights, t);
  }

  lemma ExpiredKeepsInv(s: State, t: Tid)
    requires Inv(s) && t in s.sleepers && s.sleepers[t].wait.Suspended?
    ensures Inv(Expired(s, t))
  {
    WithoutDistinct(s.receivers, IndexOf(s.receivers, t));
    assert WokenReceivers(Expired(s, t).sleepers) == WokenReceivers(s.sleepers);
  }

  lemma ClearedKeepsInv(s: State)
    requires Inv(s)
    ensures Inv(Cleared(s))
  {
    FreeAll(s.maxMsgs, s.queued, s.free, s.flights);
  }

  lemma SendStepKeepsInv(s: State, op: Op)
    requires Inv(s) && Enabled(s, op) && (op.SendBegin? || op.Fill? || op.SendEnd?)
    ensures Inv(Step(s, op).0)
  {
    match op
    case SendBegin(t, msg, urgent) => BeginKeepsInv(s, t, msg, urgent);
    case Fill(t) => FilledKeepsInv(s, t);
    case SendEnd(t) => LinkedKeepsInv(s, t);
  }

  lemma RecvStepKeepsInv(s: State, op: Op)
    requires Inv(s) && Enabled(s, op) && (op.Recv? || op.RecvAgain?)
    ensures Inv(Step(s, op).0)
  {
    match op
    case Recv(t, want, timeout, prio) => TryRecvKeepsInv(s, t, want, timeout, prio);
    case RecvAgain(t, elapsed, prio) => RecvAgainKeepsInv(s, t, elapsed, prio);
  }

  lemma EndStepKeepsInv(s: State, op: Op)
    requires Inv(s) && Enabled(s, op) && (op.Drain? || op.RecvEnd? || op.Expire? || op.Reset?)
    ensures Inv(Step(s, op).0)
  {
    match op
    case Drain(t) => DrainedKeepsInv(s, t);
    case RecvEnd(t) => ReleasedKeepsInv(s, t);
    case Expire(t) => ExpiredKeepsInv(s, t);
    case Reset => ClearedKeepsInv(s);
  }

  lemma StepKeepsSizes(s: State, op: Op)
    requires Inv(s) && Enabled(s, op)
    ensures Step(s, op).0.maxMsgs == s.maxMsgs && Step(s, op).0.msgSize == s.msgSize
  {
    match op
    case _ =>
  }

  /**
   Every step keeps each node in exactly one place, every node's message intact and no receiver asleep
   without cover.
   */
  lemma StepKeepsInv(s: State, op: Op)
    requires Inv(s) && Enabled(s, op)
    ensures Inv(Step(s, op).0) && Step(s, op).0.maxMsgs == s.maxMsgs && Step(s, op).0.msgSize == s.msgSize
  {
    StepKeepsSizes(s, op);
    if op.SendBegin? || op.Fill? || op.SendEnd? {
      SendStepKeepsInv(s, op);
    } else if op.Recv? || op.RecvAgain? {
      RecvStepKeepsInv(s, op);
    } else {
      EndStepKeepsInv(s, op);
    }
  }

  // ----- what callers see ---------------------------------------------------------------------

  lemma TryRecvIsDeque(s: State, t: Tid, want: nat, timeout: int, prio: Tid -> nat)
    requires |s.msgs| == |s.queued|
    ensures var (r, out) := TryRecv(s, t, want, timeout, prio);
            if out.Taken? then s.msgs == [out.msg] + r.msgs && t in r.flights && r.flights[t].msg == out.msg
            else (out.Blocked? || out.Refused?) && r.msgs == s.msgs
  {
  }

  /** What op, with this outcome, did to the messages. */
  ghost predicate Moved(s: State, op: Op, r: State, out: Outcome) {
    match out
    case Sent(m) => op.SendEnd? && op.t in s.flights && s.flights[op.t].Filling?
                    && r.msgs == if s.flights[op.t].urgent then [m] + s.msgs else s.msgs + [m]
    case Taken(m) => (op.Recv? || op.RecvAgain?) && s.msgs == [m] + r.msgs && op.t in r.flights && r.flights[op.t].msg == m
    case _ => r.msgs == if op.Reset? then [] else s.msgs
  }

  /** A send appends, an urgent send prepends, a receive takes the head; nothing else but a reset moves messages. */
  lemma StepIsDeque(s: State, op: Op)
    requires Inv(s) && Enabled(s, op)
    ensures Moved(s, op, Step(s, op).0, Step(s, op).1)
  {
    match op
    case Recv(t, want, timeout, prio) => TryRecvIsDeque(s, t, want, timeout, prio);
    case RecvAgain(t, elapsed, prio) =>
      var c := s.sleepers[t];
      TryRecvIsDeque(s.(sleepers := s.sleepers - {t}), t, c.want, Remaining(c.timeout, elapsed), prio);
    case SendBegin(_, _, _) =>
    case Fill(_) =>
    case SendEnd(_) =>
    case Drain(_) =>
    case RecvEnd(_) =>
    case Expire(_) =>
    case Reset =>
  }

  /** What a receive copies out is the head of the message its node was sent with, whatever happened in between. */
  lemma ReceivedIsWhatWasSent(s: State, t: Tid)
    requires Inv(s) && Enabled(s, RecvEnd(t))
    ensures var f := s.flights[t];
            var n := Min(f.want, |f.msg|);
            match Step(s, RecvEnd(t)).1
            case Received(got) => |got| == Min(f.want, s.msgSize) && n <= |got| && got[..n] == f.msg[..n]
            case _ => false
  {
    var f := s.flights[t];
    var n := Min(f.want, |f.msg|);
    assert f.msg[..n] == s.buffers[f.node][..n];
    assert f.got.value[..n] == s.buffers[f.node][..n];
  }

  /** With no receiver between wake-up and re-check, receivers sleep only on an empty queue. */
  lemma NobodySleepsInVain(s: State)
    requires Inv(s) && forall t :: t in s.sleepers ==> !s.sleepers[t].wait.Woken?
    ensures s.receivers != [] ==> s.queued == []
  {
    assert WokenReceivers(s.sleepers) == {};
  }

  // ----- how each section ends ----------------------------------------------------------------

  /**
   A send is refused as an error exactly if the message is longer than a node holds, as full exactly if all nodes are
   queued or in flight; otherwise it has a node of its own, which was free, to fill with its message.
   */
  lemma SendBeginsExactly(s: State, op: Op)
    requires Inv(s) && Enabled(s, op) && op.SendBegin?
    ensures var (r, out) := Step(s, op);
            && (out == Refused(ERROR) <==> |op.msg| > s.msgSize)
            && (out == Refused(EFULL) <==> |op.msg| <= s.msgSize && |s.queued| + |s.flights| == s.maxMsgs)
            && (out.Begun? <==> |op.msg| <= s.msgSize && |s.queued| + |s.flights| < s.maxMsgs)
            && (out.Begun? ==> out.node in s.free && r.flights == s.flights[op.t := Filling(out.node, op.msg, op.urgent, false)])
            && (!out.Begun? ==> r == s)
            && r.sleepers == s.sleepers && r.receivers == s.receivers
  {
  }

  /** A send that has filled its node always succeeds, and makes the first sleeping receiver ready, nobody else. */
  lemma SendEndsWell(s: State, t: Tid, u: Tid)
    requires Inv(s) && Enabled(s, SendEnd(t)) && u in s.sleepers
    ensures var (r, out) := Step(s, SendEnd(t));
            && out == Sent(s.flights[t].msg) && r.flights == s.flights - {t} && (s.receivers != [] ==> r.receivers == s.receivers[1..])
            && u in r.sleepers
            && r.sleepers[u] == if s.receivers != [] && u == s.receivers[0] then s.sleepers[u].(wait := Woken) else s.sleepers[u]
  {
  }

  /** The node a receive has given back is the next one a send gets. */
  lemma GivenBackIsNext(s: State, t: Tid, u: Tid, msg: Bytes, urgent: bool)
    requires Inv(s) && Enabled(s, RecvEnd(t)) && msg != [] && |msg| <= s.msgSize
    requires var r := Step(s, RecvEnd(t)).0; Inv(r) && u !in r.flights
    ensures Step(s, RecvEnd(t)).1 == Received(s.flights[t].got.value)
    ensures Step(Step(s, RecvEnd(t)).0, SendBegin(u, msg, urgent)).1 == Begun(s.flights[t].node)
  {
  }

  /** Of the nodes of a reset queue the one that was linked last is the next one. */
  lemma ResetReversesNodes(s: State)
    requires Inv(s)
    ensures var r := Step(s, Reset).0;
            && r.queued == [] && r.msgs == [] && r.receivers == [] && r.flights == s.flights && r.buffers == s.buffers
            && |r.free| == |s.queued| + |s.free| && r.free[|s.queued|..] == s.free
            && forall i :: 0 <= i < |s.queued| ==> r.free[i] == s.queued[|s.queued| - 1 - i]
  {
  }

  /** A receive with this many ticks left: given the first message, refused with RT_ETIMEOUT if nothing is left, or else asleep. */
  ghost predicate RecvEnds(s: State, t: Tid, want: nat, left: int, r: State, out: Outcome) {
    && (out.Taken? <==> s.queued != [])
    && (out.Taken? ==> s.msgs != [] && out.msg == s.msgs[0] && r.flights == s.flights[t := Draining(s.queued[0], s.msgs[0], want, None)])
    && (out == Refused(ETIMEOUT) <==> s.queued == [] && left == 0)
    && (out == Blocked <==> s.queued == [] && left != 0)
    && (out.Taken? || out.Refused? || out.Blocked?)
    && (out.Blocked? ==> t in r.receivers && t in r.sleepers && r.sleepers[t] == Sleeper(want, left, Suspended))
    && (!out.Taken? ==> r.flights == s.flights)
    && (forall u :: u in s.sleepers && u != t ==> u in r.sleepers && r.sleepers[u] == s.sleepers[u])
  }

  /** The ticks left of a timeout after a sleep; a negative one never runs down. */
  ghost predicate RunsDown(timeout: int, elapsed: nat, left: int) {
    if timeout < 0 then left == timeout else left == if elapsed < timeout then timeout - elapsed else 0
  }

  lemma RecvEndsExactly(s: State, op: Op)
    requires Inv(s) && Enabled(s, op) && op.Recv?
    ensures RecvEnds(s, op.t, op.want, op.timeout, Step(s, op).0, Step(s, op).1)
  {
  }

  /** A resumed receiver reports its failure, or ends as one with what is left of its timeout. */
  lemma RecvAgainEndsExactly(s: State, op: Op, left: int)
    requires Inv(s) && Enabled(s, op) && op.RecvAgain? && RunsDown(s.sleepers[op.t].timeout, op.elapsed, left)
    ensures var (r, out, c) := (Step(s, op).0, Step(s, op).1, s.sleepers[op.t]);
            && (c.wait.Failed? ==> out == Refused(c.wait.error) && r == s.(sleepers := s.sleepers - {op.t}))
            && (!c.wait.Failed? ==> RecvEnds(s, op.t, c.want, left, r, out))
            && (!out.Blocked? ==> op.t !in r.sleepers)
  {
    assert left == Remaining(s.sleepers[op.t].timeout, op.elapsed);
  }

  /** A sleep ends with RT_ERROR by a reset, with RT_ETIMEOUT by its own timeout, and well by a message linked while it is first. */
  lemma SleepEnds(s: State, op: Op, u: Tid)
    requires Inv(s) && Enabled(s, op) && u in s.sleepers && s.sleepers[u].wait.Suspended?
    ensures var r := Step(s, op).0;
            && u in r.sleepers
            && r.sleepers[u] == s.sleepers[u].(wait :=
                 if op.Reset? then Failed(ERROR)
                 else if op == Expire(u) then Failed(ETIMEOUT)
                 else if op.SendEnd? && s.receivers != [] && s.receivers[0] == u then Woken
                 else Suspended)
  {
    match op
    case Recv(t, want, timeout, prio) => RecvEndsExactly(s, op);
    case RecvAgain(t, elapsed, prio) =>
    case SendBegin(_, _, _) =>
    case Fill(_) =>
    case SendEnd(t) => SendEndsWell(s, t, u);
    case Drain(_) =>
    case RecvEnd(_) =>
    case Expire(_) =>
    case Reset =>
  }

  /** A receive fails by a reset, or by its timeout if it has one. */
  ghost predicate FailsRightly(sleepers: map<Tid, Sleeper>) {
    forall t :: t in sleepers && sleepers[t].wait.Failed? ==>
      sleepers[t].wait.error == ERROR || (sleepers[t].wait.error == ETIMEOUT && sleepers[t].timeout > 0)
  }

  lemma StepFailsRightly(s: State, op: Op)
    requires Inv(s) && Enabled(s, op) && FailsRightly(s.sleepers)
    ensures FailsRightly(Step(s, op).0.sleepers)
  {
    match op
    case Recv(t, want, timeout, _) => PutFailsRightly(s.sleepers, t, Sleeper(want, timeout, Suspended));
    case RecvAgain(t, elapsed, _) =>
      var c := s.sleepers[t];
      PutFailsRightly(s.sleepers - {t}, t, Sleeper(c.want, Remaining(c.timeout, elapsed), Suspended));
    case SendBegin(_, _, _) =>
    case Fill(_) =>
    case SendEnd(_) => WakeFailsRightly(s.sleepers, s.receivers);
    case Drain(_) =>
    case RecvEnd(_) =>
    case Expire(t) => PutFailsRightly(s.sleepers, t, s.sleepers[t].(wait := Failed(ETIMEOUT)));
    case Reset => ResetFailsRightly(s.sleepers);
  }

  lemma PutFailsRightly(sleepers: map<Tid, Sleeper>, t: Tid, c: Sleeper)
    requires FailsRightly(sleepers) && (c.wait.Failed? ==> c.wait.error == ETIMEOUT && c.timeout > 0)
    ensures FailsRightly(sleepers[t := c])
  {
  }

  lemma WakeFailsRightly(sleepers: map<Tid, Sleeper>, list: seq<Tid>)
    requires FailsRightly(sleepers) && (list != [] ==> list[0] in sleepers)
    ensures FailsRightly(Resumed(sleepers, list))
  {
  }

  lemma ResetFailsRightly(sleepers: map<Tid, Sleeper>)
    requires FailsRightly(sleepers)
    ensures FailsRightly(AllFailed(sleepers))
  {
  }

  // ----- whole runs ---------------------------------------------------------------------------

  /** Messages linked and taken since the last reset, and whether any of them was urgent. */
  datatype History = History(s: State, sent: seq<Bytes>, taken: seq<Bytes>, urgent: bool)

  ghost function Record(h: History, op: Op): History
    requires Inv(h.s) && Enabled(h.s, op)
  {
    var (s, out) := Step(h.s, op);
    if op.Reset? then History(s, [], [], false)
    else match out
      case Sent(m) => History(s, h.sent + [m], h.taken, h.urgent || h.s.flights[op.t].urgent)
      case Taken(m) => History(s, h.sent, h.taken + [m], h.urgent)
      case _ => h.(s := s)
  }

  ghost predicate Leads(h: History, ops: seq<Op>, h': History)
    decreases |ops|
  {
    if ops == [] then h == h'
    else Inv(h.s) && Enabled(h.s, ops[0]) && Leads(Record(h, ops[0]), ops[1..], h')
  }

  /** No message is lost or duplicated, and without urgent sends they keep their order. */
  ghost predicate Balanced(sent: seq<Bytes>, taken: seq<Bytes>, msgs: seq<Bytes>, urgent: bool) {
    && multiset(sent) == multiset(taken) + multiset(msgs)
    && (!urgent ==> sent == taken + msgs)
  }

  ghost predicate Faithful(h: History) {
    Inv(h.s) && Balanced(h.sent, h.taken, h.s.msgs, h.urgent)
  }

  lemma MoveKeepsBalance(h: History, op: Op, s: State, out: Outcome)
    requires Balanced(h.sent, h.taken, h.s.msgs, h.urgent) && Moved(h.s, op, s, out) && !op.Reset?
    ensures match out
            case Sent(m) => Balanced(h.sent + [m], h.taken, s.msgs, h.urgent || h.s.flights[op.t].urgent)
            case Taken(m) => Balanced(h.sent, h.taken + [m], s.msgs, h.urgent)
            case _ => Balanced(h.sent, h.taken, s.msgs, h.urgent)
  {
  }

  lemma RecordKeepsFaithful(h: History, op: Op)
    requires Faithful(h) && Enabled(h.s, op)
    ensures Faithful(Record(h, op)) && Record(h, op).s.maxMsgs == h.s.maxMsgs
  {
    StepKeepsInv(h.s, op);
    var (s, out) := Step(h.s, op);
    assert Moved(h.s, op, s, out) by { StepIsDeque(h.s, op); }
    if !op.Reset? {
      MoveKeepsBalance(h, op, s, out);
    }
  }

  lemma {:induction false} RunKeepsFaithful(h: History, ops: seq<Op>, h': History)
    requires Faithful(h) && Leads(h, ops, h')
    ensures Faithful(h') && h'.s.maxMsgs == h.s.maxMsgs
    decreases |ops|
  {
    if ops != [] {
      RecordKeepsFaithful(h, ops[0]);
      RunKeepsFaithful(Record(h, ops[0]), ops[1..], h');
    }
  }

  ghost predicate Initial(s: State) {
    && s.queued == [] && s.msgs == [] && s.free == Countdown(s.maxMsgs) && s.flights == map[]
    && s.receivers == [] && s.sleepers == map[]
    && |s.buffers| == s.maxMsgs && forall n :: 0 <= n < s.maxMsgs ==> |s.buffers[n]| == s.msgSize
  }

  lemma InitialInv(s: State)
    requires Initial(s)
    ensures Inv(s)
  {
    forall n: nat | n < s.maxMsgs
      ensures n in s.free
    {
      assert s.free[s.maxMsgs - 1 - n] == n;
    }
  }

  /** In every reachable state the nodes are partitioned and counted, and messages are conserved and ordered. */
  lemma ReachableQueue(s: State, ops: seq<Op>, h: History)
    requires Initial(s) && Leads(History(s, [], [], false), ops, h)
    ensures Partitioned(s.maxMsgs, h.s.queued, h.s.free, h.s.flights)
    ensures |h.s.queued| + |h.s.free| + |h.s.flights| == s.maxMsgs
    ensures multiset(h.sent) == multiset(h.taken) + multiset(h.s.msgs)
    ensures !h.urgent ==> h.sent == h.taken + h.s.msgs
    ensures h.s.receivers != [] ==> |h.s.queued| <= |WokenReceivers(h.s.sleepers)|
  {
    InitialInv(s);
    RunKeepsFaithful(History(s, [], [], false), ops, h);
  }

  lemma RecordFailsRightly(h: History, op: Op, r: History)
    requires Inv(h.s) && Enabled(h.s, op) && FailsRightly(h.s.sleepers) && r == Record(h, op)
    ensures Inv(r.s) && FailsRightly(r.s.sleepers)
  {
    assert r.s == Step(h.s, op).0;
    StepKeepsInv(h.s, op);
    StepFailsRightly(h.s, op);
  }

  lemma {:induction false} RunFailsRightly(h: History, ops: seq<Op>, h': History)
    requires Inv(h.s) && FailsRightly(h.s.sleepers) && Leads(h, ops, h')
    ensures Inv(h'.s) && FailsRightly(h'.s.sleepers)
    decreases |ops|
  {
    if ops != [] {
      RecordFailsRightly(h, ops[0], Record(h, ops[0]));
      RunFailsRightly(Record(h, ops[0]), ops[1..], h');
    }
  }

  /** A receive that waits forever ends with a message or by a reset, never with RT_ETIMEOUT, and goes on waiting forever. */
  lemma ForeverIsForever(s: State, ops: seq<Op>, h: History, op: Op)
    requires Initial(s) && Leads(History(s, [], [], false), ops, h) && Inv(h.s) && Enabled(h.s, op)
    requires if op.Recv? then op.timeout < 0 else op.RecvAgain? && h.s.sleepers[op.t].timeout < 0
    ensures var (r, out) := Step(h.s, op);
            && (out.Taken? || out == Refused(ERROR) || out.Blocked?)
            && (out.Blocked? ==> op.t in r.sleepers && r.sleepers[op.t].timeout < 0)
            && (op.Recv? ==> !out.Refused?)
  {
    InitialInv(s);
    RunFailsRightly(History(s, [], [], false), ops, h);
    WaitsOn(h.s, op);
  }

  lemma WaitsOn(s: State, op: Op)
    requires Inv(s) && FailsRightly(s.sleepers) && Enabled(s, op)
    requires if op.Recv? then op.timeout < 0 else op.RecvAgain? && s.sleepers[op.t].timeout < 0
    ensures var (r, out) := Step(s, op);
            && (out.Taken? || out == Refused(ERROR) || out.Blocked?)
            && (out.Blocked? ==> op.t in r.sleepers && r.sleepers[op.t].timeout < 0)
            && (op.Recv? ==> !out.Refused?)
  {
    if op.Recv? {
      RecvEndsExactly(s, op);
    } else {
      RecvAgainEndsExactly(s, op, s.sleepers[op.t].timeout);
    }
  }
}
