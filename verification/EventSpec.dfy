/**
 The event object as a state machine (src/ipc.c, rt_event_send, rt_event_recv and rt_event_control). One step is
 one interrupt-disabled section. A 32-bit event set is the set of the numbers of its bits.
 */
module EventSpec {
  import opened Kernel
  import IpcList

  type Bits = set<nat>

  /** RT_EVENT_FLAG_AND, _OR and _CLEAR. */
  datatype Want = Want(bits: Bits, all: bool, any: bool, clear: bool)

  /** A recv that has not returned: what it waits for, and what it has been given (thread->event_set). */
  datatype Call = Call(want: Want, got: Bits, timeout: int, wait: Wait)

  datatype State = State(flag: IpcFlag, bits: Bits, waiters: seq<Tid>, calls: map<Tid, Call>)

  datatype Outcome = Sent | Received(got: Bits) | Blocked | Refused(error: Error) | Silent

  /** prio gives the threads' priorities at the moment of the step. */
  datatype Op =
    | Send(bits: Bits)
    | Recv(t: Tid, want: Want, timeout: int, prio: Tid -> nat)
    | Return(t: Tid)
    | Expire(t: Tid)
    | Reset

  function Init(flag: IpcFlag): State {
    State(flag, {}, [], map[])
  }

  // ----- what a step does ---------------------------------------------------------------------

  /** The condition a receiver waits for; the AND flag goes before the OR flag, and with neither it never holds. */
  predicate Holds(bits: Bits, w: Want) {
    if w.all then w.bits <= bits else w.any && w.bits * bits != {}
  }

  /** What is left of the event set once a receiver has been served. */
  function Left(bits: Bits, w: Want): Bits {
    if w.clear then bits - w.bits else bits
  }

  /** A suspended receiver is served: it keeps what it got, and runs again. */
  function Served(calls: map<Tid, Call>, t: Tid, bits: Bits): map<Tid, Call> {
    if t in calls then calls[t := calls[t].(got := calls[t].want.bits * bits, wait := Woken)] else calls
  }

  datatype Scan = Scan(bits: Bits, waiters: seq<Tid>, calls: map<Tid, Call>)

  /** The walk of rt_event_send over the list: every receiver is looked at once, with what its predecessors have left. */
  function Scanned(bits: Bits, list: seq<Tid>, calls: map<Tid, Call>): Scan {
    if list == [] then Scan(bits, [], calls)
    else if list[0] in calls && Holds(bits, calls[list[0]].want) then
      Scanned(Left(bits, calls[list[0]].want), list[1..], Served(calls, list[0], bits))
    else
      var r := Scanned(bits, list[1..], calls);
      r.(waiters := [list[0]] + r.waiters)
  }

  ghost predicate Enabled(s: State, op: Op) {
    match op
    case Send(_) => true
    case Recv(t, _, _, _) => t !in s.calls
    case Return(t) => t in s.calls && !s.calls[t].wait.Suspended?
    case Expire(t) => t in s.waiters && t in s.calls && s.calls[t].timeout > 0
    case Reset => true
  }

  ghost function Receiving(s: State, t: Tid, want: Want, timeout: int, prio: Tid -> nat): (State, Outcome) {
    if want.bits == {} then (s, Refused(ERROR))
    else if Holds(s.bits, want) then (s.(bits := Left(s.bits, want)), Received(want.bits * s.bits))
    else if timeout == 0 then (s, Refused(ETIMEOUT))
    else
      (s.(waiters := IpcList.Suspended(s.waiters, t, prio, s.flag), calls := s.calls[t := Call(want, {}, timeout, Suspended)]), Blocked)
  }

  function AllFailed(calls: map<Tid, Call>): map<Tid, Call> {
    map t | t in calls :: if calls[t].wait.Suspended? then calls[t].(wait := Failed(ERROR)) else calls[t]
  }

  ghost function Step(s: State, op: Op): (State, Outcome)
    requires Enabled(s, op)
  {
    match op
    case Send(bits) =>
      if bits == {} then (s, Refused(ERROR))
      else
        var r := Scanned(s.bits + bits, s.waiters, s.calls);
        (s.(bits := r.bits, waiters := r.waiters, calls := r.calls), Sent)
    case Recv(t, want, timeout, prio) => Receiving(s, t, want, timeout, prio)
    case Return(t) =>
      (s.(calls := s.calls - {t}), match s.calls[t].wait case Failed(e) => Refused(e) case _ => Received(s.calls[t].got))
    case Expire(t) =>
      (s.(waiters := Without(s.waiters, IndexOf(s.waiters, t)), calls := s.calls[t := s.calls[t].(wait := Failed(ETIMEOUT))]), Silent)
    case Reset => (s.(bits := {}, waiters := [], calls := AllFailed(s.calls)), Silent)
  }

  // ----- the invariant ------------------------------------------------------------------------

  ghost predicate Listed(waiters: seq<Tid>, calls: map<Tid, Call>) {
    && Distinct(waiters)
    && forall t :: t in waiters <==> t in calls && calls[t].wait.Suspended?
  }

  /** No receiver on the list waits for something that is there. */
  ghost predicate NobodyStranded(bits: Bits, waiters: seq<Tid>, calls: map<Tid, Call>) {
    forall t :: t in waiters && t in calls ==> !Holds(bits, calls[t].want)
  }

  /** What a receiver that was woken has got is what it asked for. */
  ghost predicate Proper(got: Bits, w: Want) {
    if w.all then got == w.bits else w.any && got != {} && got <= w.bits
  }

  ghost predicate AllProper(calls: map<Tid, Call>) {
    forall t :: t in calls && calls[t].wait.Woken? ==> Proper(calls[t].got, calls[t].want)
  }

  ghost predicate Inv(s: State) {
    Listed(s.waiters, s.calls) && NobodyStranded(s.bits, s.waiters, s.calls) && AllProper(s.calls)
  }

  // ----- the walk -----------------------------------------------------------------------------

  /** The walk only removes bits, and only receivers; it touches no call that is not on the list. */
  lemma {:induction false} ScanShrinks(bits: Bits, list: seq<Tid>, calls: map<Tid, Call>)
    ensures var r := Scanned(bits, list, calls);
            && r.bits <= bits && r.calls.Keys == calls.Keys
            && (forall t :: t in r.waiters ==> t in list)
            && (forall t :: t in calls && t !in list ==> r.calls[t] == calls[t])
            && (forall t :: t in calls ==> r.calls[t].want == calls[t].want && r.calls[t].timeout == calls[t].timeout)
    decreases |list|
  {
    if list != [] {
      if list[0] in calls && Holds(bits, calls[list[0]].want) {
        ScanShrinks(Left(bits, calls[list[0]].want), list[1..], Served(calls, list[0], bits));
      } else {
        ScanShrinks(bits, list[1..], calls);
      }
    }
  }

  /** Fewer bits satisfy fewer receivers. */
  lemma HoldsShrinks(bits: Bits, fewer: Bits, w: Want)
    requires fewer <= bits && Holds(fewer, w)
    ensures Holds(bits, w)
  {
    assert w.bits * fewer <= w.bits * bits;
  }

  lemma ServedIsProper(bits: Bits, w: Want)
    requires Holds(bits, w)
    ensures Proper(w.bits * bits, w)
  {
    if w.all {
      assert w.bits * bits == w.bits;
    }
  }

  /** What satisfies a receiver, by its flags. */
  lemma HoldsByFlags(bits: Bits, w: Want)
    ensures w.all ==> (Holds(bits, w) <==> w.bits <= bits)
    ensures w.any && !w.all ==> (Holds(bits, w) <==> exists b :: b in w.bits && b in bits)
    ensures !w.any && !w.all ==> !Holds(bits, w)
  {
    if b :| b in w.bits && b in bits {
      assert b in w.bits * bits;
    }
    if w.any && !w.all && Holds(bits, w) {
      var b :| b in w.bits * bits;
      assert b in w.bits && b in bits;
    }
  }

  /** Behind the walk nobody on the list waits for something that is still there; those taken off have what they asked for. */
  lemma {:induction false} ScanStrandsNobody(bits: Bits, list: seq<Tid>, calls: map<Tid, Call>)
    requires Distinct(list) && (forall t :: t in list ==> t in calls && calls[t].wait.Suspended?) && AllProper(calls)
    ensures var r := Scanned(bits, list, calls);
            && Distinct(r.waiters) && NobodyStranded(r.bits, r.waiters, r.calls) && AllProper(r.calls)
            && r.calls.Keys == calls.Keys
            && (forall t :: t in r.waiters <==> t in list && r.calls[t].wait.Suspended?)
            && (forall t :: t in list ==> r.calls[t].wait.Suspended? || r.calls[t].wait.Woken?)
    decreases |list|
  {
    ScanShrinks(bits, list, calls);
    if list != [] {
      var (t, rest) := (list[0], list[1..]);
      assert t !in rest;
      if Holds(bits, calls[t].want) {
        ServedIsProper(bits, calls[t].want);
        ScanStrandsNobody(Left(bits, calls[t].want), rest, Served(calls, t, bits));
        ScanShrinks(Left(bits, calls[t].want), rest, Served(calls, t, bits));
      } else {
        ScanStrandsNobody(bits, rest, calls);
        ScanShrinks(bits, rest, calls);
        var r := Scanned(bits, rest, calls);
        if Holds(r.bits, r.calls[t].want) {
          HoldsShrinks(bits, r.bits, calls[t].want);
        }
      }
    }
  }

  // ----- steps --------------------------------------------------------------------------------

  lemma SendKeepsInv(s: State, bits: Bits)
    requires Inv(s)
    ensures Inv(Step(s, Send(bits)).0)
  {
    if bits != {} {
      ScanStrandsNobody(s.bits + bits, s.waiters, s.calls);
      ScanShrinks(s.bits + bits, s.waiters, s.calls);
    }
  }

  lemma RecvKeepsInv(s: State, t: Tid, want: Want, timeout: int, prio: Tid -> nat)
    requires Inv(s) && t !in s.calls
    ensures Inv(Receiving(s, t, want, timeout, prio).0)
  {
    var r := Receiving(s, t, want, timeout, prio).0;
    if want.bits != {} && Holds(s.bits, want) {
      forall u | u in r.waiters && u in r.calls && Holds(r.bits, r.calls[u].want)
        ensures false
      {
        HoldsShrinks(s.bits, r.bits, s.calls[u].want);
        assert false;
      }
    } else if want.bits != {} && timeout != 0 {
      IpcList.SuspendedDistinct(s.waiters, t, prio, s.flag);
    }
  }

  lemma ExpireKeepsInv(s: State, t: Tid)
    requires Inv(s) && Enabled(s, Expire(t))
    ensures Inv(Step(s, Expire(t)).0)
  {
    WithoutDistinct(s.waiters, IndexOf(s.waiters, t));
  }

  /** After every send, receive, timeout or reset: no receiver on the list waits for something that is there. */
  lemma StepKeepsInv(s: State, op: Op)
    requires Inv(s) && Enabled(s, op)
    ensures Inv(Step(s, op).0)
  {
    match op
    case Send(bits) => SendKeepsInv(s, bits);
    case Recv(t, want, timeout, prio) => RecvKeepsInv(s, t, want, timeout, prio);
    case Return(t) =>
    case Expire(t) => ExpireKeepsInv(s, t);
    case Reset =>
  }

  /**
   A receive that asks for nothing is an error. Any other succeeds at once exactly if all its bits are there (AND), or
   one of them (OR without AND); it is refused exactly if they are not and it does not want to wait; or else it waits.
   */
  lemma RecvEndsExactly(s: State, op: Op)
    requires Inv(s) && Enabled(s, op) && op.Recv?
    ensures var (r, out, w) := (Step(s, op).0, Step(s, op).1, op.want);
            var there := if w.all then w.bits <= s.bits else w.any && w.bits * s.bits != {};
            && (out == Refused(ERROR) <==> w.bits == {})
            && (out.Received? <==> w.bits != {} && there)
            && (out == Refused(ETIMEOUT) <==> w.bits != {} && !there && op.timeout == 0)
            && (out == Blocked <==> w.bits != {} && !there && op.timeout != 0)
            && (out.Received? ==> out.got == w.bits * s.bits && r.bits == if w.clear then s.bits - w.bits else s.bits)
            && (!out.Received? ==> r.bits == s.bits)
            && (out == Blocked ==> op.t in r.waiters && op.t in r.calls && r.calls[op.t] == Call(w, {}, op.timeout, Suspended))
            && (forall u :: u in s.calls ==> u in r.calls && r.calls[u] == s.calls[u])
  {
  }

  /** A resumed receiver returns what it was given, or its failure. */
  lemma ReturnEndsExactly(s: State, t: Tid)
    requires Inv(s) && Enabled(s, Return(t))
    ensures var (r, out, c) := (Step(s, Return(t)).0, Step(s, Return(t)).1, s.calls[t]);
            && out == (if c.wait.Woken? then Received(c.got) else Refused(c.wait.error))
            && r == s.(calls := s.calls - {t})
  {
  }

  /** A sleep ends with RT_ERROR by a reset, with RT_ETIMEOUT by its own timeout, and well only by a send. */
  lemma SleepEnds(s: State, op: Op, u: Tid)
    requires Inv(s) && Enabled(s, op) && u in s.calls && s.calls[u].wait.Suspended?
    ensures var (r, out) := Step(s, op);
            && u in r.calls && r.calls[u].want == s.calls[u].want && r.calls[u].timeout == s.calls[u].timeout
            && (r.calls[u].wait == Failed(ERROR) <==> op.Reset?)
            && (r.calls[u].wait == Failed(ETIMEOUT) <==> op == Expire(u))
            && (r.calls[u].wait == Woken ==> op.Send?)
            && (r.calls[u].wait.Failed? ==> r.calls[u].wait.error == ERROR || r.calls[u].wait.error == ETIMEOUT)
  {
    if op.Send? && op.bits != {} {
      ScanStrandsNobody(s.bits + op.bits, s.waiters, s.calls);
      ScanShrinks(s.bits + op.bits, s.waiters, s.calls);
    }
  }

  /** A reset leaves no bit and nobody on the list. */
  lemma ResetEndsExactly(s: State, t: Tid)
    requires Inv(s)
    ensures var r := Step(s, Reset).0;
            r.bits == {} && r.waiters == [] && r.calls.Keys == s.calls.Keys
            && (t in s.calls && !s.calls[t].wait.Suspended? ==> r.calls[t] == s.calls[t])
  {
  }

  // ----- the walk, receiver by receiver -------------------------------------------------------

  /** t has been taken off the list in the walk. */
  ghost predicate Gone(r: Scan, t: Tid) {
    t !in r.waiters
  }

  /** Bit b has been taken by one of these receivers, served with the CLEAR flag. */
  ghost predicate TakenBy(first: seq<Tid>, calls: map<Tid, Call>, r: Scan, b: nat) {
    exists t :: t in first && t in calls && Gone(r, t) && calls[t].want.clear && b in calls[t].want.bits
  }

  /** What is there when the walk comes to the receiver behind these. */
  ghost function There(bits: Bits, first: seq<Tid>, calls: map<Tid, Call>, r: Scan): Bits {
    set b | b in bits && !TakenBy(first, calls, r, b)
  }

  /** The flags' condition, and what a receiver then gets. */
  ghost predicate ServedRightly(bits: Bits, c: Call, after: Call, gone: bool) {
    var there := if c.want.all then c.want.bits <= bits else c.want.any && c.want.bits * bits != {};
    && (gone <==> there)
    && after == if there then c.(got := c.want.bits * bits, wait := Woken) else c
  }

  /**
   Whether the k-th receiver is resumed, and what it gets, is decided by what its predecessors on the list have left:
   every bit but those taken by the ones served with the CLEAR flag.
   */
  lemma {:induction false} WalkServesInOrder(bits: Bits, list: seq<Tid>, calls: map<Tid, Call>, k: nat)
    requires Distinct(list) && (forall t :: t in list ==> t in calls) && k < |list|
    ensures var r := Scanned(bits, list, calls);
            && list[k] in calls && list[k] in r.calls
            && ServedRightly(There(bits, list[..k], calls, r), calls[list[k]], r.calls[list[k]], Gone(r, list[k]))
    decreases |list|
  {
    var (t, rest, r) := (list[0], list[1..], Scanned(bits, list, calls));
    FirstLeaves(list);
    var c := calls[t];
    var (left, next) := (if Holds(bits, c.want) then Left(bits, c.want) else bits, if Holds(bits, c.want) then Served(calls, t, bits) else calls);
    var q := Scanned(left, rest, next);
    ScanShrinks(left, rest, next);
    assert r.calls == q.calls && (Gone(r, t) <==> Holds(bits, c.want));
    if k == 0 {
      assert There(bits, list[..0], calls, r) == bits;
    } else {
      WalkServesInOrder(left, rest, next, k - 1);
      assert rest[k - 1] == list[k] && list[k] in rest && next[list[k]] == calls[list[k]];
      assert Gone(r, list[k]) <==> Gone(q, list[k]);
      ThereBehind(bits, list, calls, next, left, r, q, k);
    }
  }

  lemma ThereBehind(bits: Bits, list: seq<Tid>, calls: map<Tid, Call>, next: map<Tid, Call>, left: Bits, r: Scan, q: Scan, k: nat)
    requires Distinct(list) && (forall t :: t in list ==> t in calls && t in next && next[t].want == calls[t].want) && 0 < k <= |list|
    requires left == (if Gone(r, list[0]) && calls[list[0]].want.clear then bits - calls[list[0]].want.bits else bits)
    requires forall t :: t in list[1..] ==> (Gone(r, t) <==> Gone(q, t))
    ensures There(bits, list[..k], calls, r) == There(left, list[1..][..k - 1], next, q)
  {
    var (first, later) := (list[..k], list[1..][..k - 1]);
    assert first == [list[0]] + later;
    forall b
      ensures TakenBy(first, calls, r, b) <==> (Gone(r, list[0]) && calls[list[0]].want.clear && b in calls[list[0]].want.bits) || TakenBy(later, next, q, b)
    {
      if TakenBy(first, calls, r, b) {
        var t :| t in first && t in calls && Gone(r, t) && calls[t].want.clear && b in calls[t].want.bits;
        assert t == list[0] || t in later;
      }
      if TakenBy(later, next, q, b) {
        var t :| t in later && t in next && Gone(q, t) && next[t].want.clear && b in next[t].want.bits;
        assert t in first;
      }
      if Gone(r, list[0]) && calls[list[0]].want.clear && b in calls[list[0]].want.bits {
        assert list[0] in first;
      }
    }
  }

  /** And at the end that is what is left of the set. */
  lemma {:induction false} WalkLeaves(bits: Bits, list: seq<Tid>, calls: map<Tid, Call>)
    requires Distinct(list) && (forall t :: t in list ==> t in calls)
    ensures Scanned(bits, list, calls).bits == There(bits, list, calls, Scanned(bits, list, calls))
    decreases |list|
  {
    var r := Scanned(bits, list, calls);
    if list != [] {
      var (t, rest) := (list[0], list[1..]);
      FirstLeaves(list);
      var w := calls[t].want;
      var (left, next) := (if Holds(bits, w) then Left(bits, w) else bits, if Holds(bits, w) then Served(calls, t, bits) else calls);
      WalkLeaves(left, rest, next);
      var q := Scanned(left, rest, next);
      ScanShrinks(left, rest, next);
      assert Gone(r, t) <==> Holds(bits, w);
      ThereBehind(bits, list, calls, next, left, r, q, |list|);
      assert list[..|list|] == list && rest[..|list| - 1] == rest;
    }
  }

  /** What a send does to every receiver on the list, and to the set. */
  lemma SendServesInOrder(s: State, bits: Bits, k: nat)
    requires Inv(s) && k < |s.waiters|
    ensures var (r, out) := Step(s, Send(bits));
            && (out == Refused(ERROR) <==> bits == {}) && (out == Sent <==> bits != {})
            && (bits == {} ==> r == s)
            && (bits != {} ==> r.bits == There(s.bits + bits, s.waiters, s.calls, Scan(r.bits, r.waiters, r.calls)))
            && (bits != {} ==>
                  var scan := Scan(r.bits, r.waiters, r.calls);
                  && s.waiters[k] in s.calls && s.waiters[k] in r.calls
                  && ServedRightly(There(s.bits + bits, s.waiters[..k], s.calls, scan), s.calls[s.waiters[k]], r.calls[s.waiters[k]], s.waiters[k] !in r.waiters))
  {
    if bits != {} {
      WalkServesInOrder(s.bits + bits, s.waiters, s.calls, k);
      WalkLeaves(s.bits + bits, s.waiters, s.calls);
    }
  }

  /** A receive that succeeds, at once or after a wait, gives what was asked for. */
  lemma ReceivedIsProper(s: State, op: Op)
    requires Inv(s) && Enabled(s, op) && Step(s, op).1.Received?
    ensures var got := Step(s, op).1.got;
            match op
            case Recv(t, want, _, _) => Proper(got, want) && got <= s.bits
            case Return(t) => s.calls[t].wait.Woken? ==> Proper(got, s.calls[t].want)
            case _ => false
  {
    if op.Recv? {
      ServedIsProper(s.bits, op.want);
    }
  }

  /** Without the CLEAR flag on the list the order does not matter: a send serves exactly those whose condition then holds. */
  lemma {:induction false} ScanWithoutClear(bits: Bits, list: seq<Tid>, calls: map<Tid, Call>, t: Tid)
    requires Distinct(list) && (forall u :: u in list ==> u in calls && !calls[u].want.clear)
    ensures Scanned(bits, list, calls).bits == bits
    ensures t in list ==> (t !in Scanned(bits, list, calls).waiters <==>
              if calls[t].want.all then calls[t].want.bits <= bits else calls[t].want.any && calls[t].want.bits * bits != {})
    decreases |list|
  {
    if list != [] {
      var rest := list[1..];
      assert list[0] !in rest;
      if Holds(bits, calls[list[0]].want) {
        ScanWithoutClear(bits, rest, Served(calls, list[0], bits), t);
        ScanShrinks(bits, rest, Served(calls, list[0], bits));
      } else {
        ScanWithoutClear(bits, rest, calls, t);
        ScanShrinks(bits, rest, calls);
      }
    }
  }

  // ----- a bit is consumed once ---------------------------------------------------------------

  /** How many receivers with the CLEAR flag take bit b in the course of a walk. */
  function Takers(bits: Bits, list: seq<Tid>, calls: map<Tid, Call>, b: nat): nat {
    if list == [] then 0
    else if list[0] in calls && Holds(bits, calls[list[0]].want) then
      var w := calls[list[0]].want;
      (if w.clear && b in w.bits * bits then 1 else 0) + Takers(Left(bits, w), list[1..], Served(calls, list[0], bits), b)
    else Takers(bits, list[1..], calls, b)
  }

  lemma {:induction false} TakersExactly(bits: Bits, list: seq<Tid>, calls: map<Tid, Call>, b: nat)
    ensures Takers(bits, list, calls, b) == if b in bits && b !in Scanned(bits, list, calls).bits then 1 else 0
    decreases |list|
  {
    ScanShrinks(bits, list, calls);
    if list != [] {
      if list[0] in calls && Holds(bits, calls[list[0]].want) {
        var w := calls[list[0]].want;
        ScanShrinks(Left(bits, w), list[1..], Served(calls, list[0], bits));
        TakersExactly(Left(bits, w), list[1..], Served(calls, list[0], bits), b);
      } else {
        TakersExactly(bits, list[1..], calls, b);
      }
    }
  }

  /** A state; how often bit b has been raised since the last reset, and how often taken by a receiver with the CLEAR flag. */
  datatype History = History(s: State, raised: nat, taken: nat)

  function One(c: bool): nat {
    if c then 1 else 0
  }

  ghost function Record(h: History, op: Op, b: nat): History
    requires Enabled(h.s, op)
  {
    var (s, out) := Step(h.s, op);
    match op
    case Send(bits) =>
      if bits == {} then History(s, h.raised, h.taken)
      else History(s, h.raised + One(b in bits && b !in h.s.bits), h.taken + Takers(h.s.bits + bits, h.s.waiters, h.s.calls, b))
    case Recv(_, want, _, _) => History(s, h.raised, h.taken + One(out.Received? && want.clear && b in out.got))
    case Reset => History(s, 0, 0)
    case _ => History(s, h.raised, h.taken)
  }

  ghost predicate Leads(h: History, ops: seq<Op>, h': History, b: nat)
    decreases |ops|
  {
    if ops == [] then h == h' else Enabled(h.s, ops[0]) && Leads(Record(h, ops[0], b), ops[1..], h', b)
  }

  ghost predicate Conserved(h: History, b: nat) {
    h.raised == h.taken + One(b in h.s.bits)
  }

  lemma RecordKeeps(h: History, op: Op, b: nat)
    requires Inv(h.s) && Conserved(h, b) && Enabled(h.s, op)
    ensures Inv(Record(h, op, b).s) && Conserved(Record(h, op, b), b)
  {
    StepKeepsInv(h.s, op);
    if op.Send? && op.bits != {} {
      TakersExactly(h.s.bits + op.bits, h.s.waiters, h.s.calls, b);
      ScanShrinks(h.s.bits + op.bits, h.s.waiters, h.s.calls);
    }
  }

  lemma {:induction false} RunKeeps(h: History, ops: seq<Op>, h': History, b: nat)
    requires Inv(h.s) && Conserved(h, b) && Leads(h, ops, h', b)
    ensures Inv(h'.s) && Conserved(h', b)
    decreases |ops|
  {
    if ops != [] {
      RecordKeeps(h, ops[0], b);
      RunKeeps(Record(h, ops[0], b), ops[1..], h', b);
    }
  }

  /** By its flags: with AND a bit of it is missing, with OR all of them are. */
  ghost predicate Lacks(bits: Bits, w: Want) {
    if w.all then exists b :: b in w.bits && b !in bits else w.any ==> forall b :: b in w.bits ==> b !in bits
  }

  lemma StrandedLacks(bits: Bits, w: Want)
    requires !Holds(bits, w)
    ensures Lacks(bits, w)
  {
    HoldsByFlags(bits, w);
  }

  /**
   In every state any interleaving can reach: nobody sleeps whose condition holds, and every bit that was raised
   has been taken by exactly one receiver with the CLEAR flag, or is still there.
   */
  lemma ReachableEvent(flag: IpcFlag, ops: seq<Op>, h: History, b: nat)
    requires Leads(History(Init(flag), 0, 0), ops, h, b)
    ensures forall t :: t in h.s.waiters ==> t in h.s.calls && Lacks(h.s.bits, h.s.calls[t].want)
    ensures h.raised == h.taken + One(b in h.s.bits)
  {
    RunKeeps(History(Init(flag), 0, 0), ops, h, b);
    forall t | t in h.s.waiters
      ensures t in h.s.calls && Lacks(h.s.bits, h.s.calls[t].want)
    {
      StrandedLacks(h.s.bits, h.s.calls[t].want);
    }
  }
}
