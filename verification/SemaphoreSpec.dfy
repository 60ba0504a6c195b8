/**
 A semaphore, and what threads do to it (src/ipc.c, rt_sem_take, rt_sem_release and rt_sem_control; also
 components/pthreads/pthread_cond.c, whose conditions are semaphores). One step is one interrupt-disabled section.
 */
module SemaphoreSpec {
  import opened Kernel
  import IpcList

  /** The number of values of the 16-bit field value. */
  const VALUES := 0x1_0000

  datatype Sem = Sem(flag: IpcFlag, value: nat, waiters: seq<Tid>)

  /** A release wakes the first waiting thread, or else counts up in 16 bits. */
  function Released(s: Sem): (Sem, Option<Tid>) {
    if s.waiters != [] then (s.(waiters := s.waiters[1..]), Some(s.waiters[0]))
    else (s.(value := (s.value + 1) % VALUES), None)
  }

  /** A take without waiting: whether it succeeds. */
  function Tried(s: Sem): (Sem, bool) {
    if s.value > 0 then (s.(value := s.value - 1), true) else (s, false)
  }

  function Suspended(s: Sem, t: Tid, prio: Tid -> nat): Sem {
    s.(waiters := IpcList.Suspended(s.waiters, t, prio, s.flag))
  }

  function Dropped(s: Sem, t: Tid): Sem
    requires t in s.waiters
  {
    s.(waiters := Without(s.waiters, IndexOf(s.waiters, t)))
  }

  /** Nobody waits for what is there. */
  ghost predicate Sound(s: Sem) {
    Distinct(s.waiters) && s.value < VALUES && (s.value > 0 ==> s.waiters == [])
  }

  // ----- pthread_cond_broadcast ---------------------------------------------------------------

  /** The loop: try to take; on failure release and try again, on success give it back and stop. Also whom it wakes. */
  function Broadcast(s: Sem): (Sem, seq<Tid>)
    requires s.value < VALUES
    decreases |s.waiters|, if s.value == 0 then 1 else 0
  {
    if !Tried(s).1 then
      var (r, woken) := Released(s);
      var rest := Broadcast(r);
      (rest.0, (if woken.Some? then [woken.value] else []) + rest.1)
    else
      var (r, woken) := Released(Tried(s).0);
      (r, if woken.Some? then [woken.value] else [])
  }

  /** The loop ends with everybody woken, in order, nobody waiting, and at least one release left in the semaphore. */
  lemma {:induction false} BroadcastWakesAll(s: Sem)
    requires Sound(s)
    ensures Broadcast(s) == (s.(waiters := [], value := if s.value == 0 then 1 else s.value), s.waiters)
    decreases |s.waiters|
  {
    if s.value == 0 && s.waiters != [] {
      var r := Released(s).0;
      FirstLeaves(s.waiters);
      BroadcastWakesAll(r);
      assert [s.waiters[0]] + s.waiters[1..] == s.waiters;
    } else if s.value == 0 {
      var r := Released(s).0;
      assert Tried(r).1 && Released(Tried(r).0) == (r, None);
      assert Broadcast(r) == (r, []);
      assert s.waiters == [] && [] + [] == s.waiters;
    }
  }

  // ----- the same loop with timeouts between its turns ----------------------------------------

  /** What the loop does next; interrupts are off in each turn and on between two of them. */
  datatype Turn = Try | GiveUp | PutBack | Done

  /** The loop on its way: whom it has woken, and whose time was up meanwhile, each in order. */
  datatype Loop = Loop(sem: Sem, next: Turn, woken: seq<Tid>, late: seq<Tid>)

  datatype Event = Advance | Timeout(t: Tid)

  function Start(s: Sem): Loop {
    Loop(s, Try, [], [])
  }

  /** One turn: a try, the release after one that failed, or the release after the one that succeeded. */
  function Advanced(l: Loop): Loop {
    match l.next
    case Try =>
      var (sem, ok) := Tried(l.sem);
      l.(sem := sem, next := if ok then PutBack else GiveUp)
    case Done => l
    case _ =>
      var (sem, woken) := Released(l.sem);
      l.(sem := sem, next := if l.next.GiveUp? then Try else Done, woken := l.woken + if woken.Some? then [woken.value] else [])
  }

  predicate Possible(l: Loop, e: Event) {
    match e
    case Advance => !l.next.Done?
    case Timeout(t) => t in l.sem.waiters
  }

  function Passed(l: Loop, e: Event): Loop
    requires Possible(l, e)
  {
    match e
    case Advance => Advanced(l)
    case Timeout(t) => l.(sem := Dropped(l.sem, t), late := l.late + [t])
  }

  ghost predicate Loops(l: Loop, events: seq<Event>, r: Loop)
    decreases |events|
  {
    if events == [] then l == r else Possible(l, events[0]) && Loops(Passed(l, events[0]), events[1..], r)
  }

  /** Threads leave the list one after the other. */
  predicate Leave(s: Sem, late: seq<Tid>)
    decreases |late|
  {
    late == [] || (late[0] in s.waiters && Leave(Dropped(s, late[0]), late[1..]))
  }

  function Thinned(s: Sem, late: seq<Tid>): Sem
    requires Leave(s, late)
    decreases |late|
  {
    if late == [] then s else Thinned(Dropped(s, late[0]), late[1..])
  }

  lemma {:induction false} ThinnedMore(s: Sem, late: seq<Tid>, t: Tid)
    requires Leave(s, late) && t in Thinned(s, late).waiters
    ensures Leave(s, late + [t]) && Thinned(s, late + [t]) == Dropped(Thinned(s, late), t)
    decreases |late|
  {
    if late == [] {
      assert [] + [t] == [t] && [t][1..] == [];
    } else {
      assert (late + [t])[1..] == late[1..] + [t];
      ThinnedMore(Dropped(s, late[0]), late[1..], t);
    }
  }

  lemma {:induction false} ThinnedSound(s: Sem, late: seq<Tid>)
    requires Sound(s) && Leave(s, late)
    ensures Sound(Thinned(s, late)) && Thinned(s, late).value == s.value && Thinned(s, late).flag == s.flag
    decreases |late|
  {
    if late != [] {
      WithoutDistinct(s.waiters, IndexOf(s.waiters, late[0]));
      ThinnedSound(Dropped(s, late[0]), late[1..]);
    }
  }

  lemma {:induction false} LeaveOnce(s: Sem, late: seq<Tid>)
    requires Sound(s) && Leave(s, late)
    ensures Distinct(late) && forall t :: t in late ==> t in s.waiters
    decreases |late|
  {
    if late != [] {
      WithoutDistinct(s.waiters, IndexOf(s.waiters, late[0]));
      LeaveOnce(Dropped(s, late[0]), late[1..]);
      assert late == [late[0]] + late[1..];
    }
  }

  /** How many releases are left in the semaphore when the loop is over. */
  function Left(s: Sem): nat {
    if s.value == 0 then 1 else s.value
  }

  /** On its way, the loop has woken a first part of those whose time is not up, and the rest still wait. */
  ghost predicate OnItsWay(s: Sem, l: Loop) {
    && Leave(s, l.late) && Thinned(s, l.late).waiters == l.woken + l.sem.waiters
    && l.sem.flag == s.flag && Sound(l.sem)
    && match l.next
       case Try => l.sem.value == s.value == 0 || (l.sem.value == Left(s) && l.sem.waiters == [])
       case GiveUp => l.sem.value == s.value == 0
       case PutBack => l.sem.value == Left(s) - 1 && l.sem.waiters == []
       case Done => l.sem.value == Left(s) && l.sem.waiters == []
  }

  lemma AdvanceKeeps(s: Sem, l: Loop)
    requires Sound(s) && OnItsWay(s, l) && !l.next.Done?
    ensures OnItsWay(s, Advanced(l))
  {
    ThinnedSound(s, l.late);
    if !l.next.Try? {
      if l.sem.waiters != [] {
        FirstLeaves(l.sem.waiters);
        Rotate(l.woken, l.sem.waiters);
      } else {
        assert l.woken + [] == l.woken;
      }
    }
  }

  lemma TimeoutKeeps(s: Sem, l: Loop, t: Tid)
    requires Sound(s) && OnItsWay(s, l) && t in l.sem.waiters
    ensures OnItsWay(s, Passed(l, Timeout(t)))
  {
    TimeoutThins(s, l.sem, l.woken, l.late, t);
    WithoutDistinct(l.sem.waiters, IndexOf(l.sem.waiters, t));
  }

  lemma TimeoutThins(s: Sem, sem: Sem, woken: seq<Tid>, late: seq<Tid>, t: Tid)
    requires Sound(s) && Leave(s, late) && Thinned(s, late).waiters == woken + sem.waiters && t in sem.waiters
    ensures Leave(s, late + [t]) && Thinned(s, late + [t]).waiters == woken + Dropped(sem, t).waiters
  {
    ThinnedSound(s, late);
    DroppedBehind(woken, sem.waiters, t);
    ThinnedMore(s, late, t);
  }

  lemma DroppedBehind(front: seq<Tid>, list: seq<Tid>, t: Tid)
    requires Distinct(front + list) && t in list
    ensures t in front + list
    ensures Without(front + list, IndexOf(front + list, t)) == front + Without(list, IndexOf(list, t))
  {
    var i := IndexOf(list, t);
    assert (front + list)[|front| + i] == t;
    assert IndexOf(front + list, t) == |front| + i;
    assert Without(front + list, |front| + i) == front + Without(list, i);
  }

  /** At most so many turns are left, however many timeouts come between them. */
  function TurnsLeft(l: Loop): nat {
    match l.next
    case Try => if l.sem.value > 0 then 2 else 2 * |l.sem.waiters| + 4
    case GiveUp => 2 * |l.sem.waiters| + 3
    case PutBack => 1
    case Done => 0
  }

  function Turns(events: seq<Event>): nat {
    if events == [] then 0 else (if events[0].Advance? then 1 else 0) + Turns(events[1..])
  }

  lemma {:induction false} LoopRuns(s: Sem, l: Loop, events: seq<Event>, r: Loop)
    requires Sound(s) && OnItsWay(s, l) && Loops(l, events, r)
    ensures OnItsWay(s, r) && Turns(events) + TurnsLeft(r) <= TurnsLeft(l)
    decreases |events|
  {
    if events != [] {
      var next := Passed(l, events[0]);
      EventPasses(s, l, events[0], next);
      LoopRuns(s, next, events[1..], r);
    }
  }

  /** A turn brings the end nearer, a timeout does not put it off. */
  lemma EventPasses(s: Sem, l: Loop, e: Event, next: Loop)
    requires Sound(s) && OnItsWay(s, l) && Possible(l, e) && next == Passed(l, e)
    ensures OnItsWay(s, next) && (if e.Advance? then 1 else 0) + TurnsLeft(next) <= TurnsLeft(l)
  {
    if e.Advance? {
      AdvanceKeeps(s, l);
    } else {
      TimeoutKeeps(s, l, e.t);
    }
  }

  /**
   Timeouts between the turns change nothing but the order of things: the loop is over after at most
   2 * waiters + 4 turns, and then semaphore and woken threads are what they would be had the timeouts come first
   and the whole loop at once after them. Nobody waits any more.
   */
  lemma InterruptedBroadcast(s: Sem, events: seq<Event>, l: Loop)
    requires Sound(s) && Loops(Start(s), events, l)
    ensures Turns(events) <= 2 * |s.waiters| + 4
    ensures l.next.Done? ==> Leave(s, l.late) && Sound(Thinned(s, l.late)) && (l.sem, l.woken) == Broadcast(Thinned(s, l.late)) && l.sem.waiters == []
  {
    StartsOut(s, Start(s));
    LoopRuns(s, Start(s), events, l);
    if l.next.Done? {
      OverIsBroadcast(s, l, Thinned(s, l.late));
    }
  }

  lemma StartsOut(s: Sem, l: Loop)
    requires Sound(s) && l == Start(s)
    ensures OnItsWay(s, l) && TurnsLeft(l) <= 2 * |s.waiters| + 4
  {
    assert [] + s.waiters == s.waiters;
  }

  lemma OverIsBroadcast(s: Sem, l: Loop, thin: Sem)
    requires Sound(s) && OnItsWay(s, l) && l.next.Done? && thin == Thinned(s, l.late)
    ensures Sound(thin) && (l.sem, l.woken) == Broadcast(thin)
  {
    ThinnedSound(s, l.late);
    BroadcastWakesAll(thin);
    assert l.woken + [] == l.woken;
  }

  // ----- takes and releases -------------------------------------------------------------------

  /** A take that has not returned. A negative timeout means wait forever. */
  datatype Call = Call(timeout: int, wait: Wait)

  datatype State = State(sem: Sem, calls: map<Tid, Call>)

  datatype Outcome = Taken | Blocked | Given | Handed(to: Tid) | Refused(error: Error) | Returned(error: Error) | Silent

  datatype Op =
    | Take(t: Tid, timeout: int, prio: Tid -> nat)
    | Release
    | Return(t: Tid)
    | Expire(t: Tid)
    | Reset(value: nat)

  function Init(flag: IpcFlag, value: nat): State {
    State(Sem(flag, value, []), map[])
  }

  ghost predicate Enabled(s: State, op: Op) {
    match op
    case Take(t, _, _) => t !in s.calls
    case Release => forall t :: t in s.sem.waiters ==> t in s.calls
    case Return(t) => t in s.calls && !s.calls[t].wait.Suspended?
    case Expire(t) => t in s.sem.waiters && t in s.calls && s.calls[t].timeout > 0
    case Reset(_) => true
  }

  function AllFailed(calls: map<Tid, Call>): map<Tid, Call> {
    map t | t in calls :: if calls[t].wait.Suspended? then calls[t].(wait := Failed(ERROR)) else calls[t]
  }

  ghost function Taking(s: State, t: Tid, timeout: int, prio: Tid -> nat): (State, Outcome) {
    if Tried(s.sem).1 then (s.(sem := Tried(s.sem).0), Taken)
    else if timeout == 0 then (s, Refused(ETIMEOUT))
    else (State(Suspended(s.sem, t, prio), s.calls[t := Call(timeout, Wait.Suspended)]), Blocked)
  }

  ghost function Releasing(s: State): (State, Outcome)
    requires Enabled(s, Release)
  {
    match Released(s.sem)
    case (sem, None) => (s.(sem := sem), Given)
    case (sem, Some(t)) => assert t in s.sem.waiters; (State(sem, s.calls[t := s.calls[t].(wait := Woken)]), Handed(t))
  }

  ghost function Step(s: State, op: Op): (State, Outcome)
    requires Enabled(s, op)
  {
    match op
    case Take(t, timeout, prio) => Taking(s, t, timeout, prio)
    case Release => Releasing(s)
    case Return(t) =>
      (s.(calls := s.calls - {t}), Returned(match s.calls[t].wait case Failed(e) => e case _ => EOK))
    case Expire(t) => (State(Dropped(s.sem, t), s.calls[t := s.calls[t].(wait := Failed(ETIMEOUT))]), Silent)
    case Reset(value) => (State(s.sem.(value := value % VALUES, waiters := []), AllFailed(s.calls)), Silent)
  }

  ghost predicate Inv(s: State) {
    Sound(s.sem) && forall t :: t in s.sem.waiters <==> t in s.calls && s.calls[t].wait.Suspended?
  }

  /** The one way value can be wrong: a release of a semaphore whose 16 bits are full. */
  ghost predicate Wraps(s: State, op: Op) {
    op.Release? && s.sem.waiters == [] && s.sem.value == VALUES - 1
  }

  lemma ReleaseKeepsInv(s: State)
    requires Inv(s) && Enabled(s, Release)
    ensures Inv(Releasing(s).0)
  {
    if s.sem.waiters != [] {
      FirstLeaves(s.sem.waiters);
    }
  }

  /** After every step the list names exactly the waiting threads, and nobody waits for a semaphore with a positive value. */
  lemma StepKeepsInv(s: State, op: Op)
    requires Inv(s) && Enabled(s, op)
    ensures Inv(Step(s, op).0)
  {
    match op
    case Take(t, timeout, prio) =>
      if !Tried(s.sem).1 && timeout != 0 { IpcList.SuspendedDistinct(s.sem.waiters, t, prio, s.sem.flag); }
    case Release => ReleaseKeepsInv(s);
    case Return(t) =>
    case Expire(t) => WithoutDistinct(s.sem.waiters, IndexOf(s.sem.waiters, t));
    case Reset(value) =>
  }

  // ----- how each section ends ----------------------------------------------------------------

  /** A take is granted exactly while the value is positive, refused exactly if it is not and the caller does not want to wait, and waits otherwise. */
  lemma TakeEndsExactly(s: State, op: Op)
    requires Inv(s) && Enabled(s, op) && op.Take?
    ensures var (r, out) := Step(s, op);
            && (out == Taken <==> s.sem.value > 0)
            && (out == Refused(ETIMEOUT) <==> s.sem.value == 0 && op.timeout == 0)
            && (out == Blocked <==> s.sem.value == 0 && op.timeout != 0)
            && (out == Taken ==> r == s.(sem := s.sem.(value := s.sem.value - 1)))
            && (out.Refused? ==> r == s)
            && (out == Blocked ==> op.t in r.sem.waiters && r.sem.value == 0 && r.calls == s.calls[op.t := Call(op.timeout, Wait.Suspended)])
  {
  }

  /** A release is handed to the first waiting thread if there is one, and counted otherwise. */
  lemma ReleaseEndsExactly(s: State)
    requires Inv(s) && Enabled(s, Release)
    ensures var (r, out) := Step(s, Release);
            && (out == Given <==> s.sem.waiters == [])
            && (out == Given ==> r.calls == s.calls && r.sem.waiters == [] && r.sem.value == if s.sem.value == VALUES - 1 then 0 else s.sem.value + 1)
            && (s.sem.waiters != [] ==>
                  && out == Handed(s.sem.waiters[0]) && r.sem == s.sem.(waiters := s.sem.waiters[1..])
                  && s.sem.waiters[0] in s.calls
                  && r.calls == s.calls[s.sem.waiters[0] := s.calls[s.sem.waiters[0]].(wait := Woken)])
  {
    assert s.sem.waiters != [] ==> s.sem.waiters[0] in s.sem.waiters;
  }

  /** A suspended take returns well exactly if it was handed a release, and with its error otherwise. */
  lemma ReturnEndsExactly(s: State, t: Tid)
    requires Inv(s) && Enabled(s, Return(t))
    ensures var (r, out) := Step(s, Return(t));
            && out == Returned(if s.calls[t].wait.Woken? then EOK else s.calls[t].wait.error) && r == s.(calls := s.calls - {t})
  {
  }

  /** A sleep ends with RT_ERROR by a reset, with RT_ETIMEOUT by its own timeout, and well by a release while it is first. */
  lemma SleepEnds(s: State, op: Op, u: Tid)
    requires Inv(s) && Enabled(s, op) && u in s.calls && s.calls[u].wait.Suspended?
    ensures var r := Step(s, op).0;
            && u in r.calls
            && r.calls[u] == s.calls[u].(wait :=
                 if op.Reset? then Failed(ERROR)
                 else if op == Expire(u) then Failed(ETIMEOUT)
                 else if op.Release? && s.sem.waiters != [] && s.sem.waiters[0] == u then Woken
                 else Wait.Suspended)
  {
    if op.Release? {
      ReleaseEndsExactly(s);
    }
  }

  /** A reset empties the list and sets the value, cut to 16 bits. */
  lemma ResetEndsExactly(s: State, value: nat)
    requires Inv(s)
    ensures var r := Step(s, Reset(value)).0;
            r.sem.waiters == [] && (value < 0x1_0000 ==> r.sem.value == value) && r.sem.value < 0x1_0000 && (value - r.sem.value) % 0x1_0000 == 0
            && r.calls.Keys == s.calls.Keys
  {
  }

  /** A take fails by a reset, or by its timeout if it has one. */
  ghost predicate FailsRightly(calls: map<Tid, Call>) {
    forall t :: t in calls && calls[t].wait.Failed? ==>
      calls[t].wait.error == ERROR || (calls[t].wait.error == ETIMEOUT && calls[t].timeout > 0)
  }

  lemma StepFailsRightly(s: State, op: Op)
    requires Inv(s) && Enabled(s, op) && FailsRightly(s.calls)
    ensures FailsRightly(Step(s, op).0.calls)
  {
  }

  // ----- conservation -------------------------------------------------------------------------

  /** A state; the value at the last reset; the releases and the granted takes since, hand-overs included. */
  datatype History = History(s: State, first: nat, released: nat, granted: nat)

  ghost function Record(h: History, op: Op): History
    requires Enabled(h.s, op)
  {
    var (s, out) := Step(h.s, op);
    if op.Reset? then History(s, op.value % VALUES, 0, 0)
    else match out
      case Taken => History(s, h.first, h.released, h.granted + 1)
      case Given => History(s, h.first, h.released + 1, h.granted)
      case Handed(_) => History(s, h.first, h.released + 1, h.granted + 1)
      case _ => History(s, h.first, h.released, h.granted)
  }

  ghost predicate Leads(h: History, ops: seq<Op>, h': History)
    decreases |ops|
  {
    if ops == [] then h == h' else Enabled(h.s, ops[0]) && Leads(Record(h, ops[0]), ops[1..], h')
  }

  ghost predicate NeverWraps(h: History, ops: seq<Op>)
    decreases |ops|
  {
    ops == [] || !Enabled(h.s, ops[0]) || (!Wraps(h.s, ops[0]) && NeverWraps(Record(h, ops[0]), ops[1..]))
  }

  ghost predicate Conserved(h: History) {
    h.first + h.released == h.s.sem.value + h.granted
  }

  /** What a step adds to value, releases and granted takes. */
  lemma StepBalances(s: State, op: Op)
    requires Inv(s) && Enabled(s, op) && !op.Reset?
    ensures var (r, out) := Step(s, op);
            match out
            case Taken => r.sem.value == s.sem.value - 1
            case Given => op.Release? && s.sem.waiters == [] && r.sem.value == (if s.sem.value == VALUES - 1 then 0 else s.sem.value + 1)
            case _ => r.sem.value == s.sem.value && (op.Release? ==> s.sem.waiters != [])
  {
  }

  /** A step keeps the account exactly when it does not overflow the 16-bit value. */
  lemma RecordKeepsExactly(h: History, op: Op)
    requires Inv(h.s) && Conserved(h) && Enabled(h.s, op)
    ensures Inv(Record(h, op).s)
    ensures Conserved(Record(h, op)) <==> !Wraps(h.s, op)
  {
    StepKeepsInv(h.s, op);
    if !op.Reset? {
      StepBalances(h.s, op);
    }
  }

  lemma {:induction false} RunKeeps(h: History, ops: seq<Op>, h': History)
    requires Inv(h.s) && Conserved(h) && Leads(h, ops, h')
    ensures Inv(h'.s) && (NeverWraps(h, ops) ==> Conserved(h'))
    decreases |ops|
  {
    if ops != [] {
      RecordKeepsExactly(h, ops[0]);
      if Conserved(Record(h, ops[0])) {
        RunKeeps(Record(h, ops[0]), ops[1..], h');
      } else {
        RunKeepsInv(Record(h, ops[0]), ops[1..], h');
      }
    }
  }

  lemma {:induction false} RunKeepsInv(h: History, ops: seq<Op>, h': History)
    requires Inv(h.s) && Leads(h, ops, h')
    ensures Inv(h'.s)
    decreases |ops|
  {
    if ops != [] {
      StepKeepsInv(h.s, ops[0]);
      RunKeepsInv(Record(h, ops[0]), ops[1..], h');
    }
  }

  lemma {:induction false} RunFailsRightly(h: History, ops: seq<Op>, h': History)
    requires Inv(h.s) && FailsRightly(h.s.calls) && Leads(h, ops, h')
    ensures Inv(h'.s) && FailsRightly(h'.s.calls)
    decreases |ops|
  {
    if ops != [] {
      StepKeepsInv(h.s, ops[0]);
      StepFailsRightly(h.s, ops[0]);
      RunFailsRightly(Record(h, ops[0]), ops[1..], h');
    }
  }

  /** A take that waits forever never returns RT_ETIMEOUT. */
  lemma ForeverIsForever(flag: IpcFlag, value: nat, ops: seq<Op>, h: History, op: Op)
    requires value < VALUES && Leads(History(Init(flag, value), value, 0, 0), ops, h) && Enabled(h.s, op)
    requires if op.Take? then op.timeout < 0 else op.Return? && h.s.calls[op.t].timeout < 0
    ensures var out := Step(h.s, op).1; out == Taken || out == Blocked || out == Returned(EOK) || out == Returned(ERROR)
  {
    RunFailsRightly(History(Init(flag, value), value, 0, 0), ops, h);
  }

  /** In every reachable state: nobody waits for a positive semaphore, and no release is lost or granted twice. */
  lemma ReachableSemaphore(flag: IpcFlag, value: nat, ops: seq<Op>, h: History)
    requires value < VALUES
    requires var start := History(Init(flag, value), value, 0, 0); Leads(start, ops, h)
    ensures h.s.sem.value > 0 ==> h.s.sem.waiters == []
    ensures NeverWraps(History(Init(flag, value), value, 0, 0), ops) ==> h.first + h.released == h.s.sem.value + h.granted
  {
    RunKeeps(History(Init(flag, value), value, 0, 0), ops, h);
  }

  /** A semaphore created full loses the next release. */
  lemma OverflowLosesRelease(flag: IpcFlag)
    ensures var start := History(Init(flag, VALUES - 1), VALUES - 1, 0, 0);
            Enabled(start.s, Release) && Wraps(start.s, Release) && Leads(start, [Release], Record(start, Release)) &&
            Record(start, Release) == History(Init(flag, 0), VALUES - 1, 1, 0) && !Conserved(Record(start, Release))
  {
    var start := History(Init(flag, VALUES - 1), VALUES - 1, 0, 0);
    assert [Release][1..] == [];
    assert Leads(Record(start, Release), [], Record(start, Release));
  }
}
