/**
 One mutex and the threads that use it, as a state machine (src/ipc.c, rt_mutex_take and rt_mutex_release, with
 rt_thread_timeout of src/thread.c). One step is one interrupt-disabled section; a thread that is handed the
 mutex owns it before it runs again.
 */
module MutexSpec {
  import opened Kernel
  import IpcList

  /** original_priority of a mutex nobody owns; the number of values of the 8-bit field hold. */
  const NO_PRIORITY := 0xFF
  const HOLDS := 0x100

  /** A take that has not returned. A negative timeout means wait forever. */
  datatype Call = Call(timeout: int, wait: Wait)

  /**
   current holds the threads' priority numbers (smaller is more urgent), base what they are as long as no mutex
   interferes. The last three fields only record the past: who has asked for the mutex since its owner got it,
   and in which order the waiting threads came.
   */
  datatype State = State(flag: IpcFlag, value: nat, owner: Option<Tid>, hold: nat, original: nat,
                         waiters: seq<Tid>, calls: map<Tid, Call>, current: map<Tid, nat>, base: map<Tid, nat>,
                         pressed: set<Tid>, arrived: map<Tid, nat>, clock: nat)

  datatype Outcome = Taken | Blocked | Released | Handed(to: Tid) | Refused(error: Error) | Returned(error: Error) | Silent

  datatype Op = Take(t: Tid, timeout: int) | Release(t: Tid) | Expire(t: Tid) | Return(t: Tid)

  function Init(flag: IpcFlag, base: map<Tid, nat>): State {
    State(flag, 1, None, 0, NO_PRIORITY, [], map[], base, base, {}, map[], 0)
  }

  /** rt_ipc_list_suspend compares current priorities. */
  function PriorityOf(current: map<Tid, nat>): Tid -> nat {
    t => if t in current then current[t] else 0
  }

  // ----- what a step does ---------------------------------------------------------------------

  /** Everybody the mutex knows has a priority; a mutex that cannot be taken has an owner. */
  ghost predicate Known(s: State) {
    && s.current.Keys == s.base.Keys && (forall t :: t in s.waiters ==> t in s.base && t in s.calls)
    && (s.owner.Some? ==> s.owner.value in s.base) && (s.owner.None? ==> s.value > 0)
  }

  ghost predicate Enabled(s: State, op: Op) {
    match op
    case Take(t, _) => t in s.base && t !in s.calls
    case Release(t) => t in s.base && t !in s.calls
    case Expire(t) => t in s.waiters && t in s.calls && s.calls[t].wait.Suspended? && s.calls[t].timeout > 0
    case Return(t) => t in s.calls && !s.calls[t].wait.Suspended?
  }

  /** The owner is given the priority of a more urgent thread. */
  function Boosted(current: map<Tid, nat>, owner: Tid, t: Tid): map<Tid, nat>
    requires owner in current && t in current
  {
    if current[t] < current[owner] then current[owner := current[t]] else current
  }

  function Acquired(s: State, t: Tid): State
    requires t in s.current && s.value > 0
  {
    s.(value := s.value - 1, owner := Some(t), original := s.current[t], hold := (s.hold + 1) % HOLDS, pressed := {})
  }

  /** t is put on the waiting list, after the owner has been given its priority if that is more urgent. */
  ghost function Waiting(s: State, t: Tid, timeout: int): State
    requires Known(s) && t in s.base && s.owner.Some?
  {
    Enqueued(s.(current := Boosted(s.current, s.owner.value, t)), t, timeout)
  }

  ghost function Enqueued(s: State, t: Tid, timeout: int): State {
    s.(waiters := IpcList.Suspended(s.waiters, t, PriorityOf(s.current), s.flag),
       calls := s.calls[t := Call(timeout, Suspended)],
       pressed := s.pressed + {t}, arrived := s.arrived[t := s.clock], clock := s.clock + 1)
  }

  ghost function Taking(s: State, t: Tid, timeout: int): (State, Outcome)
    requires Known(s) && t in s.base
  {
    if s.owner == Some(t) then (s.(hold := (s.hold + 1) % HOLDS), Taken)
    else if s.value > 0 then (Acquired(s, t), Taken)
    else if timeout == 0 then (s, Refused(ETIMEOUT))
    else (Waiting(s, t, timeout), Blocked)
  }

  /** The owner t lets go of the mutex for good; its priority is what it was. */
  function Freed(s: State, t: Tid): State {
    s.(value := s.value + 1, owner := None, hold := 0, original := NO_PRIORITY, current := s.current[t := s.original], pressed := {})
  }

  /** The owner t lets go of the mutex; the first waiting thread owns it from now on. */
  ghost function PassedOn(s: State, t: Tid): State
    requires Known(s) && s.waiters != []
  {
    assert s.waiters[0] in s.waiters;
    HandedOn(s.(current := s.current[t := s.original]))
  }

  function HandedOn(s: State): State
    requires s.waiters != [] && s.waiters[0] in s.current && s.waiters[0] in s.calls
  {
    var u := s.waiters[0];
    s.(owner := Some(u), original := s.current[u], hold := 1, waiters := s.waiters[1..],
       calls := s.calls[u := s.calls[u].(wait := Woken)], pressed := {})
  }

  ghost function Releasing(s: State, t: Tid): (State, Outcome)
    requires Known(s) && t in s.base
  {
    if s.owner != Some(t) then (s, Refused(ERROR))
    else if s.hold != 1 then (s.(hold := (s.hold + HOLDS - 1) % HOLDS), Released)
    else if s.waiters == [] then (Freed(s, t), Released)
    else (PassedOn(s, t), Handed(s.waiters[0]))
  }

  ghost function Step(s: State, op: Op): (State, Outcome)
    requires Known(s) && Enabled(s, op)
  {
    match op
    case Take(t, timeout) => Taking(s, t, timeout)
    case Release(t) => Releasing(s, t)
    case Expire(t) =>
      (s.(waiters := Without(s.waiters, IndexOf(s.waiters, t)), calls := s.calls[t := s.calls[t].(wait := Failed(ETIMEOUT))]), Silent)
    case Return(t) =>
      (s.(calls := s.calls - {t}), Returned(match s.calls[t].wait case Failed(e) => e case _ => EOK))
  }

  // ----- the invariant ------------------------------------------------------------------------

  /** The waiting list names exactly the suspended calls; a call that was woken was handed the mutex. */
  ghost predicate Listed(s: State) {
    && Distinct(s.waiters)
    && (forall t :: t in s.waiters <==> t in s.calls && s.calls[t].wait.Suspended?)
    && (forall t :: t in s.calls && s.calls[t].wait.Woken? ==> s.owner == Some(t) && s.hold == 1)
    && (forall t :: t in s.calls && s.calls[t].wait.Failed? ==> s.calls[t].wait.error == ETIMEOUT)
  }

  /** Free: value 1, no owner, no hold, nobody waiting. Owned: value 0, one owner, which is not waiting. */
  ghost predicate Shaped(s: State)
    requires Known(s)
  {
    match s.owner
    case None => s.value == 1 && s.hold == 0 && s.waiters == [] && s.original == NO_PRIORITY
    case Some(o) => s.value == 0 && 0 < s.hold < HOLDS && o !in s.waiters && s.original == s.base[o]
  }

  /** t has the priority of the most urgent among itself and the threads that press it. */
  ghost predicate Inherits(s: State, t: Tid)
    requires t in s.current && t in s.base && s.pressed <= s.base.Keys
  {
    && s.current[t] <= s.base[t] && (forall u :: u in s.pressed ==> s.current[t] <= s.base[u])
    && (s.current[t] == s.base[t] || exists u :: u in s.pressed && s.current[t] == s.base[u])
  }

  /** Only the owner's priority is ever changed, and to the right value. */
  ghost predicate Fair(s: State)
    requires Known(s)
  {
    && s.pressed <= s.base.Keys
    && (forall t :: t in s.base && s.owner != Some(t) ==> s.current[t] == s.base[t])
    && (s.owner.Some? ==> Inherits(s, s.owner.value))
  }

  /** x is served before y: by priority if the flag says so, among equals in order of arrival. */
  ghost predicate Before(flag: IpcFlag, base: map<Tid, nat>, arrived: map<Tid, nat>, x: Tid, y: Tid)
    requires x in base && y in base && x in arrived && y in arrived
  {
    if flag.Prio? && base[x] != base[y] then base[x] < base[y] else arrived[x] < arrived[y]
  }

  ghost predicate Ordered(flag: IpcFlag, base: map<Tid, nat>, arrived: map<Tid, nat>, q: seq<Tid>) {
    && (forall t :: t in q ==> t in base && t in arrived)
    && forall i, j :: 0 <= i < j < |q| ==> Before(flag, base, arrived, q[i], q[j])
  }

  ghost predicate Queued(s: State) {
    && Ordered(s.flag, s.base, s.arrived, s.waiters)
    && forall t :: t in s.waiters ==> s.arrived[t] < s.clock
  }

  ghost predicate Inv(s: State) {
    Known(s) && Listed(s) && Shaped(s) && Fair(s) && Queued(s)
  }

  // ----- steps --------------------------------------------------------------------------------

  /** The one way hold can be wrong: the 256th take in a row by the same thread. */
  ghost predicate Wraps(s: State, op: Op) {
    op.Take? && s.owner == Some(op.t) && s.hold == HOLDS - 1
  }

  /** A newcomer goes where it belongs. */
  lemma OrderedSuspended(flag: IpcFlag, base: map<Tid, nat>, arrived: map<Tid, nat>, q: seq<Tid>, t: Tid, clock: nat, prio: Tid -> nat)
    requires Ordered(flag, base, arrived, q) && t in base && t !in q
    requires forall u :: u in q ==> arrived[u] < clock
    requires forall u :: u == t || u in q ==> prio(u) == base[u]
    ensures Ordered(flag, base, arrived[t := clock], IpcList.Suspended(q, t, prio, flag))
  {
    if flag.Prio? {
      assert IpcList.Sorted(q, prio) by {
        forall i, j | 0 <= i < j < |q| ensures prio(q[i]) <= prio(q[j]) { assert Before(flag, base, arrived, q[i], q[j]); }
      }
      IpcList.PlaceSplits(q, prio(t), prio);
    }
    var i := if flag.Fifo? then |q| else IpcList.Place(q, prio(t), prio);
    OrderedInserted(flag, base, arrived, q, t, clock, i);
  }

  lemma OrderedInserted(flag: IpcFlag, base: map<Tid, nat>, arrived: map<Tid, nat>, q: seq<Tid>, t: Tid, clock: nat, i: nat)
    requires Ordered(flag, base, arrived, q) && t in base && t !in q && i <= |q|
    requires forall u :: u in q ==> arrived[u] < clock
    requires flag.Fifo? ==> i == |q|
    requires flag.Prio? ==> forall k :: 0 <= k < |q| ==> (k < i <==> base[q[k]] <= base[t])
    ensures Ordered(flag, base, arrived[t := clock], Inserted(q, i, t))
  {
    var r := Inserted(q, i, t);
    forall a, b | 0 <= a < b < |r|
      ensures Before(flag, base, arrived[t := clock], r[a], r[b])
    {
      var (x, y) := (if a < i then a else a - 1, if b < i then b else b - 1);
      if a != i && b != i {
        assert r[a] == q[x] && r[b] == q[y] && Before(flag, base, arrived, q[x], q[y]);
      } else if a != i {
        assert r[a] == q[x];
      } else {
        assert r[b] == q[y];
      }
    }
  }

  lemma OrderedWithout(flag: IpcFlag, base: map<Tid, nat>, arrived: map<Tid, nat>, q: seq<Tid>, k: nat)
    requires Ordered(flag, base, arrived, q) && k < |q|
    ensures Ordered(flag, base, arrived, Without(q, k))
  {
    var r := Without(q, k);
    forall i, j | 0 <= i < j < |r|
      ensures Before(flag, base, arrived, r[i], r[j])
    {
      var (x, y) := (if i < k then i else i + 1, if j < k then j else j + 1);
      assert r[i] == q[x] && r[j] == q[y] && Before(flag, base, arrived, q[x], q[y]);
    }
  }

  lemma BlockedKeepsInv(s: State, t: Tid, timeout: int)
    requires Inv(s) && t in s.base && t !in s.calls && s.owner.Some? && s.owner != Some(t) && timeout != 0
    ensures Inv(Taking(s, t, timeout).0)
  {
    var r := Taking(s, t, timeout).0;
    BlockedListed(s, t, timeout, r);
    BlockedQueued(s, t, timeout, r);
    BoostInherits(s, t, r);
  }

  lemma BlockedListed(s: State, t: Tid, timeout: int, r: State)
    requires Inv(s) && t in s.base && t !in s.calls && s.owner.Some? && s.owner != Some(t) && r == Waiting(s, t, timeout)
    ensures Known(r) && Listed(r) && Shaped(r)
  {
    IpcList.SuspendedDistinct(s.waiters, t, PriorityOf(r.current), s.flag);
  }

  lemma BlockedQueued(s: State, t: Tid, timeout: int, r: State)
    requires Inv(s) && t in s.base && t !in s.calls && s.owner.Some? && s.owner != Some(t) && r == Waiting(s, t, timeout)
    ensures Queued(r)
  {
    IpcList.SuspendedDistinct(s.waiters, t, PriorityOf(r.current), s.flag);
    OrderedSuspended(s.flag, s.base, s.arrived, s.waiters, t, s.clock, PriorityOf(r.current));
  }

  lemma BoostInherits(s: State, t: Tid, r: State)
    requires Inv(s) && t in s.base && s.owner.Some? && s.owner != Some(t) && Known(r)
    requires r.base == s.base && r.owner == s.owner && r.pressed == s.pressed + {t}
    requires r.current == Boosted(s.current, s.owner.value, t)
    ensures Fair(r)
  {
    var o := s.owner.value;
    if s.current[t] < s.current[o] {
      assert t in r.pressed && r.current[o] == r.base[t];
    } else if s.current[o] != s.base[o] {
      var u :| u in s.pressed && s.current[o] == s.base[u];
      assert u in r.pressed;
    }
  }

  lemma TakingKeepsInv(s: State, t: Tid, timeout: int)
    requires Inv(s) && Enabled(s, Take(t, timeout))
    ensures Inv(Taking(s, t, timeout).0) <==> !Wraps(s, Take(t, timeout))
  {
    var r := Taking(s, t, timeout).0;
    if s.owner == Some(t) {
      assert Wraps(s, Take(t, timeout)) ==> r.hold == 0;
      assert Inherits(s, t) ==> Inherits(r, t);
    } else if s.value > 0 {
      assert r.hold == 1;
      assert Inherits(r, t);
    } else if timeout != 0 {
      BlockedKeepsInv(s, t, timeout);
    }
  }

  lemma HandedKeepsInv(s: State, t: Tid)
    requires Inv(s) && Enabled(s, Release(t)) && s.owner == Some(t) && s.hold == 1 && s.waiters != []
    ensures Inv(Releasing(s, t).0)
  {
    var r := Releasing(s, t).0;
    var u := s.waiters[0];
    assert r.waiters == Without(s.waiters, 0);
    WithoutDistinct(s.waiters, 0);
    OrderedWithout(s.flag, s.base, s.arrived, s.waiters, 0);
    assert Inherits(r, u);
  }

  lemma ReleasingKeepsInv(s: State, t: Tid)
    requires Inv(s) && Enabled(s, Release(t))
    ensures Inv(Releasing(s, t).0)
  {
    var r := Releasing(s, t).0;
    if s.owner == Some(t) && s.hold != 1 {
      assert r.hold == s.hold - 1;
      assert Inherits(r, t);
    } else if s.owner == Some(t) && s.waiters != [] {
      HandedKeepsInv(s, t);
    }
  }

  lemma ExpireKeepsInv(s: State, t: Tid)
    requires Inv(s) && Enabled(s, Expire(t))
    ensures Inv(Step(s, Expire(t)).0)
  {
    var r := Step(s, Expire(t)).0;
    var k := IndexOf(s.waiters, t);
    WithoutDistinct(s.waiters, k);
    OrderedWithout(s.flag, s.base, s.arrived, s.waiters, k);
    assert s.owner.Some? && Inherits(r, s.owner.value);
  }

  lemma ReturnKeepsInv(s: State, t: Tid)
    requires Inv(s) && Enabled(s, Return(t))
    ensures Inv(Step(s, Return(t)).0)
  {
    var r := Step(s, Return(t)).0;
    assert s.owner.Some? ==> Inherits(r, s.owner.value);
  }

  /** Every step keeps the mutex sound, except a take that makes the 8-bit hold count wrap to 0. */
  lemma StepKeepsInvExactly(s: State, op: Op)
    requires Inv(s) && Enabled(s, op)
    ensures Inv(Step(s, op).0) <==> !Wraps(s, op)
  {
    match op
    case Take(t, timeout) => TakingKeepsInv(s, t, timeout);
    case Release(t) => ReleasingKeepsInv(s, t);
    case Expire(t) => ExpireKeepsInv(s, t);
    case Return(t) => ReturnKeepsInv(s, t);
  }

  // ----- what the priorities are for ----------------------------------------------------------

  /** The owner is at least as urgent as every thread that waits for it. */
  ghost predicate Covered(s: State)
    requires Known(s)
  {
    s.owner.Some? ==> forall t :: t in s.waiters ==> s.current[s.owner.value] <= s.base[t]
  }

  /** The mutex goes to a thread that is less urgent than one that keeps waiting. */
  ghost predicate Inverts(s: State, op: Op)
    requires Known(s)
  {
    && op.Release? && s.owner == Some(op.t) && s.hold == 1 && s.waiters != []
    && exists t :: t in s.waiters[1..] && s.base[t] < s.base[s.waiters[0]]
  }

  /** A hand-over does not pass the remaining waiters' priorities on; nothing else uncovers the owner. */
  lemma StepKeepsCoveredExactly(s: State, op: Op)
    requires Inv(s) && Enabled(s, op) && Covered(s)
    ensures Known(Step(s, op).0)
    ensures Covered(Step(s, op).0) <==> !Inverts(s, op)
  {
    var r := Step(s, op).0;
    match op
    case Take(t, timeout) => TakingKeepsInv(s, t, timeout);
    case Release(t) =>
      ReleasingKeepsInv(s, t);
      if s.owner == Some(t) && s.hold == 1 && s.waiters != [] {
        assert s.waiters[0] !in s.waiters[1..];
      }
    case Expire(t) =>
      ExpireKeepsInv(s, t);
      WithoutDistinct(s.waiters, IndexOf(s.waiters, t));
    case Return(t) => ReturnKeepsInv(s, t);
  }

  /** With the priority flag that never happens. */
  lemma PriorityNeverInverts(s: State, op: Op)
    requires Inv(s) && s.flag.Prio?
    ensures !Inverts(s, op)
  {
    forall t | t in s.waiters && t in s.waiters[1..]
      ensures s.base[s.waiters[0]] <= s.base[t]
    {
      var j :| 0 <= j < |s.waiters[1..]| && s.waiters[1..][j] == t;
      assert Before(s.flag, s.base, s.arrived, s.waiters[0], s.waiters[j + 1]);
    }
  }

  /** The last release gives the owner the priority back that it had when it got the mutex. */
  lemma ReleaseRestores(s: State, t: Tid)
    requires Inv(s) && Enabled(s, Release(t)) && s.owner == Some(t) && s.hold == 1
    ensures var r := Releasing(s, t).0; Known(r) && r.current[t] == s.original == s.base[t]
  {
    ReleasingKeepsInv(s, t);
  }

  /** The mutex goes to the thread that is before every other one. */
  lemma HandsOverToFirst(s: State, t: Tid, u: Tid)
    requires Inv(s) && Enabled(s, Release(t)) && s.owner == Some(t) && s.hold == 1 && u in s.waiters
    ensures match Releasing(s, t).1
            case Handed(next) => next == u || (next in s.arrived && u in s.arrived && next in s.base && Before(s.flag, s.base, s.arrived, next, u))
            case _ => false
  {
    var j :| 0 <= j < |s.waiters| && s.waiters[j] == u;
    if j > 0 {
      assert Before(s.flag, s.base, s.arrived, s.waiters[0], s.waiters[j]);
    }
  }

  // ----- how each section ends ----------------------------------------------------------------

  /**
   A take is granted exactly if the mutex is free or the caller owns it; refused exactly if another thread owns it and
   the caller does not want to wait; or else the caller waits.
   */
  lemma TakeEndsExactly(s: State, t: Tid, timeout: int)
    requires Inv(s) && Enabled(s, Take(t, timeout))
    ensures var (r, out) := Step(s, Take(t, timeout));
            && (out == Taken <==> s.owner.None? || s.owner == Some(t))
            && (out == Refused(ETIMEOUT) <==> s.owner.Some? && s.owner != Some(t) && timeout == 0)
            && (out == Blocked <==> s.owner.Some? && s.owner != Some(t) && timeout != 0)
            && (out.Refused? ==> r == s)
  {
  }

  /** A take that is granted counts up the hold, and changes nothing else of the others. */
  lemma GrantedTake(s: State, t: Tid, timeout: int)
    requires Inv(s) && Enabled(s, Take(t, timeout)) && (s.owner.None? || s.owner == Some(t))
    ensures var r := Step(s, Take(t, timeout)).0;
            && r.owner == Some(t) && r.hold == (if s.hold == 255 then 0 else s.hold + 1)
            && r.current == s.current && r.waiters == s.waiters && r.calls == s.calls
  {
    CountsUp(s.hold);
  }

  lemma CountsUp(hold: nat)
    requires hold < HOLDS
    ensures (hold + 1) % HOLDS == if hold == 255 then 0 else hold + 1
  {
  }

  /** A take that waits puts the caller on the list, and gives the owner its priority if that is more urgent. */
  lemma BlockedTake(s: State, t: Tid, timeout: int)
    requires Inv(s) && Enabled(s, Take(t, timeout)) && s.owner.Some? && s.owner != Some(t) && timeout != 0
    ensures var (r, o) := (Step(s, Take(t, timeout)).0, s.owner.value);
            && r.owner == s.owner && r.hold == s.hold && t in r.waiters && r.calls == s.calls[t := Call(timeout, Suspended)]
            && o in s.current && t in s.current
            && r.current == s.current[o := if s.current[t] < s.current[o] then s.current[t] else s.current[o]]
  {
  }

  /**
   A release is refused exactly if the caller does not own the mutex. The last one hands it to the first waiting thread,
   or else leaves it free; any other takes one off the hold.
   */
  lemma ReleaseEndsExactly(s: State, t: Tid)
    requires Inv(s) && Enabled(s, Release(t))
    ensures var (r, out) := Step(s, Release(t));
            && (out == Refused(ERROR) <==> s.owner != Some(t)) && (out.Refused? ==> r == s)
            && (s.owner == Some(t) && s.hold > 1 ==> out == Released && r == s.(hold := s.hold - 1))
            && (s.owner == Some(t) && s.hold == 1 && s.waiters == [] ==> out == Released && r.owner.None? && r.value == 1 && r.hold == 0)
            && (s.owner == Some(t) && s.hold == 1 && s.waiters != [] ==>
                  && out == Handed(s.waiters[0]) && r.owner == Some(s.waiters[0]) && r.hold == 1 && r.waiters == s.waiters[1..]
                  && s.waiters[0] in s.calls && r.calls == s.calls[s.waiters[0] := s.calls[s.waiters[0]].(wait := Woken)])
  {
    assert s.waiters != [] ==> s.waiters[0] in s.waiters;
  }

  /** A suspended take returns RT_EOK exactly if the mutex was handed to it, and its timeout otherwise. */
  lemma ReturnEndsExactly(s: State, t: Tid)
    requires Inv(s) && Enabled(s, Return(t))
    ensures var (r, out) := Step(s, Return(t));
            && (out == Returned(EOK) <==> s.calls[t].wait.Woken?) && (out == Returned(ETIMEOUT) <==> s.calls[t].wait.Failed?)
            && (out == Returned(EOK) ==> s.owner == Some(t))
            && r == s.(calls := s.calls - {t})
  {
  }

  /** A sleep ends with RT_ETIMEOUT by its own timeout, if it has one, and well by a hand-over while it is first. */
  lemma SleepEnds(s: State, op: Op, u: Tid)
    requires Inv(s) && Enabled(s, op) && u in s.calls && s.calls[u].wait.Suspended?
    ensures var (r, out) := Step(s, op);
            && u in r.calls
            && r.calls[u] == s.calls[u].(wait :=
                 if op == Expire(u) then Failed(ETIMEOUT) else if out == Handed(u) then Woken else Suspended)
            && (op == Expire(u) ==> s.calls[u].timeout > 0 && r.owner == s.owner && r.current == s.current)
  {
    match op
    case Take(t, timeout) =>
    case Release(t) => ReleaseEndsExactly(s, t);
    case Expire(t) =>
    case Return(t) =>
  }

  // ----- whole runs ---------------------------------------------------------------------------

  /** A state, and for every thread the takes it was granted less the releases it was granted. */
  datatype History = History(s: State, depth: map<Tid, int>)

  function Depth(depth: map<Tid, int>, t: Tid): int {
    if t in depth then depth[t] else 0
  }

  ghost function Record(h: History, op: Op): History
    requires Known(h.s) && Enabled(h.s, op)
  {
    var (s, out) := Step(h.s, op);
    match out
    case Taken => History(s, h.depth[op.t := Depth(h.depth, op.t) + 1])
    case Released => History(s, h.depth[op.t := Depth(h.depth, op.t) - 1])
    case Handed(u) => History(s, h.depth[op.t := Depth(h.depth, op.t) - 1][u := Depth(h.depth, u) + 1])
    case _ => History(s, h.depth)
  }

  ghost predicate Leads(h: History, ops: seq<Op>, h': History)
    decreases |ops|
  {
    if ops == [] then h == h'
    else Known(h.s) && Enabled(h.s, ops[0]) && Leads(Record(h, ops[0]), ops[1..], h')
  }

  /** No thread of the run takes the mutex 256 times without a release. */
  ghost predicate NeverWraps(h: History, ops: seq<Op>)
    decreases |ops|
  {
    ops == [] || !Known(h.s) || !Enabled(h.s, ops[0]) || (!Wraps(h.s, ops[0]) && NeverWraps(Record(h, ops[0]), ops[1..]))
  }

  /** Nobody but the owner has an unreleased take, and hold counts the owner's. */
  ghost predicate Exclusive(h: History) {
    forall t: Tid :: Depth(h.depth, t) == if h.s.owner == Some(t) then h.s.hold else 0
  }

  ghost predicate Sound(h: History) {
    Inv(h.s) && Exclusive(h) && (h.s.flag.Prio? ==> Covered(h.s))
  }

  lemma RecordKeepsExclusive(h: History, op: Op)
    requires Inv(h.s) && Exclusive(h) && Enabled(h.s, op) && !Wraps(h.s, op)
    ensures Exclusive(Record(h, op))
  {
    if op.Release? && h.s.owner == Some(op.t) && h.s.hold == 1 && h.s.waiters != [] {
      assert h.s.waiters[0] in h.s.waiters;
    }
  }

  /** What never changes. */
  lemma StepKeepsBase(s: State, op: Op)
    requires Known(s) && Enabled(s, op)
    ensures Step(s, op).0.flag == s.flag && Step(s, op).0.base == s.base
  {
  }

  lemma RecordSteps(h: History, op: Op)
    requires Known(h.s) && Enabled(h.s, op)
    ensures Record(h, op).s == Step(h.s, op).0
  {
  }

  lemma StepKeepsCovered(s: State, op: Op)
    requires Inv(s) && Enabled(s, op) && !Wraps(s, op) && Covered(s) && s.flag.Prio?
    ensures Inv(Step(s, op).0) && Covered(Step(s, op).0)
  {
    StepKeepsInvExactly(s, op);
    StepKeepsCoveredExactly(s, op);
    PriorityNeverInverts(s, op);
  }

  lemma RecordKeepsSound(h: History, op: Op)
    requires Sound(h) && Enabled(h.s, op) && !Wraps(h.s, op)
    ensures Sound(Record(h, op)) && Record(h, op).s.flag == h.s.flag && Record(h, op).s.base == h.s.base
  {
    var h' := Record(h, op);
    assert h'.s == Step(h.s, op).0 by { RecordSteps(h, op); }
    assert h'.s.flag == h.s.flag && h'.s.base == h.s.base by { StepKeepsBase(h.s, op); }
    assert Exclusive(h') by { RecordKeepsExclusive(h, op); }
    assert Inv(h'.s) by { StepKeepsInvExactly(h.s, op); }
    if h.s.flag.Prio? {
      StepKeepsCovered(h.s, op);
    }
  }

  lemma {:induction false} RunKeepsSound(h: History, ops: seq<Op>, h': History)
    requires Sound(h) && Leads(h, ops, h') && NeverWraps(h, ops)
    ensures Sound(h') && h'.s.flag == h.s.flag && h'.s.base == h.s.base
    decreases |ops|
  {
    if ops != [] {
      RecordKeepsSound(h, ops[0]);
      RunKeepsSound(Record(h, ops[0]), ops[1..], h');
    }
  }

  /**
   In every state any interleaving can reach, as long as nobody nests 256 takes: at most one thread has
   unreleased takes, and it is the owner; when nobody owns the mutex all priorities are what they were, and the
   owner's is that of the most urgent thread that has asked since; with the priority flag nobody more urgent waits.
   */
  lemma ReachableMutex(flag: IpcFlag, base: map<Tid, nat>, ops: seq<Op>, h: History, t: Tid)
    requires var start := History(Init(flag, base), map[]); Leads(start, ops, h) && NeverWraps(start, ops)
    ensures Known(h.s) && h.s.base == base
    ensures Depth(h.depth, t) == if h.s.owner == Some(t) then h.s.hold else 0
    ensures h.s.owner == Some(t) ==> Depth(h.depth, t) > 0
    ensures t in base ==> if h.s.owner == Some(t) then h.s.pressed <= base.Keys && Inherits(h.s, t) else h.s.current[t] == base[t]
    ensures flag.Prio? && h.s.owner == Some(t) ==> forall u :: u in h.s.waiters ==> h.s.current[t] <= base[u]
  {
    RunKeepsSound(History(Init(flag, base), map[]), ops, h);
  }

  /** A suspended take fails by its timeout only, and only if it has one. */
  ghost predicate FailsRightly(calls: map<Tid, Call>) {
    forall t :: t in calls && calls[t].wait.Failed? ==> calls[t].wait.error == ETIMEOUT && calls[t].timeout > 0
  }

  lemma StepFailsRightly(s: State, op: Op)
    requires Known(s) && Enabled(s, op) && FailsRightly(s.calls)
    ensures FailsRightly(Step(s, op).0.calls)
  {
  }

  lemma {:induction false} RunFailsRightly(h: History, ops: seq<Op>, h': History)
    requires FailsRightly(h.s.calls) && Leads(h, ops, h')
    ensures FailsRightly(h'.s.calls)
    decreases |ops|
  {
    if ops != [] {
      StepFailsRightly(h.s, ops[0]);
      RecordSteps(h, ops[0]);
      RunFailsRightly(Record(h, ops[0]), ops[1..], h');
    }
  }

  /** A take that waits forever never returns RT_ETIMEOUT. */
  lemma ForeverIsForever(flag: IpcFlag, base: map<Tid, nat>, ops: seq<Op>, h: History, op: Op)
    requires Leads(History(Init(flag, base), map[]), ops, h) && Known(h.s) && Enabled(h.s, op)
    requires if op.Take? then op.timeout < 0 else op.Return? && h.s.calls[op.t].timeout < 0
    ensures var out := Step(h.s, op).1; out == Taken || out == Blocked || out == Returned(EOK)
  {
    RunFailsRightly(History(Init(flag, base), map[]), ops, h);
  }

  // ----- why the conditions are needed --------------------------------------------------------

  /** Three threads of priorities 9, 8 and 1: the first owns the mutex, the others ask for it one after the other. */
  function Three(): map<Tid, nat> {
    map[1 := 9, 2 := 8, 3 := 1]
  }

  function Owned(): State {
    State(Fifo, 0, Some(1), 1, 9, [], map[], Three(), Three(), {}, map[], 0)
  }

  function Wanted(): State {
    State(Fifo, 0, Some(1), 1, 9, [2], map[2 := Call(-1, Suspended)], Three()[1 := 8], Three(), {2}, map[2 := 0], 1)
  }

  function WantedTwice(): State {
    State(Fifo, 0, Some(1), 1, 9, [2, 3], map[2 := Call(-1, Suspended), 3 := Call(-1, Suspended)], Three()[1 := 1], Three(),
          {2, 3}, map[2 := 0, 3 := 1], 2)
  }

  function Inverted(): State {
    State(Fifo, 0, Some(2), 1, 8, [3], map[2 := Call(-1, Woken), 3 := Call(-1, Suspended)], Three(), Three(),
          {}, map[2 := 0, 3 := 1], 2)
  }

  lemma FirstAsks()
    ensures Known(Init(Fifo, Three())) && Step(Init(Fifo, Three()), Take(1, -1)) == (Owned(), Taken)
  {
  }

  lemma SecondAsks()
    ensures Known(Owned()) && Step(Owned(), Take(2, -1)) == (Wanted(), Blocked)
  {
    assert Boosted(Three(), 1, 2) == Three()[1 := 8];
    assert IpcList.Suspended([], 2, PriorityOf(Three()[1 := 8]), Fifo) == [2];
    assert {} + {2} == {2} && map[][2 := 0] == map[2 := 0];
    assert map[][2 := Call(-1, Suspended)] == map[2 := Call(-1, Suspended)];
  }

  lemma ThirdAsks()
    ensures Known(Wanted()) && Step(Wanted(), Take(3, -1)) == (WantedTwice(), Blocked)
  {
    assert Boosted(Three()[1 := 8], 1, 3) == Three()[1 := 1];
    assert IpcList.Suspended([2], 3, PriorityOf(Three()[1 := 1]), Fifo) == [2, 3];
    assert {2} + {3} == {2, 3} && map[2 := 0][3 := 1] == map[2 := 0, 3 := 1];
    var c := Call(-1, Suspended);
    assert map[2 := c][3 := c] == map[2 := c, 3 := c];
  }

  lemma FirstLetsGo()
    ensures Known(WantedTwice()) && Step(WantedTwice(), Release(1)) == (Inverted(), Handed(2))
  {
    assert Three()[1 := 1][1 := 9] == Three();
    assert [2, 3][1..] == [3];
    var (c, d) := (Call(-1, Suspended), Call(-1, Woken));
    assert map[2 := c, 3 := c][2 := d] == map[2 := d, 3 := c];
  }

  lemma LeadsOn(h: History, op: Op, ops: seq<Op>, h': History)
    requires Known(h.s) && Enabled(h.s, op) && Leads(Record(h, op), ops, h')
    ensures Leads(h, [op] + ops, h')
  {
    assert ([op] + ops)[1..] == ops;
  }

  /** The run's last two steps. */
  lemma FifoInvertsSoon()
    ensures Leads(History(Wanted(), map[1 := 1]), [Take(3, -1)] + [Release(1)], History(Inverted(), map[1 := 0, 2 := 1]))
  {
    ThirdAsks();
    FirstLetsGo();
    var (one, end) := (map[1 := 1], History(Inverted(), map[1 := 0, 2 := 1]));
    assert [Release(1)] + [] == [Release(1)];
    LeadsOn(History(WantedTwice(), one), Release(1), [], end);
    LeadsOn(History(Wanted(), one), Take(3, -1), [Release(1)], end);
  }

  lemma FifoInvertsLater()
    ensures Leads(History(Owned(), map[1 := 1]), [Take(2, -1)] + ([Take(3, -1)] + [Release(1)]), History(Inverted(), map[1 := 0, 2 := 1]))
  {
    SecondAsks();
    FifoInvertsSoon();
    LeadsOn(History(Owned(), map[1 := 1]), Take(2, -1), [Take(3, -1)] + [Release(1)], History(Inverted(), map[1 := 0, 2 := 1]));
  }

  /** A first-come-first-served mutex can leave an urgent thread behind a less urgent owner. */
  lemma FifoInverts()
    ensures var start := History(Init(Fifo, Three()), map[]);
            Leads(start, [Take(1, -1)] + ([Take(2, -1)] + ([Take(3, -1)] + [Release(1)])), History(Inverted(), map[1 := 0, 2 := 1]))
    ensures Known(Inverted()) && !Covered(Inverted())
  {
    FirstAsks();
    FifoInvertsLater();
    var end := History(Inverted(), map[1 := 0, 2 := 1]);
    LeadsOn(History(Init(Fifo, Three()), map[]), Take(1, -1), [Take(2, -1)] + ([Take(3, -1)] + [Release(1)]), end);
    assert 3 in Inverted().waiters;
  }

  /** The 256th take in a row leaves an owned mutex with hold 0, and the next release does not free it. */
  lemma WrappedHold(s: State, t: Tid)
    requires Inv(s) && t in s.base && t !in s.calls && s.owner == Some(t) && s.hold == HOLDS - 1
    ensures var r := Taking(s, t, -1).0; Known(r) && r.hold == 0 && r.owner == Some(t) && Releasing(r, t).0.hold == HOLDS - 1
  {
  }

  function Takes(t: Tid, n: nat): seq<Op> {
    if n == 0 then [] else [Take(t, -1)] + Takes(t, n - 1)
  }

  /** Thread t has taken the mutex n times, and nobody else has asked for it. */
  function Nested(flag: IpcFlag, base: map<Tid, nat>, t: Tid, n: nat): History
    requires t in base
  {
    History(State(flag, 0, Some(t), n, base[t], [], map[], base, base, {}, map[], 0), map[t := n])
  }

  lemma NestsOnce(flag: IpcFlag, base: map<Tid, nat>, t: Tid, k: nat, h: History)
    requires t in base && 0 < k && k + 1 < HOLDS && h == Nested(flag, base, t, k)
    ensures Known(h.s) && Enabled(h.s, Take(t, -1)) && Record(h, Take(t, -1)) == Nested(flag, base, t, k + 1)
  {
    assert map[t := k][t := k + 1] == map[t := k + 1];
  }

  lemma {:induction false} NestsDeeper(flag: IpcFlag, base: map<Tid, nat>, t: Tid, k: nat, n: nat)
    requires t in base && 0 < k && k + n < HOLDS
    ensures Leads(Nested(flag, base, t, k), Takes(t, n), Nested(flag, base, t, k + n))
    decreases n
  {
    if n > 0 {
      var h := Nested(flag, base, t, k);
      NestsOnce(flag, base, t, k, h);
      NestsDeeper(flag, base, t, k + 1, n - 1);
      LeadsOn(h, Take(t, -1), Takes(t, n - 1), Nested(flag, base, t, k + n));
    }
  }

  /** On any mutex, 255 takes lead to where the next one wraps the hold. */
  lemma WrapIsReachable(flag: IpcFlag, base: map<Tid, nat>, t: Tid)
    requires t in base
    ensures Leads(History(Init(flag, base), map[]), [Take(t, -1)] + Takes(t, HOLDS - 2), Nested(flag, base, t, HOLDS - 1))
    ensures Known(Nested(flag, base, t, HOLDS - 1).s) && Enabled(Nested(flag, base, t, HOLDS - 1).s, Take(t, -1))
    ensures Wraps(Nested(flag, base, t, HOLDS - 1).s, Take(t, -1))
  {
    var start := History(Init(flag, base), map[]);
    assert Record(start, Take(t, -1)) == Nested(flag, base, t, 1) by { assert map[][t := 1] == map[t := 1]; }
    NestsDeeper(flag, base, t, 1, HOLDS - 2);
    LeadsOn(start, Take(t, -1), Takes(t, HOLDS - 2), Nested(flag, base, t, HOLDS - 1));
  }
}
