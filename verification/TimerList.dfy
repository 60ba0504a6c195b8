/** The hard timer list with the 32-bit ticks of the source (src/timer.c, and rt_tick_increase of src/clock.c). */
module TimerList {
  import opened Kernel
  import T = TimerSpec

  /** rt_tick_t has 32 bits. */
  const TICKS := 0x1_0000_0000

  /** A count of ticks since boot, as rt_tick_t holds it. */
  function Wrapped(n: nat): (r: nat)
    ensures r < TICKS
  {
    n % TICKS
  }

  /** The difference of two ticks, as unsigned arithmetic gives it. */
  function Minus(a: nat, b: nat): (r: nat)
    requires a < TICKS && b < TICKS
    ensures r < TICKS
  {
    if a >= b then a - b else a - b + TICKS
  }

  /** Tick a is not before tick b, going by a difference below half the range. */
  predicate Reached(a: nat, b: nat)
    requires a < TICKS && b < TICKS
  {
    Minus(a, b) < T.HALF
  }

  /** The wrapped comparison is right as long as the two lie within half the range of each other. */
  lemma ReachedIsRight(a: nat, b: nat)
    requires b - T.HALF <= a < b + T.HALF
    ensures Reached(Wrapped(a), Wrapped(b)) <==> a >= b
  {
    var (p, q) := (a / TICKS, b / TICKS);
    assert a == p * TICKS + Wrapped(a) && b == q * TICKS + Wrapped(b);
    if p > q {
      assert (p - q) * TICKS == p * TICKS - q * TICKS;
      assert p - q == 1;
    } else if p < q {
      assert (q - p) * TICKS == q * TICKS - p * TICKS;
      assert q - p == 1;
    }
  }

  function Ids(list: seq<T.Entry>): (r: seq<T.Id>)
    ensures |r| == |list| && forall i :: 0 <= i < |r| ==> r[i] == list[i].id
  {
    seq(|list|, i requires 0 <= i < |list| => list[i].id)
  }

  /** Every listed timer has its timeout_tick. */
  ghost predicate Stamped(list: seq<T.Entry>, ticks: map<T.Id, nat>) {
    forall i :: 0 <= i < |list| ==> list[i].id in ticks && ticks[list[i].id] == Wrapped(list[i].due)
  }

  lemma {:induction false} WithinAt(list: seq<T.Entry>, from: int, to: int, i: nat)
    requires T.Within(list, from, to) && i < |list|
    ensures from <= list[i].due < to
  {
    if i > 0 {
      WithinAt(list[1..], from, to, i - 1);
    }
  }

  lemma {:induction false} DueAt(list: seq<T.Entry>, i: nat)
    requires i < |list|
    ensures T.Due(list, list[i].id).Some?
  {
    if i > 0 && list[0].id != list[i].id {
      DueAt(list[1..], i - 1);
    }
  }

  lemma {:induction false} DueListed(list: seq<T.Entry>, id: T.Id)
    ensures T.Due(list, id).Some? <==> id in Ids(list)
  {
    if list != [] {
      assert Ids(list) == [list[0].id] + Ids(list[1..]);
      DueListed(list[1..], id);
    }
  }

  /** Taking a timer off the list by its position. */
  lemma {:induction false} RemoveAt(list: seq<T.Entry>, id: T.Id, k: nat)
    requires k < |list| && list[k].id == id && forall i :: 0 <= i < k ==> list[i].id != id
    ensures T.Remove(list, id) == Without(list, k)
  {
    if k == 0 {
      assert Without(list, 0) == list[1..];
    } else {
      RemoveAt(list[1..], id, k - 1);
      assert Without(list, k) == [list[0]] + Without(list[1..], k - 1);
    }
  }

  lemma {:induction false} IndexIsFirst(s: seq<T.Id>, x: T.Id)
    requires x in s
    ensures forall i :: 0 <= i < IndexOf(s, x) ==> s[i] != x
  {
    if s[0] != x {
      IndexIsFirst(s[1..], x);
      assert forall i :: 0 < i < |s| ==> s[i] == s[1..][i - 1];
    }
  }

  lemma {:induction false} RemoveAbsent(list: seq<T.Entry>, id: T.Id)
    requires T.Due(list, id).None?
    ensures T.Remove(list, id) == list
  {
    if list != [] {
      RemoveAbsent(list[1..], id);
    }
  }

  /** The place for an entry has been found. */
  lemma {:induction false} InsertAt(list: seq<T.Entry>, e: T.Entry, n: nat)
    requires n <= |list| && (n < |list| ==> e.due <= list[n].due) && forall i :: 0 <= i < n ==> list[i].due < e.due
    ensures T.Insert(list, e) == list[..n] + [e] + list[n..]
  {
    if n > 0 {
      InsertAt(list[1..], e, n - 1);
      assert list[..n] == [list[0]] + list[1..][..n - 1] && list[n..] == list[1..][n - 1..];
    }
  }

  class TimerList {
    var rtTick: nat
    /** rt_timer_list */
    var list: seq<T.Id>
    var timeoutTick: map<T.Id, nat>
    /** init_tick and flags of every timer. */
    var timers: map<T.Id, T.Timer>
    ghost var clock: nat
    ghost var entries: seq<T.Entry>

    ghost function State(): T.State
      reads this
    {
      T.State(clock, entries, timers)
    }

    /** The wrapped ticks stand for the real ones. */
    ghost predicate Stands()
      reads this
    {
      rtTick == Wrapped(clock) && list == Ids(entries) && Stamped(entries, timeoutTick)
    }

    ghost predicate Valid()
      reads this
    {
      Stands() && T.Inv(State())
    }

    /** No timer runs; the clock may stand anywhere. */
    constructor (clock: nat, timers: map<T.Id, T.Timer>)
      requires T.Set(timers) && forall id :: id in timers ==> !timers[id].activated
      ensures Valid() && State() == T.State(clock, [], timers)
    {
      rtTick, list, timeoutTick := clock % TICKS, [], map[];
      this.timers, this.clock, entries := timers, clock, [];
    }

    /** Where a timer with this timeout_tick goes. */
    method Place(timeout: nat, ghost due: nat) returns (n: nat)
      requires Stands() && T.Within(entries, clock - 1, clock + T.HALF) && timeout == Wrapped(due) && clock <= due < clock + T.HALF
      ensures n <= |entries| && (n < |entries| ==> due <= entries[n].due) && forall i :: 0 <= i < n ==> entries[i].due < due
    {
      n := 0;
      while n < |list|
        invariant n <= |list| && forall i :: 0 <= i < n ==> entries[i].due < due
      {
        WithinAt(entries, clock - 1, clock + T.HALF, n);
        ReachedIsRight(entries[n].due, due);
        if Reached(timeoutTick[list[n]], timeout) {
          return;
        }
        n := n + 1;
      }
    }

    lemma WrappedSum(a: nat, b: nat)
      ensures Wrapped(Wrapped(a) + b) == Wrapped(a + b)
    {
      var q := a / TICKS;
      assert a + b == q * TICKS + (Wrapped(a) + b);
    }

    /** rt_timer_start */
    method Start(id: T.Id) returns (error: Error)
      requires Stands() && T.Within(entries, clock - 1, clock + T.HALF) && id in timers && timers[id].init < T.HALF
      requires !timers[id].activated ==> T.Due(entries, id).None?
      modifies this`list, this`timeoutTick, this`timers, this`entries
      ensures Stands() && State() == T.Started(old(State()), id)
      ensures error == if old(timers)[id].activated then ERROR else EOK
    {
      if timers[id].activated {
        return ERROR;
      }
      ghost var e := T.Entry(id, clock + timers[id].init);
      WrappedSum(clock, timers[id].init);
      DueListed(entries, id);
      var timeout := (rtTick + timers[id].init) % TICKS;
      var n := Place(timeout, e.due);
      InsertAt(entries, e, n);
      timeoutTick := timeoutTick[id := timeout];
      list := list[..n] + [id] + list[n..];
      entries := entries[..n] + [e] + entries[n..];
      timers := timers[id := timers[id].(activated := true)];
      return EOK;
    }

    /** rt_timer_stop; removing a timer that is off the list already does nothing. */
    method Stop(id: T.Id) returns (error: Error)
      requires Stands() && id in timers
      modifies this`list, this`timers, this`entries
      ensures Stands() && State() == T.Stopped(old(State()), id)
      ensures error == if old(timers)[id].activated then EOK else ERROR
    {
      if !timers[id].activated {
        return ERROR;
      }
      DueListed(entries, id);
      if id in list {
        var n := IndexOf(list, id);
        IndexIsFirst(list, id);
        RemoveAt(entries, id, n);
        list := Without(list, n);
        entries := Without(entries, n);
      } else {
        RemoveAbsent(entries, id);
      }
      timers := timers[id := timers[id].(activated := false)];
      return EOK;
    }

    /** rt_timer_control with the command to set the time: a running timer stays where it is. */
    method SetTime(id: T.Id, ticks: nat)
      requires Valid() && T.Enabled(State(), T.SetTime(id, ticks))
      modifies this`timers
      ensures Valid() && State() == T.Step(old(State()), T.SetTime(id, ticks)).0
    {
      T.StepKeepsInv(State(), T.SetTime(id, ticks));
      timers := timers[id := timers[id].(init := ticks)];
    }

    /** And with the commands to make it one-shot or periodic. */
    method SetPeriodic(id: T.Id, on: bool)
      requires Valid() && T.Enabled(State(), T.SetPeriodic(id, on))
      modifies this`timers
      ensures Valid() && State() == T.Step(old(State()), T.SetPeriodic(id, on)).0
    {
      T.StepKeepsInv(State(), T.SetPeriodic(id, on));
      timers := timers[id := timers[id].(periodic := on)];
    }

    /** A timeout function at work: foreign code, known by what it does to timers. */
    method Call(of: T.Id, actions: seq<T.Action>)
      requires Stands() && T.Calling(State(), of) && T.ActionsOk(timers, actions)
      modifies this`list, this`timeoutTick, this`timers, this`entries
      ensures Stands() && State() == T.Called(old(State()), actions)
    {
      var rest := actions;
      while rest != []
        invariant Stands() && T.Calling(State(), of) && T.ActionsOk(timers, rest)
        invariant T.Called(State(), rest) == T.Called(old(State()), actions)
        decreases |rest|
      {
        TakeAction(of, rest[0], rest[1..]);
        rest := rest[1..];
      }
    }

    method TakeAction(of: T.Id, a: T.Action, ghost more: seq<T.Action>)
      requires Stands() && T.Calling(State(), of) && T.ActionsOk(timers, [a] + more)
      modifies this`list, this`timeoutTick, this`timers, this`entries
      ensures Stands() && T.Calling(State(), of) && T.ActionsOk(timers, more) && State() == T.Acted(old(State()), a)
    {
      ghost var s := State();
      assert T.ActionOk(timers, a) by { assert ([a] + more)[0] == a; }
      assert ([a] + more)[1..] == more;
      if a.StartIt? {
        T.StartedKeeps(s, a.id, of, of);
        var _ := Start(a.id);
      } else {
        T.StoppedKeeps(s, a.id, of, of);
        var _ := Stop(a.id);
      }
      assert T.SameSettings(s.timers, timers) by { T.MarkedKeeps(s.timers, a.id, a.StartIt?); }
      T.ActionsStayOk(s.timers, timers, [a] + more);
    }

    /** One turn of rt_timer_check: the first timer is due. */
    method Fire(calls: T.Id -> seq<T.Action>)
      requires Stands() && T.Checking(State()) && T.CallsOk(timers, calls)
      requires list != [] && entries[0].due <= clock
      modifies this`list, this`timeoutTick, this`timers, this`entries
      ensures Stands() && State() == T.Fired(old(State()), calls)
    {
      ghost var s := State();
      T.PoppedKeeps(s);
      var t := list[0];
      assert Ids(entries)[1..] == Ids(entries[1..]);
      list, entries := list[1..], entries[1..];
      assert State() == T.Popped(s);
      T.CalledKeeps(T.Popped(s), t, calls(t), t);
      T.CalledSelf(T.Popped(s), t, calls(t));
      Call(t, calls(t));
      Finish(t);
    }

    /** What rt_timer_check does behind the timeout function. */
    method Finish(t: T.Id)
      requires Stands() && T.Calling(State(), t) && T.Due(entries, t).None?
      modifies this`list, this`timeoutTick, this`timers, this`entries
      ensures Stands() && State() == T.Finished(old(State()), t)
    {
      if timers[t].periodic && timers[t].activated {
        timers := timers[t := timers[t].(activated := false)];
        var _ := Start(t);
      } else {
        timers := timers[t := timers[t].(activated := false)];
      }
    }

    /** rt_timer_check */
    method Check(calls: T.Id -> seq<T.Action>) returns (ghost fired: seq<T.Id>)
      requires Stands() && T.Checking(State()) && T.CallsOk(timers, calls)
      modifies this`list, this`timeoutTick, this`timers, this`entries
      ensures Valid() && (State(), fired) == T.Check(old(State()), calls)
    {
      ghost var s := State();
      fired := [];
      assert [] + T.Check(s, calls).1 == T.Check(s, calls).1;
      while list != [] && HeadReached()
        invariant Stands() && T.Checking(State()) && T.CallsOk(timers, calls)
        invariant T.Check(s, calls).0 == T.Check(State(), calls).0
        invariant T.Check(s, calls).1 == fired + T.Check(State(), calls).1
        decreases T.Expired(entries, clock)
      {
        HeadIsDue();
        ghost var r := T.Fired(State(), calls);
        T.CheckTurn(State(), calls);
        TurnJoins(fired, entries[0].id, T.Check(r, calls).1);
        fired := fired + [entries[0].id];
        Fire(calls);
      }
      if list != [] {
        HeadIsDue();
      }
      CheckDone(s, calls, State(), fired);
    }

    static lemma TurnJoins(fired: seq<T.Id>, x: T.Id, more: seq<T.Id>)
      ensures fired + ([x] + more) == (fired + [x]) + more
    {
    }

    /** Nothing is due any more. */
    static lemma CheckDone(s: T.State, calls: T.Id -> seq<T.Action>, r: T.State, fired: seq<T.Id>)
      requires T.Checking(s) && T.CallsOk(s.timers, calls) && T.Checking(r) && T.CallsOk(r.timers, calls)
      requires r.list == [] || r.list[0].due > r.clock
      requires T.Check(s, calls).0 == T.Check(r, calls).0 && T.Check(s, calls).1 == fired + T.Check(r, calls).1
      ensures T.Check(s, calls) == (r, fired) && T.Inv(r)
    {
      T.CheckKeeps(r, calls);
      assert fired + [] == fired;
    }

    /** current_tick - t->timeout_tick < RT_TICK_MAX / 2, for the first timer of the list. */
    predicate HeadReached()
      reads this
      requires Stands() && list != []
    {
      assert list[0] == entries[0].id;
      Reached(rtTick, timeoutTick[list[0]])
    }

    lemma HeadIsDue()
      requires Stands() && T.Checking(State()) && list != []
      ensures HeadReached() <==> entries[0].due <= clock
    {
      ReachedIsRight(clock, entries[0].due);
    }

    /** The timers' part of rt_tick_increase. */
    method Tick(calls: T.Id -> seq<T.Action>) returns (ghost fired: seq<T.Id>)
      requires Valid() && T.CallsOk(timers, calls)
      modifies this
      ensures Valid() && (State(), fired) == T.Step(old(State()), T.Tick(calls))
    {
      T.TickChecks(State());
      WrappedSum(clock, 1);
      rtTick, clock := (rtTick + 1) % TICKS, clock + 1;
      fired := Check(calls);
    }
  }
}
