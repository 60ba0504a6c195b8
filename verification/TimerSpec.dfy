/**
 What the hard timers mean (src/timer.c), in ticks counted from boot without end: a list of running timers, the
 next one due first. TimerList has the 32-bit ticks of the source.
 */
module TimerSpec {
  import opened Kernel

  /** RT_TICK_MAX / 2 */
  const HALF := 0x7FFF_FFFF

  type Id = nat

  /** init_tick and the flags of one timer. */
  datatype Timer = Timer(init: nat, periodic: bool, activated: bool)

  datatype Entry = Entry(id: Id, due: nat)

  datatype State = State(clock: nat, list: seq<Entry>, timers: map<Id, Timer>)

  /** What a timeout function does to timers. */
  datatype Action = StartIt(id: Id) | StopIt(id: Id)

  /** Tick is rt_tick_increase; calls gives what the timeout functions do in the check of this tick. */
  datatype Op = Start(id: Id) | Stop(id: Id) | SetTime(id: Id, ticks: nat) | SetPeriodic(id: Id, on: bool)
              | Tick(calls: Id -> seq<Action>)

  // ----- the list -----------------------------------------------------------------------------

  /** In front of the first entry that is not due earlier. */
  function Insert(list: seq<Entry>, e: Entry): (r: seq<Entry>) {
    if list == [] || e.due <= list[0].due then [e] + list else [list[0]] + Insert(list[1..], e)
  }

  function Remove(list: seq<Entry>, id: Id): seq<Entry> {
    if list == [] then [] else if list[0].id == id then list[1..] else [list[0]] + Remove(list[1..], id)
  }

  /** When a running timer is due. */
  function Due(list: seq<Entry>, id: Id): Option<nat> {
    if list == [] then None else if list[0].id == id then Some(list[0].due) else Due(list[1..], id)
  }

  /** No timer is listed twice. */
  ghost predicate Once(list: seq<Entry>) {
    list == [] || (Due(list[1..], list[0].id).None? && Once(list[1..]))
  }

  ghost predicate Sorted(list: seq<Entry>) {
    |list| < 2 || (list[0].due <= list[1].due && Sorted(list[1..]))
  }

  /** Everything is due in [from, to). */
  ghost predicate Within(list: seq<Entry>, from: int, to: int) {
    list == [] || (from <= list[0].due < to && Within(list[1..], from, to))
  }

  /** Entries due now or earlier. */
  function Expired(list: seq<Entry>, clock: nat): nat {
    if list == [] then 0 else (if list[0].due <= clock then 1 else 0) + Expired(list[1..], clock)
  }

  lemma {:induction false} InsertFacts(list: seq<Entry>, e: Entry, id: Id, clock: nat)
    requires Due(list, e.id).None?
    ensures Due(Insert(list, e), id) == if id == e.id then Some(e.due) else Due(list, id)
    ensures Expired(Insert(list, e), clock) == Expired(list, clock) + if e.due <= clock then 1 else 0
  {
    if list == [] || e.due <= list[0].due {
      assert ([e] + list)[1..] == list;
    } else {
      InsertFacts(list[1..], e, id, clock);
    }
  }

  /** Sorted, without repetition, and everything due in [from, to). */
  ghost predicate Lined(list: seq<Entry>, from: int, to: int) {
    Once(list) && Sorted(list) && Within(list, from, to)
  }

  lemma {:induction false} InsertKeeps(list: seq<Entry>, e: Entry, from: int, to: int)
    requires Lined(list, from, to) && Due(list, e.id).None? && from <= e.due < to
    ensures Lined(Insert(list, e), from, to)
  {
    if list == [] || e.due <= list[0].due {
      assert ([e] + list)[1..] == list;
    } else {
      InsertKeeps(list[1..], e, from, to);
      InsertFacts(list[1..], e, list[0].id, 0);
    }
  }

  lemma {:induction false} RemoveFacts(list: seq<Entry>, x: Id, id: Id, clock: nat)
    requires Once(list)
    ensures Due(Remove(list, x), id) == if id == x then None else Due(list, id)
    ensures Expired(Remove(list, x), clock) <= Expired(list, clock)
  {
    if list != [] && list[0].id != x {
      RemoveFacts(list[1..], x, id, clock);
    }
  }

  lemma {:induction false} RemoveKeeps(list: seq<Entry>, x: Id, from: int, to: int)
    requires Lined(list, from, to)
    ensures Lined(Remove(list, x), from, to)
    ensures Remove(list, x) != [] ==> list[0].due <= Remove(list, x)[0].due
  {
    if list != [] && list[0].id != x {
      RemoveKeeps(list[1..], x, from, to);
      RemoveFacts(list[1..], x, list[0].id, 0);
    }
  }

  lemma {:induction false} WithinShift(list: seq<Entry>, from: int, to: int, from': int, to': int)
    requires Within(list, from, to) && from' <= from && to <= to'
    ensures Within(list, from', to')
  {
    if list != [] {
      WithinShift(list[1..], from, to, from', to');
    }
  }

  /** A sorted list whose first entry is due at x or later. */
  lemma {:induction false} SortedWithin(list: seq<Entry>, from: int, to: int, x: int)
    requires Sorted(list) && Within(list, from, to) && (list != [] ==> x <= list[0].due)
    ensures Within(list, x, to)
  {
    if list != [] {
      SortedWithin(list[1..], from, to, x);
    }
  }

  lemma {:induction false} DueWithin(list: seq<Entry>, id: Id, from: int, to: int)
    requires Within(list, from, to) && Due(list, id).Some?
    ensures from <= Due(list, id).value < to
  {
    if list[0].id != id {
      DueWithin(list[1..], id, from, to);
    }
  }

  // ----- operations ---------------------------------------------------------------------------

  /** rt_timer_start; it refuses a timer that is running already. */
  function Started(s: State, id: Id): State {
    if id !in s.timers || s.timers[id].activated then s
    else s.(list := Insert(s.list, Entry(id, s.clock + s.timers[id].init)), timers := Marked(s.timers, id, true))
  }

  /** rt_timer_stop; it refuses a timer that is not running. */
  function Stopped(s: State, id: Id): State {
    if id !in s.timers || !s.timers[id].activated then s
    else s.(list := Remove(s.list, id), timers := Marked(s.timers, id, false))
  }

  /** RT_TIMER_FLAG_ACTIVATED set or cleared. */
  function Marked(timers: map<Id, Timer>, id: Id, on: bool): map<Id, Timer> {
    if id in timers then timers[id := timers[id].(activated := on)] else timers
  }

  /** A timeout function starts no timer that would be due at once. */
  predicate ActionOk(timers: map<Id, Timer>, a: Action) {
    a.id in timers && (a.StartIt? ==> timers[a.id].init > 0)
  }

  predicate ActionsOk(timers: map<Id, Timer>, actions: seq<Action>) {
    forall i :: 0 <= i < |actions| ==> ActionOk(timers, actions[i])
  }

  /** The actions leave timer `of` on the list, if it starts out marked and listed like this. */
  predicate LeavesListed(actions: seq<Action>, of: Id, marked: bool, listed: bool) {
    if actions == [] then listed
    else match actions[0]
      case StartIt(id) => if id == of && !marked then LeavesListed(actions[1..], of, true, true) else LeavesListed(actions[1..], of, marked, listed)
      case StopIt(id) => if id == of && marked then LeavesListed(actions[1..], of, false, false) else LeavesListed(actions[1..], of, marked, listed)
  }

  /** The timeout function of `of` stops its own timer, starts it again, and leaves it at that. */
  predicate Restarts(actions: seq<Action>, of: Id) {
    LeavesListed(actions, of, true, false)
  }

  function Acted(s: State, a: Action): State {
    match a
    case StartIt(id) => Started(s, id)
    case StopIt(id) => Stopped(s, id)
  }

  /** The actions of a timeout function, one after the other. */
  function Called(s: State, actions: seq<Action>): State
    decreases |actions|
  {
    if actions == [] then s else Called(Acted(s, actions[0]), actions[1..])
  }

  /** The first timer is taken off the list, its function called, and started again if it is periodic and was not stopped. */
  function Fired(s: State, calls: Id -> seq<Action>): State
    requires s.list != []
  {
    Finished(Called(Popped(s), calls(s.list[0].id)), s.list[0].id)
  }

  /** Without its first timer. */
  function Popped(s: State): State
    requires s.list != []
  {
    s.(list := s.list[1..])
  }

  /** After the timeout function: the timer is marked as stopped, and started again or not. */
  function Finished(s: State, id: Id): State {
    var off := s.(timers := Marked(s.timers, id, false));
    if id in s.timers && s.timers[id].periodic && s.timers[id].activated then Started(off, id) else off
  }

  // ----- the invariant ------------------------------------------------------------------------

  /** Listed are exactly the timers marked as running; nothing is said of the mark of `of` (if it is one). */
  ghost predicate Agrees(list: seq<Entry>, timers: map<Id, Timer>, of: int) {
    forall id: Id :: (Due(list, id).Some? ==> id in timers)
                     && (id in timers && id != of ==> (timers[id].activated <==> Due(list, id).Some?))
  }

  /** Times below half the tick range, as rt_timer_start asserts, and positive periods. */
  ghost predicate Set(timers: map<Id, Timer>) {
    forall id :: id in timers ==> timers[id].init < HALF && (timers[id].periodic ==> timers[id].init > 0)
  }

  /** Outside a check nothing is overdue, and everything is due within half the range of a tick. */
  ghost predicate Inv(s: State) {
    Lined(s.list, s.clock, s.clock + HALF) && Set(s.timers) && Agrees(s.list, s.timers, -1)
  }

  /** Inside a check, between two timers. Some may be overdue by one tick. */
  ghost predicate Checking(s: State) {
    Lined(s.list, s.clock - 1, s.clock + HALF) && Set(s.timers) && Agrees(s.list, s.timers, -1)
  }

  /** Inside the timeout function of `of`, which is off the list unless the function has started it again. */
  ghost predicate Calling(s: State, of: Id) {
    && Lined(s.list, s.clock - 1, s.clock + HALF) && Set(s.timers) && Agrees(s.list, s.timers, of)
    && of in s.timers && (Due(s.list, of).Some? ==> s.timers[of].activated)
  }

  lemma AgreesInsert(list: seq<Entry>, timers: map<Id, Timer>, e: Entry, of: int, of': int)
    requires Agrees(list, timers, of) && e.id in timers && Due(list, e.id).None? && (of' == of || e.id == of)
    ensures Agrees(Insert(list, e), Marked(timers, e.id, true), of')
  {
    var (r, now) := (Insert(list, e), Marked(timers, e.id, true));
    forall id: Id
      ensures Due(r, id).Some? ==> id in now
      ensures id in now && id != of' ==> (now[id].activated <==> Due(r, id).Some?)
    {
      InsertFacts(list, e, id, 0);
      assert Due(list, id).Some? ==> id in timers;
    }
  }

  lemma AgreesRemove(list: seq<Entry>, timers: map<Id, Timer>, x: Id, of: int)
    requires Agrees(list, timers, of) && x in timers && Once(list)
    ensures Agrees(Remove(list, x), Marked(timers, x, false), of)
  {
    var (r, now) := (Remove(list, x), Marked(timers, x, false));
    forall id: Id
      ensures Due(r, id).Some? ==> id in now
      ensures id in now && id != of ==> (now[id].activated <==> Due(r, id).Some?)
    {
      RemoveFacts(list, x, id, 0);
      assert Due(list, id).Some? ==> id in timers;
    }
  }

  predicate SameSettings(a: map<Id, Timer>, b: map<Id, Timer>) {
    a.Keys == b.Keys && forall id :: id in a ==> a[id].init == b[id].init && a[id].periodic == b[id].periodic
  }

  lemma MarkedKeeps(timers: map<Id, Timer>, id: Id, on: bool)
    requires Set(timers)
    ensures Set(Marked(timers, id, on)) && SameSettings(timers, Marked(timers, id, on))
  {
  }

  lemma StartedKeeps(s: State, id: Id, of: Id, x: Id)
    requires Calling(s, of) && id in s.timers && s.timers[id].init > 0
    ensures Calling(Started(s, id), of) && Expired(Started(s, id).list, s.clock) == Expired(s.list, s.clock)
    ensures Due(s.list, x).Some? || x != id ==> Due(Started(s, id).list, x) == Due(s.list, x)
    ensures Due(Started(s, id).list, of).Some? == (Due(s.list, of).Some? || (id == of && !s.timers[of].activated))
  {
    assert id != of ==> (Due(s.list, id).Some? <==> s.timers[id].activated);
    if !s.timers[id].activated {
      var e := Entry(id, s.clock + s.timers[id].init);
      InsertedKeeps(s, e, of, Started(s, id));
      InsertFacts(s.list, e, x, s.clock);
      InsertFacts(s.list, e, of, s.clock);
    }
  }

  lemma InsertedKeeps(s: State, e: Entry, of: Id, r: State)
    requires Calling(s, of) && e.id in s.timers && Due(s.list, e.id).None? && s.clock <= e.due < s.clock + HALF
    requires r == s.(list := Insert(s.list, e), timers := Marked(s.timers, e.id, true))
    ensures Calling(r, of)
  {
    InsertKeeps(s.list, e, s.clock - 1, s.clock + HALF);
    AgreesInsert(s.list, s.timers, e, of, of);
    MarkedKeeps(s.timers, e.id, true);
    InsertFacts(s.list, e, of, s.clock);
  }

  lemma StoppedKeeps(s: State, id: Id, of: Id, x: Id)
    requires Calling(s, of) && id in s.timers
    ensures Calling(Stopped(s, id), of) && Expired(Stopped(s, id).list, s.clock) <= Expired(s.list, s.clock)
    ensures x != id ==> Due(Stopped(s, id).list, x) == Due(s.list, x)
    ensures Due(Stopped(s, id).list, of).Some? == (Due(s.list, of).Some? && id != of)
  {
    if s.timers[id].activated {
      RemoveKeeps(s.list, id, s.clock - 1, s.clock + HALF);
      AgreesRemove(s.list, s.timers, id, of);
      MarkedKeeps(s.timers, id, false);
      RemoveFacts(s.list, id, x, s.clock);
      RemoveFacts(s.list, id, of, s.clock);
    }
  }

  /** No action of the list stops the timer. */
  predicate Spares(actions: seq<Action>, id: Id) {
    forall i :: 0 <= i < |actions| ==> actions[i] != StopIt(id)
  }

  lemma ActionsStayOk(a: map<Id, Timer>, b: map<Id, Timer>, actions: seq<Action>)
    requires ActionsOk(a, actions) && SameSettings(a, b)
    ensures ActionsOk(b, actions)
    ensures actions != [] ==> ActionsOk(b, actions[1..])
    ensures forall x: Id :: actions != [] && Spares(actions, x) ==> Spares(actions[1..], x) && actions[0] != StopIt(x)
  {
    forall i | 0 <= i < |actions|
      ensures ActionOk(b, actions[i])
    {
      assert ActionOk(a, actions[i]);
    }
  }

  /** A timeout function adds no expired timer, and leaves alone what it does not stop. */
  lemma {:induction false} CalledKeeps(s: State, of: Id, actions: seq<Action>, x: Id)
    requires Calling(s, of) && ActionsOk(s.timers, actions)
    ensures Calling(Called(s, actions), of) && Called(s, actions).clock == s.clock && SameSettings(s.timers, Called(s, actions).timers)
    ensures Expired(Called(s, actions).list, s.clock) <= Expired(s.list, s.clock)
    ensures Spares(actions, x) && Due(s.list, x).Some? ==> Due(Called(s, actions).list, x) == Due(s.list, x)
    decreases |actions|
  {
    if actions != [] {
      var a := actions[0];
      assert ActionOk(s.timers, a);
      if a.StartIt? {
        StartedKeeps(s, a.id, of, x);
      } else {
        StoppedKeeps(s, a.id, of, x);
      }
      var t := Acted(s, a);
      assert SameSettings(s.timers, t.timers) by { MarkedKeeps(s.timers, a.id, a.StartIt?); }
      ActionsStayOk(s.timers, t.timers, actions);
      CalledKeeps(t, of, actions[1..], x);
    }
  }

  lemma AgreesPopped(list: seq<Entry>, timers: map<Id, Timer>)
    requires Agrees(list, timers, -1) && list != [] && Once(list)
    ensures list[0].id in timers && timers[list[0].id].activated && Agrees(list[1..], timers, list[0].id)
  {
    assert Due(list, list[0].id).Some?;
    forall id: Id
      ensures Due(list[1..], id).Some? ==> id in timers
      ensures id in timers && id != list[0].id ==> (timers[id].activated <==> Due(list[1..], id).Some?)
    {
      assert id != list[0].id ==> Due(list, id) == Due(list[1..], id);
    }
  }

  lemma PoppedKeeps(s: State)
    requires Checking(s) && s.list != []
    ensures s.list[0].id in s.timers && s.timers[s.list[0].id].activated && Calling(Popped(s), s.list[0].id)
    ensures Due(Popped(s).list, s.list[0].id).None?
    ensures Expired(Popped(s).list, s.clock) == Expired(s.list, s.clock) - if s.list[0].due <= s.clock then 1 else 0
  {
    AgreesPopped(s.list, s.timers);
  }

  lemma AgreesOff(list: seq<Entry>, timers: map<Id, Timer>, id: Id)
    requires Agrees(list, timers, id) && id in timers && Due(list, id).None?
    ensures Agrees(list, Marked(timers, id, false), -1)
  {
    var off := Marked(timers, id, false);
    forall x: Id
      ensures Due(list, x).Some? ==> x in off
      ensures x in off && x != -1 ==> (off[x].activated <==> Due(list, x).Some?)
    {
      assert Due(list, x).Some? ==> x in timers;
    }
  }

  lemma FinishedKeeps(s: State, id: Id)
    requires Calling(s, id) && Due(s.list, id).None?
    ensures Checking(Finished(s, id)) && Expired(Finished(s, id).list, s.clock) == Expired(s.list, s.clock)
    ensures SameSettings(s.timers, Finished(s, id).timers)
  {
    var t := s.timers[id];
    var off := Marked(s.timers, id, false);
    AgreesOff(s.list, s.timers, id);
    MarkedKeeps(s.timers, id, false);
    if t.periodic && t.activated {
      var e := Entry(id, s.clock + t.init);
      InsertKeeps(s.list, e, s.clock - 1, s.clock + HALF);
      AgreesInsert(s.list, off, e, -1, -1);
      MarkedKeeps(off, id, true);
      InsertFacts(s.list, e, id, s.clock);
    }
  }

  /** How the timer itself fares in its timeout function. */
  lemma {:induction false} CalledSelf(s: State, of: Id, actions: seq<Action>)
    requires Calling(s, of) && ActionsOk(s.timers, actions)
    ensures Due(Called(s, actions).list, of).Some? <==> LeavesListed(actions, of, s.timers[of].activated, Due(s.list, of).Some?)
    decreases |actions|
  {
    if actions != [] {
      var a := actions[0];
      assert ActionOk(s.timers, a);
      if a.StartIt? {
        StartedKeeps(s, a.id, of, of);
      } else {
        StoppedKeeps(s, a.id, of, of);
      }
      assert SameSettings(s.timers, Acted(s, a).timers) by { MarkedKeeps(s.timers, a.id, a.StartIt?); }
      ActionsStayOk(s.timers, Acted(s, a).timers, actions);
      CalledSelf(Acted(s, a), of, actions[1..]);
    }
  }

  lemma {:induction false} RepeatedIsNotOnce(list: seq<Entry>, e: Entry)
    requires Due(list, e.id).Some?
    ensures !Once(Insert(list, e))
  {
    if list == [] || e.due <= list[0].due {
      assert ([e] + list)[1..] == list;
    } else if list[0].id == e.id {
      StillDue(list[1..], e);
    } else {
      RepeatedIsNotOnce(list[1..], e);
    }
  }

  lemma {:induction false} StillDue(list: seq<Entry>, e: Entry)
    ensures Due(Insert(list, e), e.id).Some?
  {
    if list != [] && e.due > list[0].due {
      StillDue(list[1..], e);
    }
  }

  /** A timer that is listed when its function returns ends up listed but marked as stopped, or listed twice. */
  lemma FinishedBreaks(s: State, id: Id)
    requires Calling(s, id) && Due(s.list, id).Some?
    ensures !Checking(Finished(s, id))
  {
    var off := s.(timers := Marked(s.timers, id, false));
    if s.timers[id].periodic {
      RepeatedIsNotOnce(s.list, Entry(id, s.clock + s.timers[id].init));
    } else {
      assert !Agrees(off.list, off.timers, -1) by { assert Due(off.list, id).Some? && !off.timers[id].activated; }
    }
  }

  /** Firing a timer keeps list and marks in step exactly when its function does not restart it. */
  lemma FiredKeepsExactly(s: State, calls: Id -> seq<Action>)
    requires Checking(s) && s.list != [] && s.list[0].due <= s.clock
    requires s.list[0].id in s.timers && ActionsOk(s.timers, calls(s.list[0].id))
    ensures Checking(Fired(s, calls)) <==> !Restarts(calls(s.list[0].id), s.list[0].id)
  {
    var id := s.list[0].id;
    PoppedKeeps(s);
    CalledKeeps(Popped(s), id, calls(id), id);
    CalledSelf(Popped(s), id, calls(id));
    if Restarts(calls(id), id) {
      FinishedBreaks(Called(Popped(s), calls(id)), id);
    } else {
      FinishedKeeps(Called(Popped(s), calls(id)), id);
    }
  }

  lemma FiredKeeps(s: State, calls: Id -> seq<Action>)
    requires Checking(s) && s.list != [] && s.list[0].due <= s.clock
    requires s.list[0].id in s.timers && ActionsOk(s.timers, calls(s.list[0].id)) && !Restarts(calls(s.list[0].id), s.list[0].id)
    ensures Checking(Fired(s, calls)) && Fired(s, calls).clock == s.clock
    ensures Expired(Fired(s, calls).list, s.clock) < Expired(s.list, s.clock)
    ensures SameSettings(s.timers, Fired(s, calls).timers)
  {
    var id := s.list[0].id;
    PoppedKeeps(s);
    CalledKeeps(Popped(s), id, calls(id), id);
    CalledSelf(Popped(s), id, calls(id));
    FinishedKeeps(Called(Popped(s), calls(id)), id);
  }

  /**
   A timer of one tick, started at clock T: when the check of T + 1 calls a function that stops and starts it again,
   it ends up listed twice if it is periodic, and listed but marked as stopped if it is not.
   */
  lemma RestartBreaks(clock: nat, periodic: bool, calls: Id -> seq<Action>)
    requires calls(0) == [StopIt(0), StartIt(0)]
    ensures var idle := State(clock, [], map[0 := Timer(1, periodic, false)]);
            var due := Started(idle, 0).(clock := clock + 1);
            Inv(idle) && Inv(Started(idle, 0)) && Checking(due) && due.list == [Entry(0, clock + 1)] &&
            Restarts(calls(0), 0) && !Checking(Fired(due, calls)) &&
            Fired(due, calls).list == if periodic then [Entry(0, clock + 2), Entry(0, clock + 2)] else [Entry(0, clock + 2)]
  {
    var idle := State(clock, [], map[0 := Timer(1, periodic, false)]);
    var begun := Started(idle, 0);
    var due := begun.(clock := clock + 1);
    assert Lined([], clock, clock + HALF);
    StartKeepsInv(idle, 0, 0);
    TickChecks(begun);
    RestartActs(calls(0));
    assert ActionsOk(due.timers, calls(0));
    FiredKeepsExactly(due, calls);
    var off := due.(list := [], timers := map[0 := Timer(1, periodic, false)]);
    assert Stopped(Popped(due), 0) == off && due.list[1..] == [];
    var on := off.(list := [Entry(0, clock + 2)], timers := map[0 := Timer(1, periodic, true)]);
    assert Started(off, 0) == on;
    CalledTwice(Popped(due), off, on, calls(0));
  }

  lemma RestartActs(actions: seq<Action>)
    requires actions == [StopIt(0), StartIt(0)]
    ensures Restarts(actions, 0)
  {
    assert actions[1..] == [StartIt(0)] && [StartIt(0)][1..] == [];
    assert LeavesListed([StartIt(0)], 0, false, false);
  }

  lemma CalledTwice(s: State, off: State, on: State, actions: seq<Action>)
    requires actions == [StopIt(0), StartIt(0)] && Stopped(s, 0) == off && Started(off, 0) == on
    ensures Called(s, actions) == on
  {
    assert actions[1..] == [StartIt(0)] && [StartIt(0)][1..] == [];
    assert Called(off, [StartIt(0)]) == Called(on, []);
  }

  // ----- rt_timer_check -----------------------------------------------------------------------

  predicate CallsOk(timers: map<Id, Timer>, calls: Id -> seq<Action>) {
    forall id :: id in timers ==> ActionsOk(timers, calls(id)) && !Restarts(calls(id), id)
  }

  lemma CallsStayOk(a: map<Id, Timer>, b: map<Id, Timer>, calls: Id -> seq<Action>)
    requires CallsOk(a, calls) && SameSettings(a, b)
    ensures CallsOk(b, calls)
  {
    forall id | id in b
      ensures ActionsOk(b, calls(id)) && !Restarts(calls(id), id)
    {
      ActionsStayOk(a, b, calls(id));
    }
  }

  /** The loop ends: every turn leaves fewer expired timers. Also the timers fired, in order. */
  ghost function Check(s: State, calls: Id -> seq<Action>): (State, seq<Id>)
    requires Checking(s) && CallsOk(s.timers, calls)
    decreases Expired(s.list, s.clock)
  {
    if s.list == [] || s.list[0].due > s.clock then (s, [])
    else
      var id := s.list[0].id;
      PoppedKeeps(s);
      FiredKeeps(s, calls);
      CallsStayOk(s.timers, Fired(s, calls).timers, calls);
      (Check(Fired(s, calls), calls).0, [id] + Check(Fired(s, calls), calls).1)
  }

  /** One turn of the loop. */
  lemma CheckTurn(s: State, calls: Id -> seq<Action>)
    requires Checking(s) && CallsOk(s.timers, calls) && s.list != [] && s.list[0].due <= s.clock
    ensures s.list[0].id in s.timers
    ensures var r := Fired(s, calls);
            && Checking(r) && CallsOk(r.timers, calls) && r.clock == s.clock && SameSettings(s.timers, r.timers)
            && Expired(r.list, s.clock) < Expired(s.list, s.clock)
            && Check(s, calls) == (Check(r, calls).0, [s.list[0].id] + Check(r, calls).1)
  {
    PoppedKeeps(s);
    FiredKeeps(s, calls);
    CallsStayOk(s.timers, Fired(s, calls).timers, calls);
  }

  lemma NothingOverdue(s: State)
    requires Checking(s) && Within(s.list, s.clock + 1, s.clock + HALF)
    ensures Inv(s)
  {
    WithinShift(s.list, s.clock + 1, s.clock + HALF, s.clock, s.clock + HALF);
  }

  /** r is sound, nothing in it is overdue, and neither clock nor settings are other than in s. */
  ghost predicate Rests(s: State, r: State) {
    Inv(r) && Within(r.list, s.clock + 1, s.clock + HALF) && r.clock == s.clock && SameSettings(s.timers, r.timers)
  }

  /** The check ends with nothing overdue. */
  lemma {:induction false} CheckKeeps(s: State, calls: Id -> seq<Action>)
    requires Checking(s) && CallsOk(s.timers, calls)
    ensures Rests(s, Check(s, calls).0)
    decreases Expired(s.list, s.clock)
  {
    if s.list == [] || s.list[0].due > s.clock {
      CheckRests(s, calls);
    } else {
      var next := Fired(s, calls);
      CheckTurn(s, calls);
      CheckKeeps(next, calls);
      RestsOn(s, next, Check(next, calls).0);
    }
  }

  lemma RestsOn(s: State, next: State, r: State)
    requires Rests(next, r) && SameSettings(s.timers, next.timers) && s.clock == next.clock
    ensures Rests(s, r)
  {
  }

  lemma CheckRests(s: State, calls: Id -> seq<Action>)
    requires Checking(s) && CallsOk(s.timers, calls) && (s.list == [] || s.list[0].due > s.clock)
    ensures Check(s, calls) == (s, []) && Inv(s) && Within(s.list, s.clock + 1, s.clock + HALF)
  {
    SortedWithin(s.list, s.clock - 1, s.clock + HALF, s.clock + 1);
    NothingOverdue(s);
  }

  /**
   Why periods have to be positive: a turn of the loop for a timer that is due now, and whose function does
   nothing, leaves everything as it was, so that the loop goes on for ever, exactly when its period is 0.
   */
  lemma QuietTurnStands(s: State, calls: Id -> seq<Action>)
    requires Lined(s.list, s.clock - 1, s.clock + HALF) && Agrees(s.list, s.timers, -1)
    requires s.list != [] && s.list[0].due == s.clock && calls(s.list[0].id) == []
    ensures s.list[0].id in s.timers
    ensures Fired(s, calls) == s <==> s.timers[s.list[0].id].periodic && s.timers[s.list[0].id].init == 0
  {
    var (id, rest) := (s.list[0].id, s.list[1..]);
    AgreesPopped(s.list, s.timers);
    var t := s.timers[id];
    var e := Entry(id, s.clock + t.init);
    if t.periodic {
      InsertFacts(rest, e, id, 0);
      assert Marked(Marked(s.timers, id, false), id, true) == s.timers;
      assert t.init == 0 ==> Insert(rest, e) == s.list;
    }
  }

  // ----- steps --------------------------------------------------------------------------------

  ghost predicate Enabled(s: State, op: Op) {
    match op
    case Start(id) => id in s.timers
    case Stop(id) => id in s.timers
    case SetTime(id, ticks) => id in s.timers && ticks < HALF && (s.timers[id].periodic ==> ticks > 0)
    case SetPeriodic(id, on) => id in s.timers && (on ==> s.timers[id].init > 0)
    case Tick(calls) => CallsOk(s.timers, calls)
  }

  lemma TickChecks(s: State)
    requires Inv(s)
    ensures Checking(s.(clock := s.clock + 1))
  {
    WithinShift(s.list, s.clock, s.clock + HALF, s.clock, s.clock + 1 + HALF);
  }

  /** The state after a step, and the timers it has fired. */
  ghost function Step(s: State, op: Op): (State, seq<Id>)
    requires Inv(s) && Enabled(s, op)
  {
    match op
    case Start(id) => (Started(s, id), [])
    case Stop(id) => (Stopped(s, id), [])
    case SetTime(id, ticks) => (s.(timers := s.timers[id := s.timers[id].(init := ticks)]), [])
    case SetPeriodic(id, on) => (s.(timers := s.timers[id := s.timers[id].(periodic := on)]), [])
    case Tick(calls) =>
      TickChecks(s);
      Check(s.(clock := s.clock + 1), calls)
  }

  lemma StartKeepsInv(s: State, id: Id, x: Id)
    requires Inv(s) && id in s.timers
    ensures Inv(Started(s, id))
    ensures Due(Started(s, id).list, x) == if x == id && !s.timers[id].activated then Some(s.clock + s.timers[id].init) else Due(s.list, x)
  {
    assert Due(s.list, id).Some? <==> s.timers[id].activated;
    if !s.timers[id].activated {
      var e := Entry(id, s.clock + s.timers[id].init);
      InsertKeeps(s.list, e, s.clock, s.clock + HALF);
      AgreesInsert(s.list, s.timers, e, -1, -1);
      MarkedKeeps(s.timers, id, true);
      InsertFacts(s.list, e, x, 0);
    }
  }

  lemma StopKeepsInv(s: State, id: Id, x: Id)
    requires Inv(s) && id in s.timers
    ensures Inv(Stopped(s, id))
    ensures Due(Stopped(s, id).list, x) == if x == id then None else Due(s.list, x)
  {
    assert Due(s.list, id).Some? <==> s.timers[id].activated;
    if s.timers[id].activated {
      RemoveKeeps(s.list, id, s.clock, s.clock + HALF);
      AgreesRemove(s.list, s.timers, id, -1);
      MarkedKeeps(s.timers, id, false);
      RemoveFacts(s.list, id, x, 0);
    }
  }

  lemma SettingKeepsInv(s: State, id: Id, t: Timer)
    requires Inv(s) && id in s.timers && t.activated == s.timers[id].activated && t.init < HALF && (t.periodic ==> t.init > 0)
    ensures Inv(s.(timers := s.timers[id := t]))
  {
    assert Agrees(s.list, s.timers[id := t], -1) by {
      forall x: Id
        ensures Due(s.list, x).Some? ==> x in s.timers[id := t]
        ensures x in s.timers[id := t] ==> (s.timers[id := t][x].activated <==> Due(s.list, x).Some?)
      {
        assert Due(s.list, x).Some? ==> x in s.timers;
      }
    }
  }

  lemma TickKeepsInv(s: State, calls: Id -> seq<Action>, t: State, r: State)
    requires Inv(s) && CallsOk(s.timers, calls) && t == s.(clock := s.clock + 1)
    requires Checking(t) && r == Check(t, calls).0
    ensures Inv(r) && r.clock == s.clock + 1 && Within(r.list, r.clock + 1, r.clock + HALF)
  {
    CheckKeeps(t, calls);
  }

  /** Every step keeps the list sorted, duplicate free, in step with the flags, and within half the tick range. */
  lemma StepKeepsInv(s: State, op: Op)
    requires Inv(s) && Enabled(s, op)
    ensures Inv(Step(s, op).0) && Step(s, op).0.clock == s.clock + if op.Tick? then 1 else 0
  {
    match op
    case Start(id) => StartKeepsInv(s, id, id);
    case Stop(id) => StopKeepsInv(s, id, id);
    case SetTime(id, ticks) => SettingKeepsInv(s, id, s.timers[id].(init := ticks));
    case SetPeriodic(id, on) => SettingKeepsInv(s, id, s.timers[id].(periodic := on));
    case Tick(calls) =>
      var t := s.(clock := s.clock + 1);
      TickIsCheck(s, calls);
      TickKeepsInv(s, calls, t, Check(t, calls).0);
  }

  // ----- a timer fires when it is due ---------------------------------------------------------

  /** Nothing in the step stops the timer. */
  ghost predicate SparesIt(op: Op, id: Id) {
    match op
    case Stop(x) => x != id
    case Tick(calls) => forall x :: Spares(calls(x), id)
    case _ => true
  }

  function Times(fired: seq<Id>, id: Id): nat {
    if fired == [] then 0 else (if fired[0] == id then 1 else 0) + Times(fired[1..], id)
  }

  lemma TimesCons(x: Id, fired: seq<Id>, id: Id)
    ensures Times([x] + fired, id) == (if x == id then 1 else 0) + Times(fired, id)
  {
    assert ([x] + fired)[1..] == fired;
  }

  /** What a firing does to another timer that is not stopped: nothing. And to its own: it is due later, or stopped. */
  lemma FiredDue(s: State, calls: Id -> seq<Action>, id: Id)
    requires Checking(s) && s.list != [] && s.list[0].due <= s.clock
    requires s.list[0].id in s.timers && ActionsOk(s.timers, calls(s.list[0].id)) && !Restarts(calls(s.list[0].id), s.list[0].id)
    requires Due(s.list, id).Some? && Spares(calls(s.list[0].id), id) && id in s.timers
    ensures s.list[0].id != id ==> Due(Fired(s, calls).list, id) == Due(s.list, id)
    ensures s.list[0].id == id ==>
              Due(Fired(s, calls).list, id) == if s.timers[id].periodic then Some(s.clock + s.timers[id].init) else None
  {
    var x := s.list[0].id;
    var r := Called(Popped(s), calls(x));
    PoppedKeeps(s);
    CalledKeeps(Popped(s), x, calls(x), id);
    CalledSelf(Popped(s), x, calls(x));
    if x == id { StaysActivated(Popped(s), id, calls(id)); }
    FinishedDue(r, x, id);
  }

  lemma FinishedDue(s: State, x: Id, id: Id)
    requires Calling(s, x) && Due(s.list, x).None?
    ensures id != x ==> Due(Finished(s, x).list, id) == Due(s.list, id)
    ensures Due(Finished(s, x).list, x) == if s.timers[x].periodic && s.timers[x].activated then Some(s.clock + s.timers[x].init) else None
  {
    if s.timers[x].periodic && s.timers[x].activated {
      InsertFacts(s.list, Entry(x, s.clock + s.timers[x].init), id, 0);
      InsertFacts(s.list, Entry(x, s.clock + s.timers[x].init), x, 0);
    }
  }

  /** A timer that its own function does not stop is still marked as running behind it. */
  lemma {:induction false} StaysActivated(s: State, of: Id, actions: seq<Action>)
    requires Calling(s, of) && ActionsOk(s.timers, actions) && Spares(actions, of) && s.timers[of].activated
    ensures of in Called(s, actions).timers && Called(s, actions).timers[of].activated
    decreases |actions|
  {
    if actions != [] {
      var a := actions[0];
      assert ActionOk(s.timers, a) && a != StopIt(of);
      if a.StartIt? {
        StartedKeeps(s, a.id, of, of);
      } else {
        StoppedKeeps(s, a.id, of, of);
      }
      assert SameSettings(s.timers, Acted(s, a).timers) by { MarkedKeeps(s.timers, a.id, a.StartIt?); }
      ActionsStayOk(s.timers, Acted(s, a).timers, actions);
      StaysActivated(Acted(s, a), of, actions[1..]);
    }
  }

  /** A timer that is not due is not touched by a check. */
  lemma {:induction false} CheckSpares(s: State, calls: Id -> seq<Action>, id: Id)
    requires Checking(s) && CallsOk(s.timers, calls) && forall x :: Spares(calls(x), id)
    requires Due(s.list, id).Some? && Due(s.list, id).value > s.clock
    ensures Due(Check(s, calls).0.list, id) == Due(s.list, id) && Times(Check(s, calls).1, id) == 0
    decreases Expired(s.list, s.clock)
  {
    if s.list != [] && s.list[0].due <= s.clock {
      CheckTurn(s, calls);
      FiredDue(s, calls, id);
      CheckSpares(Fired(s, calls), calls, id);
      TimesCons(s.list[0].id, Check(Fired(s, calls), calls).1, id);
    }
  }

  /** A timer that is due fires once. */
  lemma {:induction false} CheckFires(s: State, calls: Id -> seq<Action>, id: Id, next: nat)
    requires Checking(s) && CallsOk(s.timers, calls) && forall x :: Spares(calls(x), id)
    requires Due(s.list, id).Some? && Due(s.list, id).value <= s.clock && id in s.timers
    requires next == s.clock + s.timers[id].init
    ensures Times(Check(s, calls).1, id) >= 1
    ensures s.timers[id].periodic ==> Times(Check(s, calls).1, id) == 1 && Due(Check(s, calls).0.list, id) == Some(next)
    decreases Expired(s.list, s.clock)
  {
    SortedHead(s.list, id);
    if s.list[0].id == id {
      FiresFirst(s, calls, id);
    } else {
      var r := Fired(s, calls);
      CheckTurn(s, calls);
      assert Due(r.list, id) == Due(s.list, id) by { FiredDue(s, calls, id); }
      CheckFires(r, calls, id, next);
      TimesCons(s.list[0].id, Check(r, calls).1, id);
    }
  }

  lemma FiresFirst(s: State, calls: Id -> seq<Action>, id: Id)
    requires Checking(s) && CallsOk(s.timers, calls) && forall x :: Spares(calls(x), id)
    requires s.list != [] && s.list[0].id == id && s.list[0].due <= s.clock && id in s.timers
    ensures Times(Check(s, calls).1, id) >= 1
    ensures s.timers[id].periodic ==> Times(Check(s, calls).1, id) == 1 && Due(Check(s, calls).0.list, id) == Some(s.clock + s.timers[id].init)
  {
    CheckTurn(s, calls);
    TimesCons(id, Check(Fired(s, calls), calls).1, id);
    DueListed(s, id);
    FiredDue(s, calls, id);
    if s.timers[id].periodic {
      CheckSpares(Fired(s, calls), calls, id);
    }
  }

  lemma DueListed(s: State, id: Id)
    requires Checking(s) && Due(s.list, id).Some?
    ensures id in s.timers && s.timers[id].activated && s.timers[id].init < HALF && (s.timers[id].periodic ==> s.timers[id].init > 0)
  {
  }

  lemma {:induction false} SortedHead(list: seq<Entry>, id: Id)
    requires Sorted(list) && Due(list, id).Some?
    ensures list[0].due <= Due(list, id).value
  {
    if list[0].id != id {
      SortedHead(list[1..], id);
    }
  }

  // ----- whole runs ---------------------------------------------------------------------------

  /** What has fired, and when. */
  datatype Event = Event(id: Id, time: nat)

  function Stamped(fired: seq<Id>, time: nat): seq<Event> {
    if fired == [] then [] else [Event(fired[0], time)] + Stamped(fired[1..], time)
  }

  lemma {:induction false} StampedTimes(fired: seq<Id>, time: nat, e: Event)
    ensures e in Stamped(fired, time) <==> e.time == time && Times(fired, e.id) > 0
  {
    if fired != [] {
      StampedTimes(fired[1..], time, e);
    }
  }

  ghost predicate Leads(s: State, ops: seq<Op>, r: State)
    decreases |ops|
  {
    if ops == [] then s == r else Inv(s) && Enabled(s, ops[0]) && Leads(Step(s, ops[0]).0, ops[1..], r)
  }

  /** Everything that fires in the course of a run. */
  ghost function Log(s: State, ops: seq<Op>): seq<Event>
    decreases |ops|
  {
    if ops == [] || !Inv(s) || !Enabled(s, ops[0]) then []
    else Stamped(Step(s, ops[0]).1, Step(s, ops[0]).0.clock) + Log(Step(s, ops[0]).0, ops[1..])
  }

  ghost predicate NeverStopped(ops: seq<Op>, id: Id) {
    forall i :: 0 <= i < |ops| ==> SparesIt(ops[i], id)
  }

  /** The events of the first step, or of the later ones. */
  lemma LogHead(s: State, ops: seq<Op>, e: Event)
    requires ops != [] && Inv(s) && Enabled(s, ops[0])
    ensures e in Log(s, ops) <==> (e.time == Step(s, ops[0]).0.clock && Times(Step(s, ops[0]).1, e.id) > 0) || e in Log(Step(s, ops[0]).0, ops[1..])
  {
    StampedTimes(Step(s, ops[0]).1, Step(s, ops[0]).0.clock, e);
  }

  lemma {:induction false} LogIsLater(s: State, ops: seq<Op>, r: State, e: Event)
    requires Inv(s) && Leads(s, ops, r)
    ensures Inv(r) && r.clock >= s.clock && (e in Log(s, ops) ==> s.clock < e.time <= r.clock)
    decreases |ops|
  {
    if ops != [] {
      StepKeepsInv(s, ops[0]);
      LogHead(s, ops, e);
      LogIsLater(Step(s, ops[0]).0, ops[1..], r, e);
    }
  }

  /** What one step does to a timer that is due later, and that nothing in it stops. */
  lemma StepSpares(s: State, op: Op, id: Id)
    requires Inv(s) && Enabled(s, op) && SparesIt(op, id) && Due(s.list, id).Some?
    requires op.Tick? ==> Due(s.list, id).value > s.clock + 1
    ensures Due(Step(s, op).0.list, id) == Due(s.list, id) && Times(Step(s, op).1, id) == 0
  {
    match op
    case Start(x) => StartKeepsInv(s, x, id);
    case Stop(x) => StopKeepsInv(s, x, id);
    case SetTime(x, ticks) =>
    case SetPeriodic(x, on) =>
    case Tick(calls) =>
      TickChecks(s);
      CheckSpares(s.(clock := s.clock + 1), calls, id);
  }

  lemma TickIsCheck(s: State, calls: Id -> seq<Action>)
    requires Inv(s) && CallsOk(s.timers, calls)
    ensures var t := s.(clock := s.clock + 1); Checking(t) && Step(s, Tick(calls)) == Check(t, calls)
  {
    TickChecks(s);
  }

  lemma TickFires(s: State, calls: Id -> seq<Action>, id: Id, period: nat, r: State, fired: seq<Id>)
    requires Inv(s) && CallsOk(s.timers, calls) && SparesIt(Tick(calls), id) && Due(s.list, id).Some?
    requires Due(s.list, id).value <= s.clock + 1 && id in s.timers && period == s.timers[id].init
    requires (r, fired) == Step(s, Tick(calls))
    ensures Times(fired, id) >= 1
    ensures s.timers[id].periodic ==> Times(fired, id) == 1 && Due(r.list, id) == Some(s.clock + 1 + period)
  {
    var t := s.(clock := s.clock + 1);
    TickIsCheck(s, calls);
    CheckFiresDue(t, calls, id, t.clock + period, r, fired);
  }

  lemma CheckFiresDue(t: State, calls: Id -> seq<Action>, id: Id, next: nat, r: State, fired: seq<Id>)
    requires Checking(t) && CallsOk(t.timers, calls) && (r, fired) == Check(t, calls) && forall x :: Spares(calls(x), id)
    requires Due(t.list, id).Some? && Due(t.list, id).value <= t.clock && id in t.timers && next == t.clock + t.timers[id].init
    ensures Times(fired, id) >= 1
    ensures t.timers[id].periodic ==> Times(fired, id) == 1 && Due(r.list, id) == Some(next)
  {
    CheckFires(t, calls, id, next);
  }

  lemma DueIsKnown(s: State, id: Id)
    requires Inv(s) && Due(s.list, id).Some?
    ensures id in s.timers && s.timers[id].activated && s.clock <= Due(s.list, id).value < s.clock + HALF
  {
    DueWithin(s.list, id, s.clock, s.clock + HALF);
  }

  /** A running timer that nobody stops fires in the check of the tick it is due, or the next tick if that is now; not before. */
  lemma {:induction false} FiresWhenDue(s: State, ops: seq<Op>, r: State, id: Id, due: nat, e: Event)
    requires Inv(s) && Leads(s, ops, r) && NeverStopped(ops, id) && Due(s.list, id) == Some(due)
    ensures e in Log(s, ops) && e.id == id ==> e.time >= due
    ensures var time := if due > s.clock then due else s.clock + 1;
            r.clock >= time ==> Event(id, time) in Log(s, ops)
    decreases |ops|
  {
    DueIsKnown(s, id);
    if ops != [] {
      var op := ops[0];
      assert SparesIt(op, id);
      assert NeverStopped(ops[1..], id) by { assert forall i :: 0 <= i < |ops| - 1 ==> ops[1..][i] == ops[i + 1]; }
      StepKeepsInv(s, op);
      LogHead(s, ops, e);
      if op.Tick? && due <= s.clock + 1 {
        TickFires(s, op.calls, id, s.timers[id].init, Step(s, op).0, Step(s, op).1);
        LogHead(s, ops, Event(id, s.clock + 1));
        LogIsLater(Step(s, op).0, ops[1..], r, e);
      } else {
        StepSpares(s, op, id);
        FiresWhenDue(Step(s, op).0, ops[1..], r, id, due, e);
        LogHead(s, ops, Event(id, if due > s.clock then due else s.clock + 1));
      }
    }
  }

  /**
   rt_timer_start at clock T for k ticks: unless the timer is stopped it fires in the check at T + k (at T + 1 if
   k is 0), and in no earlier one, whatever else is started, stopped or fires meanwhile.
   */
  lemma StartedFires(s: State, id: Id, begun: State, ops: seq<Op>, r: State, e: Event)
    requires Inv(s) && id in s.timers && !s.timers[id].activated && begun == Started(s, id)
    requires Leads(begun, ops, r) && NeverStopped(ops, id)
    ensures var k := if s.timers[id].init == 0 then 1 else s.timers[id].init;
            && (e in Log(begun, ops) && e.id == id ==> e.time >= s.clock + k)
            && (r.clock >= s.clock + k ==> Event(id, s.clock + k) in Log(begun, ops))
  {
    StartKeepsInv(s, id, id);
    var due := s.clock + s.timers[id].init;
    FiresAt(begun, id, due, if due > s.clock then due else s.clock + 1, ops, r, e);
  }

  lemma FiresAt(s: State, id: Id, due: nat, time: nat, ops: seq<Op>, r: State, e: Event)
    requires Inv(s) && Due(s.list, id) == Some(due) && Leads(s, ops, r) && NeverStopped(ops, id)
    requires time == if due > s.clock then due else s.clock + 1
    ensures e in Log(s, ops) && e.id == id ==> e.time >= time
    ensures r.clock >= time ==> Event(id, time) in Log(s, ops)
  {
    FiresNext(s, id, due, ops, r, e);
  }

  /** The next firing of a running timer: when it is due, but not at once. */
  lemma FiresNext(s: State, id: Id, due: nat, ops: seq<Op>, r: State, e: Event)
    requires Inv(s) && Due(s.list, id) == Some(due) && Leads(s, ops, r) && NeverStopped(ops, id)
    ensures var time := if due > s.clock then due else s.clock + 1;
            && (e in Log(s, ops) && e.id == id ==> e.time >= time)
            && (r.clock >= time ==> Event(id, time) in Log(s, ops))
  {
    FiresWhenDue(s, ops, r, id, due, e);
    LogIsLater(s, ops, r, e);
  }

  // ----- a periodic timer keeps its beat ------------------------------------------------------

  /** t is due, or one or more periods after it. */
  ghost predicate OnBeat(t: nat, due: nat, period: nat)
    decreases if due <= t then t - due + 1 else 0
  {
    t >= due && (t == due || (period > 0 && OnBeat(t, due + period, period)))
  }

  /** The step neither stops the timer nor changes its settings. */
  ghost predicate LeavesIt(op: Op, id: Id) {
    match op
    case SetTime(x, _) => x != id
    case SetPeriodic(x, _) => x != id
    case _ => SparesIt(op, id)
  }

  ghost predicate NeverTouched(ops: seq<Op>, id: Id) {
    forall i :: 0 <= i < |ops| ==> LeavesIt(ops[i], id)
  }

  lemma {:induction false} BeatIsLater(t: nat, due: nat, period: nat)
    ensures OnBeat(t, due, period) ==> t >= due
  {
  }

  lemma StepKeepsSettings(s: State, op: Op, id: Id)
    requires Inv(s) && Enabled(s, op) && LeavesIt(op, id) && id in s.timers
    ensures var r := Step(s, op).0; id in r.timers && r.timers[id].init == s.timers[id].init && r.timers[id].periodic == s.timers[id].periodic
  {
    match op
    case Start(x) =>
    case Stop(x) =>
    case SetTime(x, ticks) =>
    case SetPeriodic(x, on) =>
    case Tick(calls) =>
      TickChecks(s);
      CheckKeeps(s.(clock := s.clock + 1), calls);
  }

  /** A periodic timer that is left alone fires at exactly the ticks due, due + period, due + 2 * period and so on. */
  lemma {:induction false} FiresOnBeat(s: State, ops: seq<Op>, r: State, id: Id, due: nat, period: nat, t: nat)
    requires Inv(s) && Leads(s, ops, r) && NeverTouched(ops, id) && Due(s.list, id) == Some(due) && s.clock < due
    requires id in s.timers && s.timers[id].periodic && s.timers[id].init == period
    ensures Event(id, t) in Log(s, ops) <==> t <= r.clock && OnBeat(t, due, period)
    decreases |ops|
  {
    if ops == [] {
      BeatIsLater(t, due, period);
    } else {
      var (op, next) := (ops[0], Step(s, ops[0]).0);
      assert LeavesIt(op, id);
      assert NeverTouched(ops[1..], id) by { assert forall i :: 0 <= i < |ops| - 1 ==> ops[1..][i] == ops[i + 1]; }
      StepKeepsInv(s, op);
      StepKeepsSettings(s, op, id);
      var later := if op.Tick? && due <= s.clock + 1 then due + period else due;
      StepOnBeat(s, op, id, due, period, t);
      FiresOnBeat(next, ops[1..], r, id, later, period, t);
      assert next.clock <= r.clock by { LogIsLater(next, ops[1..], r, Event(id, t)); }
      LogHead(s, ops, Event(id, t));
    }
  }

  /** One step of it. */
  lemma StepOnBeat(s: State, op: Op, id: Id, due: nat, period: nat, t: nat)
    requires Inv(s) && Enabled(s, op) && LeavesIt(op, id) && Due(s.list, id) == Some(due) && s.clock < due
    requires id in s.timers && s.timers[id].periodic && s.timers[id].init == period
    ensures var (next, fires) := (Step(s, op), op.Tick? && due <= s.clock + 1);
            var later := if fires then due + period else due;
            && Due(next.0.list, id) == Some(later) && next.0.clock < later
            && (Times(next.1, id) > 0 <==> fires)
            && (OnBeat(t, due, period) <==> (fires && t == next.0.clock) || OnBeat(t, later, period))
  {
    DueIsKnown(s, id);
    StepKeepsInv(s, op);
    if op.Tick? && due <= s.clock + 1 {
      TickFires(s, op.calls, id, period, Step(s, op).0, Step(s, op).1);
      BeatIsLater(t, due + period, period);
    } else {
      StepSpares(s, op, id);
    }
  }

  // ----- a timer that is not running ----------------------------------------------------------

  /** Nothing in the step starts the timer. */
  ghost predicate StartsIt(op: Op, id: Id) {
    match op
    case Start(x) => x == id
    case Tick(calls) => exists x :: !SparesStart(calls(x), id)
    case _ => false
  }

  predicate SparesStart(actions: seq<Action>, id: Id) {
    forall i :: 0 <= i < |actions| ==> actions[i] != StartIt(id)
  }

  ghost predicate NeverStarted(ops: seq<Op>, id: Id) {
    forall i :: 0 <= i < |ops| ==> !StartsIt(ops[i], id)
  }

  lemma {:induction false} CalledStaysOff(s: State, of: Id, actions: seq<Action>, id: Id)
    requires Calling(s, of) && ActionsOk(s.timers, actions) && SparesStart(actions, id) && Due(s.list, id).None?
    ensures Due(Called(s, actions).list, id).None?
    decreases |actions|
  {
    if actions != [] {
      var a := actions[0];
      assert ActionOk(s.timers, a) && a != StartIt(id);
      if a.StartIt? {
        StartedKeeps(s, a.id, of, id);
      } else {
        StoppedKeeps(s, a.id, of, id);
        if a.id == id && s.timers[id].activated { RemoveFacts(s.list, id, id, 0); }
      }
      assert SameSettings(s.timers, Acted(s, a).timers) by { MarkedKeeps(s.timers, a.id, a.StartIt?); }
      ActionsStayOk(s.timers, Acted(s, a).timers, actions);
      CalledStaysOff(Acted(s, a), of, actions[1..], id);
    }
  }

  /** A firing that does not start the timer leaves it off the list. */
  lemma FiredStaysOff(s: State, calls: Id -> seq<Action>, id: Id)
    requires Checking(s) && CallsOk(s.timers, calls) && s.list != [] && s.list[0].due <= s.clock && s.list[0].id in s.timers
    requires SparesStart(calls(s.list[0].id), id)
    requires Due(s.list[1..], id).None? && (s.list[0].id == id ==> !s.timers[id].periodic)
    ensures Due(Fired(s, calls).list, id).None?
  {
    var x := s.list[0].id;
    PoppedKeeps(s);
    CalledStaysOff(Popped(s), x, calls(x), id);
    CalledKeeps(Popped(s), x, calls(x), id);
    CalledSelf(Popped(s), x, calls(x));
    FinishedDue(Called(Popped(s), calls(x)), x, id);
  }

  lemma {:induction false} CheckStaysOff(s: State, calls: Id -> seq<Action>, id: Id)
    requires Checking(s) && CallsOk(s.timers, calls) && (forall x :: SparesStart(calls(x), id)) && Due(s.list, id).None?
    ensures Due(Check(s, calls).0.list, id).None? && Times(Check(s, calls).1, id) == 0
    decreases Expired(s.list, s.clock)
  {
    if s.list != [] && s.list[0].due <= s.clock {
      CheckTurn(s, calls);
      FiredStaysOff(s, calls, id);
      CheckStaysOff(Fired(s, calls), calls, id);
      TimesCons(s.list[0].id, Check(Fired(s, calls), calls).1, id);
    }
  }

  lemma StepStaysOff(s: State, op: Op, id: Id)
    requires Inv(s) && Enabled(s, op) && !StartsIt(op, id) && Due(s.list, id).None?
    ensures Due(Step(s, op).0.list, id).None? && Times(Step(s, op).1, id) == 0
  {
    match op
    case Start(x) => StartKeepsInv(s, x, id);
    case Stop(x) => StopKeepsInv(s, x, id);
    case SetTime(x, ticks) =>
    case SetPeriodic(x, on) =>
    case Tick(calls) =>
      TickIsCheck(s, calls);
      CheckStaysOff(s.(clock := s.clock + 1), calls, id);
  }

  lemma {:induction false} OffIsSilent(s: State, ops: seq<Op>, r: State, id: Id, e: Event)
    requires Inv(s) && Leads(s, ops, r) && NeverStarted(ops, id) && Due(s.list, id).None? && e.id == id
    ensures e !in Log(s, ops)
    decreases |ops|
  {
    if ops != [] {
      assert !StartsIt(ops[0], id);
      assert NeverStarted(ops[1..], id) by { assert forall i :: 0 <= i < |ops| - 1 ==> ops[1..][i] == ops[i + 1]; }
      StepKeepsInv(s, ops[0]);
      StepStaysOff(s, ops[0], id);
      LogHead(s, ops, e);
      OffIsSilent(Step(s, ops[0]).0, ops[1..], r, id, e);
    }
  }

  /** A timer that has been stopped does not fire until it is started again. */
  lemma StoppedIsSilent(s: State, id: Id, ended: State, ops: seq<Op>, r: State, e: Event)
    requires Inv(s) && id in s.timers && ended == Stopped(s, id) && Leads(ended, ops, r) && NeverStarted(ops, id) && e.id == id
    ensures e !in Log(ended, ops)
  {
    StopKeepsInv(s, id, id);
    assert Due(ended.list, id).None? by { assert Due(s.list, id).Some? ==> s.timers[id].activated; }
    OffIsSilent(ended, ops, r, id, e);
  }

  // ----- a one-shot timer fires once ----------------------------------------------------------

  /** The step neither stops nor starts the timer, nor changes its settings. */
  ghost predicate KeepsAway(op: Op, id: Id) {
    LeavesIt(op, id) && !StartsIt(op, id)
  }

  ghost predicate KeptAway(ops: seq<Op>, id: Id) {
    forall i :: 0 <= i < |ops| ==> KeepsAway(ops[i], id)
  }

  lemma {:induction false} CheckFiresOnce(s: State, calls: Id -> seq<Action>, id: Id)
    requires Checking(s) && CallsOk(s.timers, calls) && (forall x :: Spares(calls(x), id) && SparesStart(calls(x), id))
    requires Due(s.list, id).Some? && Due(s.list, id).value <= s.clock && id in s.timers && !s.timers[id].periodic
    ensures Times(Check(s, calls).1, id) == 1 && Due(Check(s, calls).0.list, id).None?
    decreases Expired(s.list, s.clock)
  {
    SortedHead(s.list, id);
    var r := Fired(s, calls);
    CheckTurn(s, calls);
    FiredDue(s, calls, id);
    TimesCons(s.list[0].id, Check(r, calls).1, id);
    if s.list[0].id == id {
      CheckStaysOff(r, calls, id);
    } else {
      CheckFiresOnce(r, calls, id);
    }
  }

  /** A one-shot timer that is left alone fires once, at the tick it is due, and never again. */
  lemma {:induction false} FiresOnce(s: State, ops: seq<Op>, r: State, id: Id, due: nat, t: nat)
    requires Inv(s) && Leads(s, ops, r) && KeptAway(ops, id) && Due(s.list, id) == Some(due) && s.clock < due
    requires id in s.timers && !s.timers[id].periodic
    ensures Event(id, t) in Log(s, ops) <==> t == due <= r.clock
    decreases |ops|
  {
    if ops != [] {
      var (op, next) := (ops[0], Step(s, ops[0]).0);
      assert KeepsAway(op, id);
      assert KeptAway(ops[1..], id) by { assert forall i :: 0 <= i < |ops| - 1 ==> ops[1..][i] == ops[i + 1]; }
      StepKeepsInv(s, op);
      StepKeepsSettings(s, op, id);
      LogHead(s, ops, Event(id, t));
      LogIsLater(next, ops[1..], r, Event(id, t));
      if op.Tick? && due <= s.clock + 1 {
        TickIsCheck(s, op.calls);
        CheckFiresOnce(s.(clock := s.clock + 1), op.calls, id);
        assert NeverStarted(ops[1..], id) by { assert forall i :: 0 <= i < |ops| - 1 ==> KeepsAway(ops[1..][i], id); }
        TickMovesOn(s, op);
        OffIsSilent(next, ops[1..], r, id, Event(id, t));
      } else {
        StepSpares(s, op, id);
        DueAhead(s, op, due);
        FiresOnce(next, ops[1..], r, id, due, t);
      }
    }
  }

  lemma TickMovesOn(s: State, op: Op)
    requires Inv(s) && Enabled(s, op)
    ensures Step(s, op).0.clock == s.clock + if op.Tick? then 1 else 0
  {
    if op.Tick? {
      TickIsCheck(s, op.calls);
      CheckKeeps(s.(clock := s.clock + 1), op.calls);
    }
  }

  lemma DueAhead(s: State, op: Op, due: nat)
    requires Inv(s) && Enabled(s, op) && s.clock < due && (op.Tick? ==> due > s.clock + 1)
    ensures Step(s, op).0.clock < due
  {
    TickMovesOn(s, op);
  }

  // ----- the place of a timer, and its settings -----------------------------------------------

  /** A timer is put behind those due earlier and in front of those due at its tick or later: of two due together, the one started last fires first. */
  lemma {:induction false} InsertPlaces(list: seq<Entry>, e: Entry) returns (n: nat)
    requires Sorted(list)
    ensures n <= |list| && Insert(list, e) == list[..n] + ([e] + list[n..])
    ensures (forall i :: 0 <= i < n ==> list[i].due < e.due) && (forall i :: n <= i < |list| ==> e.due <= list[i].due)
  {
    if list == [] || e.due <= list[0].due {
      n := 0;
      HeadIsLeast(list);
    } else {
      n := InsertPlaces(list[1..], e);
      n := n + 1;
      assert list[..n] == [list[0]] + list[1..][..n - 1] && list[n..] == list[1..][n - 1..];
    }
  }

  lemma {:induction false} HeadIsLeast(list: seq<Entry>)
    requires Sorted(list)
    ensures forall i :: 0 <= i < |list| ==> list[0].due <= list[i].due
  {
    if |list| > 1 {
      HeadIsLeast(list[1..]);
      assert forall i :: 0 < i < |list| ==> list[i] == list[1..][i - 1];
    }
  }

  /** Where a start puts the timer; a running one is left where it is. */
  lemma StartPlaces(s: State, id: Id) returns (n: nat)
    requires Inv(s) && id in s.timers
    ensures var (r, e) := (Started(s, id), Entry(id, s.clock + s.timers[id].init));
            && r.timers == s.timers[id := s.timers[id].(activated := true)] && r.clock == s.clock
            && (s.timers[id].activated ==> r == s)
            && (!s.timers[id].activated ==>
                  && n <= |s.list| && r.list == s.list[..n] + ([e] + s.list[n..])
                  && (forall i :: 0 <= i < n ==> s.list[i].due < e.due) && (forall i :: n <= i < |s.list| ==> e.due <= s.list[i].due))
  {
    n := InsertPlaces(s.list, Entry(id, s.clock + s.timers[id].init));
    assert s.timers[id].activated ==> s.timers[id := s.timers[id].(activated := true)] == s.timers;
  }

  /** A stop takes exactly this timer off the list. */
  lemma StopTakesOff(s: State, id: Id, x: Id)
    requires Inv(s) && id in s.timers
    ensures var r := Stopped(s, id);
            && r.timers == s.timers[id := s.timers[id].(activated := false)] && r.clock == s.clock
            && Due(r.list, x) == (if x == id then None else Due(s.list, x))
  {
    StopKeepsInv(s, id, x);
    assert !s.timers[id].activated ==> s.timers[id := s.timers[id].(activated := false)] == s.timers;
    assert Due(s.list, id).Some? ==> s.timers[id].activated;
  }

  /** The control commands change one setting of one timer, and no due time. */
  lemma ControlSetsExactly(s: State, op: Op, x: Id)
    requires Inv(s) && Enabled(s, op) && (op.SetTime? || op.SetPeriodic?) && x in s.timers
    ensures var (r, fired) := Step(s, op);
            && fired == [] && r.list == s.list && r.clock == s.clock && x in r.timers && r.timers.Keys == s.timers.Keys
            && r.timers[x].init == (if op.SetTime? && op.id == x then op.ticks else s.timers[x].init)
            && r.timers[x].periodic == (if op.SetPeriodic? && op.id == x then op.on else s.timers[x].periodic)
            && r.timers[x].activated == s.timers[x].activated
  {
  }
}
