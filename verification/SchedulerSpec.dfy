/**
 The scheduler's lists (src/scheduler.c, and the calls of src/thread.c and src/clock.c that move threads between
 them) as a state machine. One step is one call; interrupts are off where the lists change.
 */
module SchedulerSpec {
  import opened Kernel
  import B = ReadyBitmap

  datatype Stat = Init | Ready | Suspend | Close

  /**
   ready has one list for every priority. current is rt_current_thread, level is rt_current_priority, nest the
   depth of rt_enter_critical. The idle thread is ready once it has been started.
   */
  datatype State = State(bitmap: B.Bitmap, ready: seq<seq<Tid>>, stat: map<Tid, Stat>, prio: map<Tid, nat>,
                         current: Option<Tid>, level: nat, nest: nat, idle: Tid)

  datatype Op =
    | Startup(t: Tid, p: nat)
    | SystemStart
    | Resume(t: Tid)
    | SuspendIt(t: Tid)
    | Timeout(t: Tid)
    | Yield
    | ChangePriority(t: Tid, p: nat)
    | CloseIt(t: Tid)
    | Schedule
    | Enter
    | Exit

  // ----- what a step does ---------------------------------------------------------------------

  /** As many empty lists. */
  function NoThreads(n: nat): (r: seq<seq<Tid>>)
    ensures |r| == n && forall p :: 0 <= p < n ==> r[p] == []
  {
    seq(n, _ => [])
  }

  /** The list without t. */
  function Off(list: seq<Tid>, t: Tid): seq<Tid> {
    if t in list then Without(list, IndexOf(list, t)) else list
  }

  ghost predicate Sized(s: State) {
    && |s.bitmap.table| == 32 && |s.ready| == B.Max(s.bitmap.two) && s.stat.Keys == s.prio.Keys
    && forall t :: t in s.prio ==> s.prio[t] < |s.ready|
  }

  /** rt_schedule_insert_thread */
  function Inserted(s: State, t: Tid): State
    requires Sized(s) && t in s.prio
  {
    var p := s.prio[t];
    s.(bitmap := B.Mark(s.bitmap, p), ready := s.ready[p := s.ready[p] + [t]], stat := s.stat[t := Ready])
  }

  /** rt_schedule_remove_thread, and the new state of the thread. */
  function Removed(s: State, t: Tid, stat: Stat): State
    requires Sized(s) && t in s.prio
  {
    var p := s.prio[t];
    var list := Off(s.ready[p], t);
    s.(bitmap := if list == [] then B.Unmark(s.bitmap, p) else s.bitmap, ready := s.ready[p := list], stat := s.stat[t := stat])
  }

  /** The most urgent list that is not empty, as rt_schedule finds it. */
  function Top(table: seq<nat>, s: State): nat
    requires |table| == 256
  {
    B.Lowest(table, s.bitmap)
  }

  /** The thread at the head of that list runs. */
  function Switched(table: seq<nat>, s: State): State
    requires |table| == 256
  {
    var p := Top(table, s);
    if p >= |s.ready| || s.ready[p] == [] || s.current == Some(s.ready[p][0]) then s
    else s.(current := Some(s.ready[p][0]), level := p)
  }

  /** rt_schedule */
  function Scheduled(table: seq<nat>, s: State): State
    requires |table| == 256
  {
    if s.nest == 0 then Switched(table, s) else s
  }

  /** rt_thread_control, RT_THREAD_CTRL_CHANGE_PRIORITY */
  function Moved(s: State, t: Tid, p: nat): State
    requires Sized(s) && t in s.prio && p < |s.ready|
  {
    if s.stat[t] == Ready then Inserted(Removed(s, t, Ready).(prio := s.prio[t := p]), t) else s.(prio := s.prio[t := p])
  }

  /** The current thread goes behind the others of its priority. */
  function Rotated(s: State, t: Tid): State
    requires Sized(s) && t in s.prio
  {
    var p := s.prio[t];
    s.(ready := s.ready[p := Off(s.ready[p], t) + [t]])
  }

  ghost predicate Enabled(s: State, op: Op) {
    match op
    case Startup(t, p) => t in s.stat && s.stat[t] == Init && p < |s.ready|
    case SystemStart => s.current.None? && s.idle in s.stat && s.stat[s.idle] == Ready
    case Resume(t) => t in s.stat
    case SuspendIt(t) => t in s.stat && t != s.idle
    case Timeout(t) => t in s.stat && s.stat[t] == Suspend && s.current.Some?
    case Yield => s.current.Some? && s.current.value in s.stat
    case ChangePriority(t, p) => t in s.stat && p < |s.ready|
    case CloseIt(t) => t in s.stat && t != s.idle
    case Schedule => s.current.Some?
    case Enter => true
    case Exit => s.current.Some?
  }

  ghost function Step(table: seq<nat>, s: State, op: Op): State
    requires |table| == 256 && Sized(s) && Enabled(s, op)
  {
    match op
    case Startup(t, p) =>
      var r := Inserted(s.(prio := s.prio[t := p]), t);
      if s.current.Some? then Scheduled(table, r) else r
    case SystemStart => Switched(table, s)
    case Resume(t) => if s.stat[t] == Suspend then Inserted(s, t) else s
    case SuspendIt(t) => if s.stat[t] == Ready then Removed(s, t, Suspend) else s
    case Timeout(t) => Scheduled(table, Inserted(s, t))
    case Yield =>
      var t := s.current.value;
      if s.stat[t] == Ready && |s.ready[s.prio[t]]| > 1 then Scheduled(table, Rotated(s, t)) else s
    case ChangePriority(t, p) => Moved(s, t, p)
    case CloseIt(t) => Removed(s, t, Close)
    case Schedule => Scheduled(table, s)
    case Enter => s.(nest := s.nest + 1)
    case Exit => if s.nest <= 1 then Scheduled(table, s.(nest := 0)) else s.(nest := s.nest - 1)
  }

  // ----- the invariant ------------------------------------------------------------------------

  /** A thread is ready exactly if it is on the list of its priority, and it is on no other list, and once only. */
  ghost predicate Lists(ready: seq<seq<Tid>>, stat: map<Tid, Stat>, prio: map<Tid, nat>) {
    forall p :: 0 <= p < |ready| ==> Distinct(ready[p]) && ListOf(ready[p], p, stat, prio)
  }

  ghost predicate ListOf(list: seq<Tid>, p: nat, stat: map<Tid, Stat>, prio: map<Tid, nat>) {
    forall t :: t in list <==> t in stat && t in prio && stat[t] == Ready && prio[t] == p
  }

  /** A bit is set exactly if its list is not empty. */
  ghost predicate Marks(bitmap: B.Bitmap, ready: seq<seq<Tid>>) {
    forall p :: 0 <= p < |ready| ==> (B.Marked(bitmap, p) <==> ready[p] != [])
  }

  ghost predicate Inv(s: State) {
    && Sized(s) && B.Coherent(s.bitmap) && Lists(s.ready, s.stat, s.prio) && Marks(s.bitmap, s.ready)
    && (s.current.Some? ==> s.idle in s.stat && s.stat[s.idle] == Ready && s.current.value in s.stat)
  }

  lemma OffFacts(list: seq<Tid>, t: Tid)
    requires Distinct(list)
    ensures Distinct(Off(list, t)) && t !in Off(list, t) && forall u :: u != t ==> (u in Off(list, t) <==> u in list)
  {
    if t in list {
      WithoutDistinct(list, IndexOf(list, t));
    }
  }

  lemma InsertedKeeps(s: State, t: Tid)
    requires Sized(s) && B.Coherent(s.bitmap) && Lists(s.ready, s.stat, s.prio) && Marks(s.bitmap, s.ready)
    requires t in s.stat && s.stat[t] != Ready
    ensures var r := Inserted(s, t);
            Sized(r) && B.Coherent(r.bitmap) && Lists(r.ready, r.stat, r.prio) && Marks(r.bitmap, r.ready)
  {
    var (p, r) := (s.prio[t], Inserted(s, t));
    forall q | 0 <= q < |r.ready|
      ensures B.Marked(r.bitmap, q) <==> r.ready[q] != []
      ensures Distinct(r.ready[q]) && ListOf(r.ready[q], q, r.stat, r.prio)
    {
      B.MarkSets(s.bitmap, p, q);
      assert ListOf(s.ready[q], q, s.stat, s.prio);
    }
    B.MarkSets(s.bitmap, p, p);
  }

  lemma RemovedKeeps(s: State, t: Tid, stat: Stat)
    requires Sized(s) && B.Coherent(s.bitmap) && Lists(s.ready, s.stat, s.prio) && Marks(s.bitmap, s.ready)
    requires t in s.stat && stat != Ready
    ensures var r := Removed(s, t, stat);
            Sized(r) && B.Coherent(r.bitmap) && Lists(r.ready, r.stat, r.prio) && Marks(r.bitmap, r.ready)
  {
    var (p, r) := (s.prio[t], Removed(s, t, stat));
    assert ListOf(s.ready[p], p, s.stat, s.prio);
    OffFacts(s.ready[p], t);
    forall q | 0 <= q < |r.ready|
      ensures B.Marked(r.bitmap, q) <==> r.ready[q] != []
      ensures Distinct(r.ready[q]) && ListOf(r.ready[q], q, r.stat, r.prio)
    {
      B.UnmarkClears(s.bitmap, p, q);
      assert ListOf(s.ready[q], q, s.stat, s.prio);
    }
    B.UnmarkClears(s.bitmap, p, p);
  }

  lemma PriorityChangeKeeps(s: State, t: Tid, p: nat)
    requires Sized(s) && B.Coherent(s.bitmap) && Lists(s.ready, s.stat, s.prio) && Marks(s.bitmap, s.ready)
    requires t in s.stat && s.stat[t] != Ready && p < |s.ready|
    ensures var r := s.(prio := s.prio[t := p]);
            Sized(r) && B.Coherent(r.bitmap) && Lists(r.ready, r.stat, r.prio) && Marks(r.bitmap, r.ready)
  {
    var r := s.(prio := s.prio[t := p]);
    forall q | 0 <= q < |r.ready|
      ensures Distinct(r.ready[q]) && ListOf(r.ready[q], q, r.stat, r.prio)
    {
      assert ListOf(s.ready[q], q, s.stat, s.prio);
    }
  }

  lemma MovedKeeps(s: State, t: Tid, p: nat)
    requires Inv(s) && t in s.stat && p < |s.ready|
    ensures Inv(Moved(s, t, p))
  {
    if s.stat[t] == Ready {
      var off := Removed(s, t, Suspend);
      RemovedKeeps(s, t, Suspend);
      PriorityChangeKeeps(off, t, p);
      InsertedKeeps(off.(prio := s.prio[t := p]), t);
      assert off.stat[t := Ready] == Removed(s, t, Ready).stat[t := Ready];
    } else {
      PriorityChangeKeeps(s, t, p);
    }
  }

  lemma RotatedKeeps(s: State, t: Tid)
    requires Inv(s) && t in s.stat && s.stat[t] == Ready
    ensures Inv(Rotated(s, t))
  {
    var (p, r) := (s.prio[t], Rotated(s, t));
    assert ListOf(s.ready[p], p, s.stat, s.prio);
    OffFacts(s.ready[p], t);
    forall q | 0 <= q < |r.ready|
      ensures B.Marked(r.bitmap, q) <==> r.ready[q] != []
      ensures Distinct(r.ready[q]) && ListOf(r.ready[q], q, r.stat, r.prio)
    {
      assert ListOf(s.ready[q], q, s.stat, s.prio);
    }
  }

  // ----- rt_schedule --------------------------------------------------------------------------

  /** There is always a thread to run: the idle thread at least. */
  lemma TopIsLeast(table: seq<nat>, s: State, q: nat)
    requires B.Good(table) && Inv(s) && s.idle in s.stat && s.stat[s.idle] == Ready
    ensures Top(table, s) < |s.ready| && s.ready[Top(table, s)] != []
    ensures q < |s.ready| && s.ready[q] != [] ==> Top(table, s) <= q
  {
    assert ListOf(s.ready[s.prio[s.idle]], s.prio[s.idle], s.stat, s.prio);
    assert B.Marked(s.bitmap, s.prio[s.idle]);
    B.GroupTells(s.bitmap, s.prio[s.idle]);
    B.LowestIsLeast(table, s.bitmap, q);
  }

  lemma SwitchedKeeps(table: seq<nat>, s: State)
    requires B.Good(table) && Inv(s) && s.idle in s.stat && s.stat[s.idle] == Ready
    ensures Inv(Switched(table, s))
    ensures var r := Switched(table, s);
            && r.ready == s.ready && r.stat == s.stat && r.prio == s.prio && r.nest == s.nest && r.idle == s.idle
            && Top(table, s) < |s.ready| && s.ready[Top(table, s)] != [] && r.current == Some(s.ready[Top(table, s)][0])
  {
    var p := Top(table, s);
    TopIsLeast(table, s, p);
    assert ListOf(s.ready[p], p, s.stat, s.prio) && s.ready[p][0] in s.ready[p];
  }

  /** Unless the scheduler is locked, rt_schedule makes a thread run that is ready, none is more urgent, and it is the first of its list. */
  lemma MostUrgentRuns(table: seq<nat>, s: State, t: Tid)
    requires B.Good(table) && Inv(s) && s.current.Some? && s.nest == 0
    ensures var r := Scheduled(table, s);
            && Inv(r) && r.current.Some?
            && var c := r.current.value;
               c in r.stat && r.stat[c] == Ready && r.ready[r.prio[c]] != [] && r.ready[r.prio[c]][0] == c
               && (t in r.stat && r.stat[t] == Ready ==> r.prio[c] <= r.prio[t])
               && r.level == (if r.current == s.current then s.level else r.prio[c])
  {
    SwitchedKeeps(table, s);
    var p := Top(table, s);
    TopIsLeast(table, s, if t in s.prio then s.prio[t] else 0);
    assert ListOf(s.ready[p], p, s.stat, s.prio) && s.ready[p][0] in s.ready[p];
    if t in s.stat && s.stat[t] == Ready {
      assert ListOf(s.ready[s.prio[t]], s.prio[t], s.stat, s.prio);
    }
  }

  lemma ScheduledKeeps(table: seq<nat>, s: State)
    requires B.Good(table) && Inv(s) && s.current.Some?
    ensures Inv(Scheduled(table, s)) && Scheduled(table, s).current.Some?
  {
    if s.nest == 0 {
      SwitchedKeeps(table, s);
    }
  }

  // ----- steps --------------------------------------------------------------------------------

  lemma StartupKeeps(table: seq<nat>, s: State, t: Tid, p: nat)
    requires B.Good(table) && Inv(s) && Enabled(s, Startup(t, p))
    ensures Inv(Step(table, s, Startup(t, p)))
  {
    PriorityChangeKeeps(s, t, p);
    InsertedKeeps(s.(prio := s.prio[t := p]), t);
    if s.current.Some? {
      ScheduledKeeps(table, Inserted(s.(prio := s.prio[t := p]), t));
    }
  }

  /** Every step keeps thread states, lists and bitmap in agreement. */
  lemma StepKeepsInv(table: seq<nat>, s: State, op: Op)
    requires B.Good(table) && Inv(s) && Enabled(s, op)
    ensures Inv(Step(table, s, op))
  {
    match op
    case Startup(t, p) => StartupKeeps(table, s, t, p);
    case SystemStart => SwitchedKeeps(table, s);
    case Resume(t) => if s.stat[t] == Suspend { InsertedKeeps(s, t); }
    case SuspendIt(t) => if s.stat[t] == Ready { RemovedKeeps(s, t, Suspend); }
    case Timeout(t) =>
      InsertedKeeps(s, t);
      ScheduledKeeps(table, Inserted(s, t));
    case Yield =>
      var t := s.current.value;
      if s.stat[t] == Ready && |s.ready[s.prio[t]]| > 1 {
        RotatedKeeps(s, t);
        ScheduledKeeps(table, Rotated(s, t));
      }
    case ChangePriority(t, p) => MovedKeeps(s, t, p);
    case CloseIt(t) => RemovedKeeps(s, t, Close);
    case Schedule => ScheduledKeeps(table, s);
    case Enter =>
    case Exit => if s.nest <= 1 { ScheduledKeeps(table, s.(nest := 0)); }
  }

  // ----- what becomes of each thread ----------------------------------------------------------

  /** The step makes t ready. */
  ghost predicate Readies(s: State, op: Op, t: Tid) {
    match op
    case Startup(u, _) => u == t
    case Resume(u) => u == t && t in s.stat && s.stat[t] == Suspend
    case Timeout(u) => u == t
    case _ => false
  }

  /** Every call sets the states, priorities and the lock depth it is for, and no others. */
  lemma StepSetsExactly(table: seq<nat>, s: State, op: Op, u: Tid)
    requires B.Good(table) && Inv(s) && Enabled(s, op) && u in s.stat
    ensures var r := Step(table, s, op);
            && u in r.stat && u in r.prio
            && r.stat[u] == (if Readies(s, op, u) then Ready
                             else if op == SuspendIt(u) && s.stat[u] == Ready then Suspend
                             else if op == CloseIt(u) then Close
                             else s.stat[u])
            && (match op
                case Startup(t, p) => r.prio[u] == if t == u then p else s.prio[u]
                case ChangePriority(t, p) => r.prio[u] == if t == u then p else s.prio[u]
                case _ => r.prio[u] == s.prio[u])
            && r.nest == (match op case Enter => s.nest + 1 case Exit => if s.nest == 0 then 0 else s.nest - 1 case _ => s.nest)
  {
  }

  /** Another thread runs only after a start, a timeout, a yield, an exit or rt_schedule itself, and not while the scheduler is locked. */
  lemma RunsOn(table: seq<nat>, s: State, op: Op)
    requires B.Good(table) && Inv(s) && Enabled(s, op)
    requires op.Resume? || op.SuspendIt? || op.ChangePriority? || op.CloseIt? || op.Enter? || (s.nest > 0 && !op.SystemStart? && !op.Exit?) || (op.Exit? && s.nest > 1)
    ensures Step(table, s, op).current == s.current && Step(table, s, op).level == s.level
  {
  }

  /** The call ends in rt_schedule. */
  ghost predicate Reschedules(s: State, op: Op) {
    match op
    case Startup(_, _) => s.current.Some?
    case SystemStart => true
    case Timeout(_) => true
    case Yield => s.current.Some? && s.current.value in s.stat && s.current.value in s.prio
                  && s.stat[s.current.value] == Ready && s.prio[s.current.value] < |s.ready| && |s.ready[s.prio[s.current.value]]| > 1
    case Schedule => true
    case Exit => s.nest <= 1
    case _ => false
  }

  /** Behind such a call, if the scheduler is not locked, the thread that runs is ready, first of its list, and none is more urgent. */
  lemma MostUrgentRunsBehind(table: seq<nat>, s: State, op: Op, t: Tid)
    requires B.Good(table) && Inv(s) && Enabled(s, op) && Reschedules(s, op) && (s.nest == 0 || op.Exit?)
    ensures var r := Step(table, s, op);
            && r.current.Some?
            && var c := r.current.value;
               c in r.stat && c in r.prio && r.stat[c] == Ready && r.prio[c] < |r.ready| && r.ready[r.prio[c]] != [] && r.ready[r.prio[c]][0] == c
               && (t in r.stat && t in r.prio && r.stat[t] == Ready ==> r.prio[c] <= r.prio[t])
  {
    StepKeepsInv(table, s, op);
    var r := Step(table, s, op);
    if op.SystemStart? {
      SwitchedKeeps(table, s);
      TopIsLeast(table, s, if t in s.prio then s.prio[t] else 0);
      TopIsOfPriority(table, r, t);
    } else {
      StillTop(table, s, op, r);
      MostUrgentRuns(table, r, t);
    }
  }

  /** What rt_schedule has picked it would pick again. */
  lemma StillTop(table: seq<nat>, s: State, op: Op, r: State)
    requires B.Good(table) && Inv(s) && Enabled(s, op) && Reschedules(s, op) && (s.nest == 0 || op.Exit?) && !op.SystemStart?
    requires r == Step(table, s, op) && Inv(r)
    ensures r.nest == 0 && r.current.Some? && Scheduled(table, r) == r
  {
  }

  lemma TopIsOfPriority(table: seq<nat>, s: State, t: Tid)
    requires B.Good(table) && Inv(s) && s.current.Some? && Top(table, s) < |s.ready| && s.ready[Top(table, s)] != []
    requires s.current == Some(s.ready[Top(table, s)][0])
    ensures var (c, p) := (s.current.value, Top(table, s));
            && c in s.stat && c in s.prio && s.stat[c] == Ready && s.prio[c] == p
            && (t in s.stat && t in s.prio && s.stat[t] == Ready ==> p <= s.prio[t])
  {
    var p := Top(table, s);
    assert ListOf(s.ready[p], p, s.stat, s.prio) && s.ready[p][0] in s.ready[p];
    TopIsLeast(table, s, if t in s.prio then s.prio[t] else 0);
    if t in s.stat && t in s.prio && s.stat[t] == Ready {
      assert ListOf(s.ready[s.prio[t]], s.prio[t], s.stat, s.prio);
    }
  }

  // ----- first come, first served -------------------------------------------------------------

  /** A thread that becomes ready stands behind all of its priority that were; every other list stays as it is. */
  lemma BecomesLast(table: seq<nat>, s: State, op: Op, t: Tid)
    requires B.Good(table) && Inv(s) && Enabled(s, op) && Readies(s, op, t)
    ensures var r := Step(table, s, op);
            && t in r.prio && r.prio[t] < |s.ready| == |r.ready| && r.ready[r.prio[t]] == s.ready[r.prio[t]] + [t]
            && forall q :: 0 <= q < |s.ready| && q != r.prio[t] ==> r.ready[q] == s.ready[q]
  {
  }

  /** a stands in front of b. */
  ghost predicate InFront(list: seq<Tid>, a: Tid, b: Tid) {
    exists i, j :: 0 <= i < j < |list| && list[i] == a && list[j] == b
  }

  lemma BehindAll(list: seq<Tid>, a: Tid, t: Tid)
    requires a in list
    ensures InFront(list + [t], a, t)
  {
    var i :| 0 <= i < |list| && list[i] == a;
    assert (list + [t])[i] == a && (list + [t])[|list|] == t;
  }

  lemma OffKeepsOrder(list: seq<Tid>, t: Tid, a: Tid, b: Tid)
    requires Distinct(list) && InFront(list, a, b) && t != a && t != b
    ensures InFront(Off(list, t), a, b)
  {
    var i, j :| 0 <= i < j < |list| && list[i] == a && list[j] == b;
    if t in list {
      var k := IndexOf(list, t);
      WithoutAt(list, k, i);
      WithoutAt(list, k, j);
      Ordered(Without(list, k), Shifted(k, i), Shifted(k, j), a, b);
    }
  }

  /** Where position i goes when position k is taken out. */
  function Shifted(k: nat, i: nat): nat
    requires i != k
  {
    if i < k then i else i - 1
  }

  lemma WithoutAt(list: seq<Tid>, k: nat, i: nat)
    requires k < |list| && i < |list| && i != k
    ensures Shifted(k, i) < |list| - 1 && Without(list, k)[Shifted(k, i)] == list[i]
  {
  }

  lemma Ordered(list: seq<Tid>, i: nat, j: nat, a: Tid, b: Tid)
    requires i < j < |list| && list[i] == a && list[j] == b
    ensures InFront(list, a, b)
  {
  }

  lemma MoreBehind(list: seq<Tid>, t: Tid, a: Tid, b: Tid)
    requires InFront(list, a, b)
    ensures InFront(list + [t], a, b)
  {
    var i, j :| 0 <= i < j < |list| && list[i] == a && list[j] == b;
    assert (list + [t])[i] == a && (list + [t])[j] == b;
  }

  /** A ready thread whose priority is changed, if only to what it was, goes to the tail of its new list; the others keep their order. */
  lemma MovedIsLast(table: seq<nat>, s: State, t: Tid, p: nat, a: Tid, b: Tid)
    requires B.Good(table) && Inv(s) && Enabled(s, ChangePriority(t, p)) && s.stat[t] == Ready
    ensures var r := Step(table, s, ChangePriority(t, p));
            && (a in s.ready[p] && a != t ==> InFront(r.ready[p], a, t)) && t in r.ready[p]
            && forall q :: 0 <= q < |s.ready| && a != t && b != t && InFront(s.ready[q], a, b) ==> InFront(r.ready[q], a, b)
  {
    var o := s.prio[t];
    var r := Step(table, s, ChangePriority(t, p));
    OffFacts(s.ready[o], t);
    var list := if p == o then Off(s.ready[o], t) else s.ready[p];
    assert r.ready[p] == list + [t];
    if a in s.ready[p] && a != t {
      BehindAll(list, a, t);
    }
    forall q | 0 <= q < |s.ready| && a != t && b != t && InFront(s.ready[q], a, b)
      ensures InFront(r.ready[q], a, b)
    {
      if q == o {
        OffKeepsOrder(s.ready[q], t, a, b);
      }
      if q == p {
        MoreBehind(list, t, a, b);
      }
    }
  }

  /** The step takes neither a nor b off its list, and a does not yield. */
  ghost predicate LeavesBoth(s: State, op: Op, a: Tid, b: Tid) {
    match op
    case SuspendIt(t) => t != a && t != b
    case CloseIt(t) => t != a && t != b
    case ChangePriority(t, _) => t != a && t != b
    case Startup(t, _) => t != a && t != b
    case Yield => s.current != Some(a) && s.current != Some(b)
    case _ => true
  }

  lemma StepKeepsOrder(table: seq<nat>, s: State, op: Op, p: nat, a: Tid, b: Tid)
    requires B.Good(table) && Inv(s) && Enabled(s, op) && LeavesBoth(s, op, a, b)
    requires p < |s.ready| && InFront(s.ready[p], a, b)
    ensures p < |Step(table, s, op).ready| && InFront(Step(table, s, op).ready[p], a, b)
  {
    match op
    case Startup(t, _) => BecomesLast(table, s, op, t); MoreBehind(s.ready[p], t, a, b);
    case Timeout(t) => BecomesLast(table, s, op, t); MoreBehind(s.ready[p], t, a, b);
    case Resume(t) =>
      if s.stat[t] == Suspend {
        BecomesLast(table, s, op, t);
        MoreBehind(s.ready[p], t, a, b);
      }
    case SuspendIt(t) => OffKeepsOrder(s.ready[p], t, a, b);
    case CloseIt(t) => OffKeepsOrder(s.ready[p], t, a, b);
    case ChangePriority(t, q) => if s.stat[t] == Ready { MovedIsLast(table, s, t, q, a, b); }
    case Yield =>
      OffKeepsOrder(s.ready[p], s.current.value, a, b);
      MoreBehind(Off(s.ready[p], s.current.value), s.current.value, a, b);
    case SystemStart =>
    case Schedule =>
    case Enter =>
    case Exit =>
  }

  // ----- whole runs ---------------------------------------------------------------------------

  /** rt_system_scheduler_init, with threads that have been created but not started. */
  function Initial(two: bool, threads: map<Tid, nat>, idle: Tid): State {
    State(B.Empty(two), NoThreads(B.Max(two)), map t | t in threads :: Init, threads, None, B.Max(two) - 1, 0, idle)
  }

  lemma InitialInv(two: bool, threads: map<Tid, nat>, idle: Tid)
    requires forall t :: t in threads ==> threads[t] < B.Max(two)
    ensures Inv(Initial(two, threads, idle))
  {
    var s := Initial(two, threads, idle);
    assert B.Coherent(s.bitmap) && Marks(s.bitmap, s.ready);
  }

  ghost predicate Leads(table: seq<nat>, s: State, ops: seq<Op>, r: State)
    requires |table| == 256
    decreases |ops|
  {
    if ops == [] then s == r else Sized(s) && Enabled(s, ops[0]) && Leads(table, Step(table, s, ops[0]), ops[1..], r)
  }

  lemma {:induction false} RunKeepsInv(table: seq<nat>, s: State, ops: seq<Op>, r: State)
    requires B.Good(table) && Inv(s) && Leads(table, s, ops, r)
    ensures Inv(r)
    decreases |ops|
  {
    if ops != [] {
      StepKeepsInv(table, s, ops[0]);
      RunKeepsInv(table, Step(table, s, ops[0]), ops[1..], r);
    }
  }

  /**
   After any history, for 32 priorities or for 256: a thread is ready exactly if it is on the list of its priority,
   once, and a bit of the bitmap is set exactly if its list is not empty.
   */
  lemma ReachableScheduler(table: seq<nat>, two: bool, threads: map<Tid, nat>, idle: Tid, ops: seq<Op>, r: State)
    requires B.Good(table) && (forall t :: t in threads ==> threads[t] < B.Max(two))
    requires Leads(table, Initial(two, threads, idle), ops, r)
    ensures Lists(r.ready, r.stat, r.prio) && Marks(r.bitmap, r.ready)
  {
    InitialInv(two, threads, idle);
    RunKeepsInv(table, Initial(two, threads, idle), ops, r);
  }

  /** In the course of the run neither a nor b leaves its list or yields. */
  ghost predicate NeverLeave(table: seq<nat>, s: State, ops: seq<Op>, a: Tid, b: Tid)
    requires |table| == 256
    decreases |ops|
  {
    ops == [] || !Sized(s) || !Enabled(s, ops[0]) || (LeavesBoth(s, ops[0], a, b) && NeverLeave(table, Step(table, s, ops[0]), ops[1..], a, b))
  }

  lemma {:induction false} RunKeepsOrder(table: seq<nat>, s: State, ops: seq<Op>, r: State, p: nat, a: Tid, b: Tid)
    requires B.Good(table) && Inv(s) && Leads(table, s, ops, r) && NeverLeave(table, s, ops, a, b)
    requires p < |s.ready| && InFront(s.ready[p], a, b)
    ensures p < |r.ready| && InFront(r.ready[p], a, b)
    decreases |ops|
  {
    if ops != [] {
      StepKeepsInv(table, s, ops[0]);
      StepKeepsOrder(table, s, ops[0], p, a, b);
      RunKeepsOrder(table, Step(table, s, ops[0]), ops[1..], r, p, a, b);
    }
  }

  /** Of two ready threads of one priority, the one that has been ready longer stands in front for as long as both stay and do not yield. */
  lemma LongerReadyStandsInFront(table: seq<nat>, s: State, op: Op, ops: seq<Op>, r: State, a: Tid, b: Tid)
    requires B.Good(table) && Inv(s) && Enabled(s, op) && Readies(s, op, b) && a != b && a in s.stat && s.stat[a] == Ready
    requires var t := Step(table, s, op); b in t.prio && t.prio[b] == s.prio[a] && Leads(table, t, ops, r) && NeverLeave(table, t, ops, a, b)
    ensures s.prio[a] < |r.ready| && InFront(r.ready[s.prio[a]], a, b)
  {
    BecomesLast(table, s, op, b);
    StepKeepsInv(table, s, op);
    assert ListOf(s.ready[s.prio[a]], s.prio[a], s.stat, s.prio);
    BehindAll(s.ready[s.prio[a]], a, b);
    RunKeepsOrder(table, Step(table, s, op), ops, r, s.prio[a], a, b);
  }

  /** c runs by right: it is the first of its list, and nobody more urgent is ready. */
  ghost predicate RunsByRight(s: State, c: Tid) {
    && s.nest == 0 && s.current == Some(c) && c in s.stat && c in s.prio && s.stat[c] == Ready && s.prio[c] < |s.ready|
    && s.ready[s.prio[c]] != [] && s.ready[s.prio[c]][0] == c
    && forall t :: t in s.stat && s.stat[t] == Ready && t in s.prio ==> s.prio[c] <= s.prio[t]
  }

  /** The first of a list than which none is more urgent is the one rt_schedule picks. */
  lemma HeadRuns(table: seq<nat>, s: State, x: Tid)
    requires B.Good(table) && Inv(s) && s.current.Some? && x in s.stat && s.stat[x] == Ready && s.prio[x] < |s.ready|
    requires s.ready[s.prio[x]] != [] && s.ready[s.prio[x]][0] == x
    requires forall u :: u in s.stat && s.stat[u] == Ready && u in s.prio ==> s.prio[x] <= s.prio[u]
    ensures Top(table, s) == s.prio[x] && Switched(table, s).current == Some(x)
  {
    var p := Top(table, s);
    TopIsLeast(table, s, s.prio[x]);
    assert ListOf(s.ready[p], p, s.stat, s.prio) && s.ready[p][0] in s.ready[p];
  }

  lemma NoneAbove(s: State, p: nat, c: Tid)
    requires Inv(s) && RunsByRight(s, c) && p < |s.ready|
    ensures p < s.prio[c] ==> s.ready[p] == []
  {
    if s.ready[p] != [] {
      assert ListOf(s.ready[p], p, s.stat, s.prio) && s.ready[p][0] in s.ready[p];
    }
  }

  /** t has just become ready: who runs by right now. */
  lemma FirstNow(table: seq<nat>, s: State, op: Op, t: Tid, c: Tid, x: Tid)
    requires B.Good(table) && Inv(s) && Enabled(s, op) && Readies(s, op, t) && RunsByRight(s, c) && t != c
    requires var r := Step(table, s, op); t in r.prio && x == if s.prio[c] <= r.prio[t] then c else t
    ensures var r := Step(table, s, op);
            && x in r.stat && x in r.prio && r.stat[x] == Ready && r.prio[x] < |r.ready| && r.ready[r.prio[x]] != [] && r.ready[r.prio[x]][0] == x
            && forall u :: u in r.stat && r.stat[u] == Ready && u in r.prio ==> r.prio[x] <= r.prio[u]
  {
    var r := Step(table, s, op);
    BecomesLast(table, s, op, t);
    StepSetsExactly(table, s, op, c);
    StepSetsExactly(table, s, op, t);
    forall u | u in r.stat && r.stat[u] == Ready && u in r.prio
      ensures r.prio[x] <= r.prio[u]
    {
      StepSetsExactly(table, s, op, u);
    }
    NoneAbove(s, r.prio[t], c);
  }

  /** Behind the call that makes t ready, and a schedule, c still runs exactly if t is no more urgent; otherwise t does. */
  lemma PreemptedExactly(table: seq<nat>, s: State, op: Op, t: Tid, c: Tid)
    requires B.Good(table) && Inv(s) && Enabled(s, op) && Readies(s, op, t) && RunsByRight(s, c) && t != c
    ensures var r := Step(table, s, op);
            && Inv(r) && t in r.prio && r.current.Some?
            && Scheduled(table, r).current == (if s.prio[c] <= r.prio[t] then Some(c) else Some(t))
            && (op.Timeout? || op.Startup? ==> r.current == if s.prio[c] <= r.prio[t] then Some(c) else Some(t))
  {
    var r := Step(table, s, op);
    StepKeepsInv(table, s, op);
    StepSetsExactly(table, s, op, t);
    FirstNow(table, s, op, t, c, if s.prio[c] <= r.prio[t] then c else t);
    HeadRuns(table, r, if s.prio[c] <= r.prio[t] then c else t);
  }

  // ----- round robin --------------------------------------------------------------------------

  function Turned(list: seq<Tid>, k: nat): seq<Tid>
    requires k <= |list|
  {
    list[k..] + list[..k]
  }

  /** k yields of whichever thread is current. */
  ghost function Yields(table: seq<nat>, s: State, k: nat): State
    requires |table| == 256
    decreases k
  {
    if k == 0 || !Sized(s) || !Enabled(s, Yield) then s else Yields(table, Step(table, s, Yield), k - 1)
  }

  /** The current thread is the first of the most urgent list. */
  ghost predicate Runs(table: seq<nat>, s: State, p: nat)
    requires |table| == 256
  {
    s.nest == 0 && s.current.Some? && Top(table, s) == p < |s.ready| && s.ready[p] != [] && s.current.value == s.ready[p][0]
  }

  /** A yield turns the list by one, and the next thread of it runs. */
  lemma YieldTurns(table: seq<nat>, s: State, p: nat)
    requires B.Good(table) && Inv(s) && Runs(table, s, p)
    ensures var r := Step(table, s, Yield);
            Enabled(s, Yield) && Inv(r) && Runs(table, r, p) && r.ready == s.ready[p := Turned(s.ready[p], 1)]
  {
    var (list, t) := (s.ready[p], s.ready[p][0]);
    StepKeepsInv(table, s, Yield);
    assert ListOf(list, p, s.stat, s.prio) && t in list;
    if |list| > 1 {
      assert IndexOf(list, t) == 0;
      assert Off(list, t) + [t] == Turned(list, 1);
      RotatedKeeps(s, t);
      SwitchedKeeps(table, Rotated(s, t));
    } else {
      assert Turned(list, 1) == list;
      assert s.ready[p := list] == s.ready;
    }
  }

  lemma TurnedOn(list: seq<Tid>, k: nat)
    requires k < |list|
    ensures Turned(Turned(list, 1), k) == Turned(list, k + 1)
  {
    var one := Turned(list, 1);
    assert one[k..] == list[k + 1..] + list[..1];
    assert one[..k] == list[1..k + 1];
  }

  /** Threads of one priority take turns: after k yields the k-th of them runs, after all of them the first one again. */
  lemma {:induction false} RoundRobin(table: seq<nat>, s: State, p: nat, k: nat)
    requires B.Good(table) && Inv(s) && Runs(table, s, p) && k <= |s.ready[p]|
    ensures var r := Yields(table, s, k);
            Runs(table, r, p) && r.ready == s.ready[p := Turned(s.ready[p], k)] && r.current.value == s.ready[p][if k < |s.ready[p]| then k else 0]
    decreases k
  {
    if k == 0 {
      assert Turned(s.ready[p], 0) == s.ready[p] && s.ready[p := s.ready[p]] == s.ready;
    } else {
      YieldTurns(table, s, p);
      var r := Step(table, s, Yield);
      RoundRobin(table, r, p, k - 1);
      TurnOnce(s.ready, r.ready, p, k);
    }
  }

  /** One turn, and k - 1 more of them. */
  lemma TurnOnce(ready: seq<seq<Tid>>, next: seq<seq<Tid>>, p: nat, k: nat)
    requires p < |ready| && 0 < k <= |ready[p]| && next == ready[p := Turned(ready[p], 1)]
    ensures next[p := Turned(next[p], k - 1)] == ready[p := Turned(ready[p], k)]
    ensures next[p][if k - 1 < |next[p]| then k - 1 else 0] == ready[p][if k < |ready[p]| then k else 0]
  {
    TurnedOn(ready[p], k - 1);
  }
}
