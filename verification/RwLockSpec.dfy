/**
 The POSIX read-write lock (components/pthreads/pthread_rwlock.c over pthread_cond.c) as a state machine. One
 step is what a thread does between taking rw_mutex and letting go of it, or one operation on the semaphore of a
 condition, which happens outside rw_mutex.
 */
module RwLockSpec {
  import opened Kernel
  import IpcList
  import P = SemaphoreSpec

  datatype Side = Read | Write

  /**
   Where a thread is. It waits in four stages: it has counted itself and let go of rw_mutex (Leaving); it is
   suspended on the condition's semaphore (Blocked); it has been given the semaphore (Back), or its time is up
   (Late), and it has not taken rw_mutex again yet.
   */
  datatype Phase = Holds(side: Side) | Leaving(side: Side, timed: bool) | Blocked(side: Side, timed: bool)
                 | Back(side: Side, timed: bool) | Late(side: Side)

  /** rw_refcount, rw_nwaitreaders, rw_nwaitwriters and the semaphores of the two conditions. */
  datatype State = State(refcount: int, nwaitreaders: int, nwaitwriters: int, readers: P.Sem, writers: P.Sem, phases: map<Tid, Phase>)

  datatype Outcome = Entered | Waits | Busy | TimedOut | Silent

  /** at_once: the absolute time of a timed call has passed already. */
  datatype Op =
    | Lock(t: Tid, side: Side, timed: bool)
    | TryLock(t: Tid, side: Side)
    | SemTake(t: Tid, at_once: bool)
    | Expire(t: Tid)
    | Again(t: Tid)
    | Unlock(t: Tid)

  function Init(): State {
    State(0, 0, 0, P.Sem(Fifo, 0, []), P.Sem(Fifo, 0, []), map[])
  }

  // ----- what a step does ---------------------------------------------------------------------

  /** The conditions of the wait loops: waiting writers go before readers. */
  predicate MayEnter(s: State, side: Side) {
    match side
    case Read => s.refcount >= 0 && s.nwaitwriters <= 0
    case Write => s.refcount == 0
  }

  function Inside(s: State, t: Tid, side: Side): State {
    s.(refcount := if side.Read? then s.refcount + 1 else -1, phases := s.phases[t := Holds(side)])
  }

  function Counted(s: State, side: Side, n: int): State {
    if side.Read? then s.(nwaitreaders := s.nwaitreaders + n) else s.(nwaitwriters := s.nwaitwriters + n)
  }

  function CondOf(s: State, side: Side): P.Sem {
    if side.Read? then s.readers else s.writers
  }

  function WithCond(s: State, side: Side, sem: P.Sem): State {
    if side.Read? then s.(readers := sem) else s.(writers := sem)
  }

  /** One turn of the wait loop. */
  function Entering(s: State, t: Tid, side: Side, timed: bool): (State, Outcome) {
    if MayEnter(s, side) then (Inside(s, t, side), Entered)
    else (Counted(s, side, 1).(phases := s.phases[t := Leaving(side, timed)]), Waits)
  }

  function SemTaking(s: State, t: Tid, side: Side, timed: bool, at_once: bool): State {
    var (sem, ok) := P.Tried(CondOf(s, side));
    if ok then WithCond(s, side, sem).(phases := s.phases[t := Back(side, timed)])
    else if at_once then s.(phases := s.phases[t := Late(side)])
    else WithCond(s, side, P.Suspended(sem, t, _ => 0)).(phases := s.phases[t := Blocked(side, timed)])
  }

  /** These threads have been given the semaphore they wait for. */
  function Woken(phases: map<Tid, Phase>, list: seq<Tid>): map<Tid, Phase> {
    map t | t in phases :: if t in list && phases[t].Blocked? then Back(phases[t].side, phases[t].timed) else phases[t]
  }

  /** pthread_cond_signal(&rw_condwriters) */
  function Signalled(s: State): State {
    var (sem, woken) := P.Released(s.writers);
    s.(writers := sem, phases := Woken(s.phases, if woken.Some? then [woken.value] else []))
  }

  /** pthread_cond_broadcast(&rw_condreaders) */
  function Broadcasted(s: State): State
    requires s.readers.value < P.VALUES
  {
    s.(readers := P.Broadcast(s.readers).0, phases := Woken(s.phases, P.Broadcast(s.readers).1))
  }

  function Unlocked(s: State, t: Tid): State
    requires s.readers.value < P.VALUES
  {
    var u := s.(refcount := if s.refcount > 0 then s.refcount - 1 else if s.refcount == -1 then 0 else s.refcount,
                phases := s.phases - {t});
    if u.nwaitwriters > 0 then (if u.refcount == 0 then Signalled(u) else u)
    else if u.nwaitreaders > 0 then Broadcasted(u)
    else u
  }

  /** Holders unlock; only timed calls time out. */
  ghost predicate Enabled(s: State, op: Op) {
    match op
    case Lock(t, _, _) => t !in s.phases
    case TryLock(t, _) => t !in s.phases
    case SemTake(t, at_once) => t in s.phases && s.phases[t].Leaving? && (at_once ==> s.phases[t].timed)
    case Expire(t) => t in s.phases && s.phases[t].Blocked? && s.phases[t].timed && t in CondOf(s, s.phases[t].side).waiters
    case Again(t) => t in s.phases && (s.phases[t].Back? || s.phases[t].Late?)
    case Unlock(t) => t in s.phases && s.phases[t].Holds? && s.readers.value < P.VALUES
  }

  function Step(s: State, op: Op): (State, Outcome)
    requires Enabled(s, op)
  {
    match op
    case Lock(t, side, timed) => Entering(s, t, side, timed)
    case TryLock(t, side) => if MayEnter(s, side) then (Inside(s, t, side), Entered) else (s, Busy)
    case SemTake(t, at_once) => (SemTaking(s, t, s.phases[t].side, s.phases[t].timed, at_once), Silent)
    case Expire(t) =>
      var side := s.phases[t].side;
      (WithCond(s, side, P.Dropped(CondOf(s, side), t)).(phases := s.phases[t := Late(side)]), Silent)
    case Again(t) =>
      var (p, r) := (s.phases[t], Counted(s, s.phases[t].side, -1));
      if p.Late? then (r.(phases := s.phases - {t}), TimedOut) else Entering(r, t, p.side, p.timed)
    case Unlock(t) => (Unlocked(s, t), Silent)
  }

  // ----- counting threads ---------------------------------------------------------------------

  datatype Kind = Holding(side: Side) | Waiting(side: Side)

  predicate Is(p: Phase, k: Kind) {
    p.side == k.side && (k.Holding? <==> p.Holds?)
  }

  ghost function Where(phases: map<Tid, Phase>, k: Kind): set<Tid> {
    set t | t in phases && Is(phases[t], k)
  }

  ghost function Number(phases: map<Tid, Phase>, k: Kind): nat {
    |Where(phases, k)|
  }

  function One(c: bool): int {
    if c then 1 else 0
  }

  lemma NumberPut(phases: map<Tid, Phase>, t: Tid, p: Phase, k: Kind)
    ensures Number(phases[t := p], k) == Number(phases, k) + One(Is(p, k)) - One(t in phases && Is(phases[t], k))
  {
    var (a, b) := (Where(phases, k), Where(phases[t := p], k));
    assert b == if Is(p, k) then a + {t} else a - {t};
  }

  lemma NumberDrop(phases: map<Tid, Phase>, t: Tid, k: Kind)
    ensures Number(phases - {t}, k) == Number(phases, k) - One(t in phases && Is(phases[t], k))
  {
    assert Where(phases - {t}, k) == Where(phases, k) - {t};
  }

  lemma NumberWoken(phases: map<Tid, Phase>, list: seq<Tid>, k: Kind)
    ensures Number(Woken(phases, list), k) == Number(phases, k)
  {
    assert Where(Woken(phases, list), k) == Where(phases, k);
  }

  // ----- the invariant ------------------------------------------------------------------------

  /** -1 with one writer and no reader, or n with n readers and no writer; the waiting counts are right. */
  ghost predicate Counts(s: State) {
    && (s.refcount == -1 ==> Number(s.phases, Holding(Write)) == 1 && Number(s.phases, Holding(Read)) == 0)
    && (s.refcount != -1 ==> Number(s.phases, Holding(Write)) == 0 && Number(s.phases, Holding(Read)) == s.refcount)
    && s.nwaitreaders == Number(s.phases, Waiting(Read)) && s.nwaitwriters == Number(s.phases, Waiting(Write))
  }

  /** A condition's list names exactly the threads blocked on it. */
  ghost predicate Listed(sem: P.Sem, phases: map<Tid, Phase>, side: Side) {
    && P.Sound(sem) && sem.flag.Fifo?
    && forall t :: t in sem.waiters <==> t in phases && phases[t].Blocked? && phases[t].side == side
  }

  ghost predicate Inv(s: State) {
    Counts(s) && Listed(s.readers, s.phases, Read) && Listed(s.writers, s.phases, Write)
  }

  // ----- steps keep the counts ----------------------------------------------------------------

  lemma EnteringKeeps(s: State, t: Tid, side: Side, timed: bool, n: int)
    requires Listed(s.readers, s.phases, Read) && Listed(s.writers, s.phases, Write) && !(t in s.phases && s.phases[t].Blocked?)
    requires Counts(Counted(s, side, n)) && n == One(t in s.phases && Is(s.phases[t], Waiting(side)))
    requires t in s.phases ==> s.phases[t].side == side && !s.phases[t].Holds?
    ensures Inv(Entering(s, t, side, timed).0)
  {
    var r := Entering(s, t, side, timed).0;
    var p := if MayEnter(s, side) then Holds(side) else Leaving(side, timed);
    PutAll(s.phases, t, p);
    PutKeepsListed(s.readers, s.phases, t, p, Read);
    PutKeepsListed(s.writers, s.phases, t, p, Write);
  }

  /** All four numbers behind an update. */
  lemma PutAll(phases: map<Tid, Phase>, t: Tid, p: Phase)
    ensures forall side: Side :: Number(phases[t := p], Holding(side)) == Number(phases, Holding(side)) + One(Is(p, Holding(side))) - One(t in phases && Is(phases[t], Holding(side)))
    ensures forall side: Side :: Number(phases[t := p], Waiting(side)) == Number(phases, Waiting(side)) + One(Is(p, Waiting(side))) - One(t in phases && Is(phases[t], Waiting(side)))
  {
    forall side: Side
      ensures Number(phases[t := p], Holding(side)) == Number(phases, Holding(side)) + One(Is(p, Holding(side))) - One(t in phases && Is(phases[t], Holding(side)))
      ensures Number(phases[t := p], Waiting(side)) == Number(phases, Waiting(side)) + One(Is(p, Waiting(side))) - One(t in phases && Is(phases[t], Waiting(side)))
    {
      NumberPut(phases, t, p, Holding(side));
      NumberPut(phases, t, p, Waiting(side));
    }
  }

  lemma PutKeepsListed(sem: P.Sem, phases: map<Tid, Phase>, t: Tid, p: Phase, side: Side)
    requires Listed(sem, phases, side) && !p.Blocked? && !(t in phases && phases[t].Blocked? && phases[t].side == side)
    ensures Listed(sem, phases[t := p], side)
  {
  }

  /** The condition of one side has a new list, thread t a new phase; the other condition has nothing to do with it. */
  lemma OtherListed(sem: P.Sem, phases: map<Tid, Phase>, t: Tid, p: Phase, side: Side)
    requires Listed(sem, phases, side) && t in phases && phases[t].side != side && p.side != side
    ensures Listed(sem, phases[t := p], side)
  {
  }

  /** A waiting thread changes its stage, and its condition's semaphore may change with it. */
  lemma StageKeeps(s: State, r: State, t: Tid, p: Phase, sem: P.Sem)
    requires Inv(s) && t in s.phases && !s.phases[t].Holds? && !p.Holds? && p.side == s.phases[t].side
    requires r == WithCond(s, p.side, sem).(phases := s.phases[t := p])
    requires Listed(sem, s.phases[t := p], p.side)
    ensures Inv(r)
  {
    PutAll(s.phases, t, p);
    if p.side.Read? {
      OtherListed(s.writers, s.phases, t, p, Write);
    } else {
      OtherListed(s.readers, s.phases, t, p, Read);
    }
  }

  lemma BlockedListed(sem: P.Sem, phases: map<Tid, Phase>, t: Tid, side: Side, timed: bool)
    requires Listed(sem, phases, side) && sem.value == 0 && t in phases && !phases[t].Blocked?
    ensures Listed(P.Suspended(sem, t, _ => 0), phases[t := Blocked(side, timed)], side)
  {
    IpcList.SuspendedDistinct(sem.waiters, t, _ => 0, sem.flag);
  }

  lemma SemTakingKeeps(s: State, t: Tid, at_once: bool)
    requires Inv(s) && Enabled(s, SemTake(t, at_once))
    ensures Inv(Step(s, SemTake(t, at_once)).0)
  {
    var (side, timed) := (s.phases[t].side, s.phases[t].timed);
    var (sem, r) := (CondOf(s, side), SemTaking(s, t, side, timed, at_once));
    if P.Tried(sem).1 {
      PutKeepsListed(sem, s.phases, t, Back(side, timed), side);
      StageKeeps(s, r, t, Back(side, timed), P.Tried(sem).0);
    } else if at_once {
      PutKeepsListed(sem, s.phases, t, Late(side), side);
      StageKeeps(s, r, t, Late(side), sem);
    } else {
      BlockedListed(sem, s.phases, t, side, timed);
      StageKeeps(s, r, t, Blocked(side, timed), P.Suspended(sem, t, _ => 0));
    }
  }

  lemma ExpireKeeps(s: State, t: Tid)
    requires Inv(s) && Enabled(s, Expire(t))
    ensures Inv(Step(s, Expire(t)).0)
  {
    var side := s.phases[t].side;
    var sem := CondOf(s, side);
    WithoutDistinct(sem.waiters, IndexOf(sem.waiters, t));
    StageKeeps(s, Step(s, Expire(t)).0, t, Late(side), P.Dropped(sem, t));
  }

  lemma DropAll(phases: map<Tid, Phase>, t: Tid)
    ensures forall side: Side :: Number(phases - {t}, Holding(side)) == Number(phases, Holding(side)) - One(t in phases && Is(phases[t], Holding(side)))
    ensures forall side: Side :: Number(phases - {t}, Waiting(side)) == Number(phases, Waiting(side)) - One(t in phases && Is(phases[t], Waiting(side)))
  {
    forall side: Side
      ensures Number(phases - {t}, Holding(side)) == Number(phases, Holding(side)) - One(t in phases && Is(phases[t], Holding(side)))
      ensures Number(phases - {t}, Waiting(side)) == Number(phases, Waiting(side)) - One(t in phases && Is(phases[t], Waiting(side)))
    {
      NumberDrop(phases, t, Holding(side));
      NumberDrop(phases, t, Waiting(side));
    }
  }

  lemma AgainKeeps(s: State, t: Tid)
    requires Inv(s) && Enabled(s, Again(t))
    ensures Inv(Step(s, Again(t)).0)
  {
    var p := s.phases[t];
    if p.Late? {
      LateKeeps(s, t, Step(s, Again(t)).0);
    } else {
      var r := Counted(s, p.side, -1);
      assert Counted(r, p.side, 1) == s;
      EnteringKeeps(r, t, p.side, p.timed, 1);
    }
  }

  lemma LateKeeps(s: State, t: Tid, r: State)
    requires Inv(s) && t in s.phases && s.phases[t].Late?
    requires r == Counted(s, s.phases[t].side, -1).(phases := s.phases - {t})
    ensures Inv(r)
  {
    DropAll(s.phases, t);
  }

  lemma WokenAll(phases: map<Tid, Phase>, list: seq<Tid>)
    ensures forall side: Side :: Number(Woken(phases, list), Holding(side)) == Number(phases, Holding(side))
    ensures forall side: Side :: Number(Woken(phases, list), Waiting(side)) == Number(phases, Waiting(side))
  {
    forall side: Side
      ensures Number(Woken(phases, list), Holding(side)) == Number(phases, Holding(side))
      ensures Number(Woken(phases, list), Waiting(side)) == Number(phases, Waiting(side))
    {
      NumberWoken(phases, list, Holding(side));
      NumberWoken(phases, list, Waiting(side));
    }
  }

  lemma SignalledKeeps(s: State)
    requires Inv(s)
    ensures Inv(Signalled(s))
  {
    var (sem, woken) := P.Released(s.writers);
    WokenAll(s.phases, if woken.Some? then [woken.value] else []);
    if s.writers.waiters != [] {
      assert sem.waiters == Without(s.writers.waiters, 0);
      WithoutDistinct(s.writers.waiters, 0);
    }
  }

  lemma BroadcastedKeeps(s: State)
    requires Inv(s)
    ensures Inv(Broadcasted(s))
  {
    P.BroadcastWakesAll(s.readers);
    WokenAll(s.phases, s.readers.waiters);
  }

  /** An unlock up to where it looks for somebody to wake. */
  function LetGo(s: State, t: Tid): State {
    s.(refcount := if s.refcount > 0 then s.refcount - 1 else if s.refcount == -1 then 0 else s.refcount,
       phases := s.phases - {t})
  }

  lemma LetGoKeeps(s: State, t: Tid)
    requires Inv(s) && t in s.phases && s.phases[t].Holds?
    ensures Inv(LetGo(s, t)) && s.refcount != 0
  {
    DropAll(s.phases, t);
    assert t in Where(s.phases, Holding(s.phases[t].side));
  }

  lemma UnlockKeeps(s: State, t: Tid)
    requires Inv(s) && Enabled(s, Unlock(t))
    ensures Inv(Unlocked(s, t))
  {
    LetGoKeeps(s, t);
    var u := LetGo(s, t);
    if u.nwaitwriters > 0 && u.refcount == 0 {
      SignalledKeeps(u);
    } else if u.nwaitwriters <= 0 && u.nwaitreaders > 0 {
      BroadcastedKeeps(u);
    }
  }

  /** Every step keeps the lock and its counts right. */
  lemma StepKeepsInv(s: State, op: Op)
    requires Inv(s) && Enabled(s, op)
    ensures Inv(Step(s, op).0)
  {
    match op
    case Lock(t, side, timed) => EnteringKeeps(s, t, side, timed, 0);
    case TryLock(t, side) => if MayEnter(s, side) { EnteringKeeps(s, t, side, false, 0); }
    case SemTake(t, at_once) => SemTakingKeeps(s, t, at_once);
    case Expire(t) => ExpireKeeps(s, t);
    case Again(t) => AgainKeeps(s, t);
    case Unlock(t) => UnlockKeeps(s, t);
  }

  // ----- how each section ends ----------------------------------------------------------------

  /** A reader may go in exactly while no writer is inside and none waits, a writer exactly while nobody is inside. */
  ghost predicate Open(s: State, side: Side) {
    && Number(s.phases, Holding(Write)) == 0
    && if side.Read? then Number(s.phases, Waiting(Write)) == 0 else Number(s.phases, Holding(Read)) == 0
  }

  lemma LockEndsExactly(s: State, op: Op)
    requires Inv(s) && Enabled(s, op) && op.Lock?
    ensures var (r, out) := Step(s, op);
            && (out == Entered <==> Open(s, op.side)) && (out == Waits <==> !Open(s, op.side))
            && r.phases == s.phases[op.t := if Open(s, op.side) then Holds(op.side) else Leaving(op.side, op.timed)]
            && r.readers == s.readers && r.writers == s.writers
  {
  }

  lemma TryLockEndsExactly(s: State, op: Op)
    requires Inv(s) && Enabled(s, op) && op.TryLock?
    ensures var (r, out) := Step(s, op);
            && (out == Entered <==> Open(s, op.side)) && (out == Busy <==> !Open(s, op.side))
            && (out == Entered ==> r.phases == s.phases[op.t := Holds(op.side)] && r.readers == s.readers && r.writers == s.writers)
            && (out == Busy ==> r == s)
  {
  }

  /** A thread back from its wait goes in, or waits again; one whose time is up goes away. */
  lemma AgainEndsExactly(s: State, op: Op)
    requires Inv(s) && Enabled(s, op) && op.Again?
    ensures var (r, out, p) := (Step(s, op).0, Step(s, op).1, s.phases[op.t]);
            && (out == TimedOut <==> p.Late?)
            && (out == Entered <==> p.Back? && Open(s, p.side)) && (out == Waits <==> p.Back? && !Open(s, p.side))
            && r.phases == (if p.Late? then s.phases - {op.t} else s.phases[op.t := if Open(s, p.side) then Holds(p.side) else Leaving(p.side, p.timed)])
            && r.readers == s.readers && r.writers == s.writers
  {
  }

  /** A wake-up that is there is taken; otherwise the thread sleeps, unless its time has passed already. */
  lemma SemTakeEndsExactly(s: State, op: Op)
    requires Inv(s) && Enabled(s, op) && op.SemTake?
    ensures var (r, p) := (Step(s, op).0, s.phases[op.t]);
            var there := CondOf(s, p.side).value > 0;
            && r.phases == s.phases[op.t := if there then Back(p.side, p.timed) else if op.at_once then Late(p.side) else Blocked(p.side, p.timed)]
            && CondOf(r, p.side).value == (if there then CondOf(s, p.side).value - 1 else 0)
            && (op.t in CondOf(r, p.side).waiters <==> !there && !op.at_once)
            && (if p.side.Read? then r.writers == s.writers else r.readers == s.readers)
            && r.refcount == s.refcount && r.nwaitreaders == s.nwaitreaders && r.nwaitwriters == s.nwaitwriters
  {
  }

  lemma ExpireEndsExactly(s: State, t: Tid, u: Tid)
    requires Inv(s) && Enabled(s, Expire(t))
    ensures var (r, p) := (Step(s, Expire(t)).0, s.phases[t]);
            && r.phases == s.phases[t := Late(p.side)] && CondOf(r, p.side).value == CondOf(s, p.side).value
            && (u in CondOf(r, p.side).waiters <==> u in CondOf(s, p.side).waiters && u != t)
            && r.refcount == s.refcount && r.nwaitreaders == s.nwaitreaders && r.nwaitwriters == s.nwaitwriters
  {
    var sem := CondOf(s, s.phases[t].side);
    WithoutDistinct(sem.waiters, IndexOf(sem.waiters, t));
  }

  /** The unlock leaves nobody inside. */
  ghost predicate LastOut(s: State, t: Tid) {
    Number(s.phases, Holding(Read)) + Number(s.phases, Holding(Write)) == 1
  }

  /** An unlock wakes a writer: writers wait, and nobody is left inside. */
  ghost predicate ForWriter(s: State, t: Tid) {
    Number(s.phases, Waiting(Write)) > 0 && LastOut(s, t)
  }

  /**
   An unlock wakes the first sleeping writer if writers wait and nobody is left inside, all sleeping readers if only
   readers wait, and nobody otherwise.
   */
  lemma UnlockEndsExactly(s: State, t: Tid, u: Tid)
    requires Inv(s) && Enabled(s, Unlock(t)) && u in s.phases && u != t
    ensures var r := Step(s, Unlock(t)).0;
            && t !in r.phases && u in r.phases
            && r.phases[u] == (if (ForWriter(s, t) && s.writers.waiters != [] && u == s.writers.waiters[0])
                                  || (Number(s.phases, Waiting(Write)) == 0 && s.phases[u].Blocked? && s.phases[u].side == Read)
                               then Back(s.phases[u].side, s.phases[u].timed) else s.phases[u])
  {
    OneOut(s, t);
    P.BroadcastWakesAll(s.readers);
    BlockedWaits(s, u);
    assert s.writers.waiters != [] ==> s.writers.waiters[0] in s.writers.waiters;
  }

  /** A wake-up nobody sleeps for stays in the writers' semaphore. */
  lemma UnlockLeavesWriters(s: State, t: Tid)
    requires Inv(s) && Enabled(s, Unlock(t))
    ensures Step(s, Unlock(t)).0.writers ==
            if !ForWriter(s, t) then s.writers
            else if s.writers.waiters != [] then s.writers.(waiters := s.writers.waiters[1..])
            else s.writers.(value := if s.writers.value == P.VALUES - 1 then 0 else s.writers.value + 1)
  {
    OneOut(s, t);
  }

  lemma BlockedWaits(s: State, u: Tid)
    requires Inv(s) && u in s.phases
    ensures s.phases[u].Blocked? && s.phases[u].side == Read ==> s.nwaitreaders > 0 && u in s.readers.waiters
  {
    assert s.phases[u].Blocked? && s.phases[u].side == Read ==> u in Where(s.phases, Waiting(Read));
  }

  /** The readers' semaphore changes exactly if readers wait and no writer does: its list is emptied, and one wake-up is left in it at least. */
  lemma UnlockLeavesReaders(s: State, t: Tid)
    requires Inv(s) && Enabled(s, Unlock(t))
    ensures Step(s, Unlock(t)).0.readers ==
            if Number(s.phases, Waiting(Write)) == 0 && Number(s.phases, Waiting(Read)) > 0
            then s.readers.(waiters := [], value := if s.readers.value == 0 then 1 else s.readers.value) else s.readers
  {
    P.BroadcastWakesAll(s.readers);
  }

  lemma OneOut(s: State, t: Tid)
    requires Inv(s) && Enabled(s, Unlock(t))
    ensures LastOut(s, t) <==> LetGo(s, t).refcount == 0
  {
    LetGoKeeps(s, t);
    assert t in Where(s.phases, Holding(s.phases[t].side));
  }

  // ----- nobody is left asleep ----------------------------------------------------------------

  ghost predicate SomeBack(phases: map<Tid, Phase>, side: Side) {
    exists t :: t in phases && phases[t].Back? && phases[t].side == side
  }

  /** Somebody is on the way to sleep, or asleep. */
  ghost predicate SomeAsleep(phases: map<Tid, Phase>, side: Side) {
    exists t :: t in phases && (phases[t].Leaving? || phases[t].Blocked?) && phases[t].side == side
  }

  /**
   Threads of this side sleep although nobody is inside and, for readers, no writer waits; and nobody has been or
   can be woken: only a newcomer's lock and unlock can help them.
   */
  ghost predicate Deserted(s: State, side: Side) {
    && SomeAsleep(s.phases, side) && s.refcount == 0 && (side.Read? ==> s.nwaitwriters <= 0)
    && !SomeBack(s.phases, side) && CondOf(s, side).value == 0
  }

  /** The lock becomes free for a waiting writer, but the wake-up is lost in an overflow of the 16-bit semaphore. */
  ghost predicate Overflows(s: State, op: Op) {
    && op.Unlock? && (s.refcount == 1 || s.refcount == -1) && s.nwaitwriters > 0 && Full(s)
  }

  /** The step leaves threads of this side behind. */
  ghost predicate Forsakes(s: State, op: Op, side: Side) {
    if side.Read? then Strands(s, op) else Overflows(s, op)
  }

  /** The last waiting writer gives up, its time being over, while nobody is inside and readers wait only for it. */
  ghost predicate Strands(s: State, op: Op) {
    && op.Again? && op.t in s.phases && s.phases[op.t] == Late(Write) && s.refcount == 0 && s.nwaitwriters == 1
    && SomeAsleep(s.phases, Read) && !SomeBack(s.phases, Read) && s.readers.value == 0
  }

  /** Somebody comes in, or joins those who wait for somebody inside. */
  lemma EnteringDeserts(s: State, t: Tid, side: Side, timed: bool, x: Side)
    requires Listed(s.readers, s.phases, Read) && Listed(s.writers, s.phases, Write)
    requires s.refcount >= -1 && !Deserted(s, x) && (t in s.phases ==> s.phases[t].Back? && s.phases[t].side == side)
    requires s.nwaitwriters >= Number(s.phases, Waiting(Write)) - One(t in s.phases && Is(s.phases[t], Waiting(Write)))
    ensures !Deserted(Entering(s, t, side, timed).0, x)
  {
    var r := Entering(s, t, side, timed).0;
    if !MayEnter(s, side) && s.refcount == 0 && Deserted(r, x) {
      assert side.Read? && x.Write?;
      StaysAsleep(s.phases, t, Leaving(side, timed), x);
    }
  }

  /** What a change of one thread's phase means for the others of a side. */
  lemma StaysAsleep(phases: map<Tid, Phase>, t: Tid, p: Phase, x: Side)
    requires p.side != x && (t in phases ==> phases[t].side != x)
    ensures SomeAsleep(phases[t := p], x) <==> SomeAsleep(phases, x)
    ensures SomeBack(phases[t := p], x) <==> SomeBack(phases, x)
  {
    assert forall u :: u != t ==> (u in phases[t := p] <==> u in phases) && (u in phases ==> phases[t := p][u] == phases[u]);
  }

  lemma SemTakingDeserts(s: State, t: Tid, at_once: bool, x: Side)
    requires Inv(s) && Enabled(s, SemTake(t, at_once)) && !Deserted(s, x)
    ensures !Deserted(Step(s, SemTake(t, at_once)).0, x)
  {
    var (side, timed) := (s.phases[t].side, s.phases[t].timed);
    var r := SemTaking(s, t, side, timed, at_once);
    var p := r.phases[t];
    assert r.phases == s.phases[t := p];
    if side != x {
      StaysAsleep(s.phases, t, p, x);
    } else {
      OwnSideTakes(s, t, p, r, at_once);
    }
  }

  /** Whoever has been woken stays woken, and t itself may now be. */
  lemma OwnSideTakes(s: State, t: Tid, p: Phase, r: State, at_once: bool)
    requires Inv(s) && Enabled(s, SemTake(t, at_once)) && !Deserted(s, s.phases[t].side)
    requires r == SemTaking(s, t, s.phases[t].side, s.phases[t].timed, at_once) && r.phases == s.phases[t := p]
    ensures !Deserted(r, s.phases[t].side)
  {
    var x := s.phases[t].side;
    assert SomeAsleep(s.phases, x);
    if SomeBack(s.phases, x) {
      var u :| u in s.phases && s.phases[u].Back? && s.phases[u].side == x;
      assert r.phases[u].Back? && r.phases[u].side == x;
    } else if p.Back? {
      assert t in r.phases && r.phases[t].Back?;
    }
  }

  lemma ExpireDeserts(s: State, t: Tid, x: Side)
    requires Inv(s) && Enabled(s, Expire(t)) && !Deserted(s, x)
    ensures !Deserted(Step(s, Expire(t)).0, x)
  {
    var (side, r) := (s.phases[t].side, Step(s, Expire(t)).0);
    assert r.phases == s.phases[t := Late(side)];
    if side != x {
      StaysAsleep(s.phases, t, Late(side), x);
    } else {
      assert SomeAsleep(s.phases, x);
      if SomeBack(s.phases, x) {
        var u :| u in s.phases && s.phases[u].Back? && s.phases[u].side == x;
        assert r.phases[u].Back? && r.phases[u].side == x;
      }
    }
  }

  /** A thread that neither sleeps nor has been woken goes: the others stay as they are. */
  lemma Gone(phases: map<Tid, Phase>, t: Tid, x: Side)
    requires t in phases && (phases[t].Late? || phases[t].Holds?)
    ensures SomeAsleep(phases - {t}, x) <==> SomeAsleep(phases, x)
    ensures SomeBack(phases - {t}, x) <==> SomeBack(phases, x)
  {
    assert forall u :: u != t && u in phases ==> u in phases - {t} && (phases - {t})[u] == phases[u];
  }

  lemma LateDeserts(s: State, t: Tid, x: Side)
    requires Inv(s) && Enabled(s, Again(t)) && s.phases[t].Late? && !Deserted(s, x)
    ensures Deserted(Step(s, Again(t)).0, x) <==> x.Read? && Strands(s, Again(t))
  {
    Gone(s.phases, t, x);
  }

  /** The 16 bits of the writers' semaphore are full, and a writer sleeps that is not on its list yet. */
  ghost predicate Full(s: State) {
    && s.writers.waiters == [] && s.writers.value == P.VALUES - 1
    && SomeAsleep(s.phases, Write) && !SomeBack(s.phases, Write)
  }

  /** A wake-up reaches somebody who sleeps, or stays in the semaphore, unless it overflows it. */
  lemma SignalledWakes(s: State)
    requires Inv(s) && s.refcount == 0
    ensures Deserted(Signalled(s), Write) <==> Full(s)
    ensures Deserted(Signalled(s), Read) ==> Deserted(s, Read)
  {
    var r := Signalled(s);
    if s.writers.waiters == [] {
      assert Woken(s.phases, []) == s.phases;
    } else {
      var u := s.writers.waiters[0];
      assert u in s.writers.waiters;
      assert u in r.phases && r.phases[u].Back? && r.phases[u].side == Write;
    }
    assert forall u :: u in s.phases && s.phases[u].side == Read ==> r.phases[u] == s.phases[u];
    if Deserted(r, Read) {
      var v :| v in r.phases && (r.phases[v].Leaving? || r.phases[v].Blocked?) && r.phases[v].side == Read;
      assert s.phases[v] == r.phases[v];
    }
  }

  lemma BroadcastedWakes(s: State)
    requires Inv(s)
    ensures !Deserted(Broadcasted(s), Read) && (Deserted(Broadcasted(s), Write) ==> Deserted(s, Write))
  {
    P.BroadcastWakesAll(s.readers);
    var r := Broadcasted(s);
    assert forall u :: u in s.phases && s.phases[u].side == Write ==> r.phases[u] == s.phases[u];
    if Deserted(r, Write) {
      var v :| v in r.phases && (r.phases[v].Leaving? || r.phases[v].Blocked?) && r.phases[v].side == Write;
      assert s.phases[v] == r.phases[v];
    }
  }

  lemma NobodyWaits(s: State, x: Side)
    requires Inv(s) && (if x.Read? then s.nwaitreaders else s.nwaitwriters) <= 0
    ensures !SomeAsleep(s.phases, x)
  {
    if SomeAsleep(s.phases, x) {
      AsleepCounts(s.phases, x);
    }
  }

  lemma AsleepCounts(phases: map<Tid, Phase>, x: Side)
    requires SomeAsleep(phases, x)
    ensures Number(phases, Waiting(x)) > 0
  {
    var t :| t in phases && (phases[t].Leaving? || phases[t].Blocked?) && phases[t].side == x;
    assert t in Where(phases, Waiting(x));
  }

  lemma UnlockDeserts(s: State, t: Tid, x: Side)
    requires Inv(s) && Enabled(s, Unlock(t)) && !Deserted(s, x)
    ensures Deserted(Unlocked(s, t), x) <==> x.Write? && Overflows(s, Unlock(t))
  {
    LetGoKeeps(s, t);
    var u := LetGo(s, t);
    Gone(s.phases, t, Read);
    Gone(s.phases, t, Write);
    if u.nwaitwriters > 0 && u.refcount == 0 {
      SignalledWakes(u);
    } else if u.nwaitwriters <= 0 {
      NobodyWaits(u, Write);
      if u.nwaitreaders > 0 {
        BroadcastedWakes(u);
      } else {
        NobodyWaits(u, Read);
      }
    }
  }

  /**
   A step leaves waiting readers behind exactly when the last waiting writer gives up while they wait only for it,
   and waiting writers exactly when a wake-up overflows the semaphore's 16 bits.
   */
  lemma StepDesertsExactly(s: State, op: Op, x: Side)
    requires Inv(s) && Enabled(s, op) && !Deserted(s, x)
    ensures Deserted(Step(s, op).0, x) <==> Forsakes(s, op, x)
  {
    match op
    case Lock(t, side, timed) => EnteringDeserts(s, t, side, timed, x);
    case TryLock(t, side) => if MayEnter(s, side) { EnteringDeserts(s, t, side, false, x); }
    case SemTake(t, at_once) => SemTakingDeserts(s, t, at_once, x);
    case Expire(t) => ExpireDeserts(s, t, x);
    case Again(t) =>
      if s.phases[t].Late? {
        LateDeserts(s, t, x);
      } else {
        AgainDeserts(s, t, x);
      }
    case Unlock(t) => UnlockDeserts(s, t, x);
  }

  lemma AgainDeserts(s: State, t: Tid, x: Side)
    requires Inv(s) && Enabled(s, Again(t)) && s.phases[t].Back? && !Deserted(s, x)
    ensures !Deserted(Step(s, Again(t)).0, x)
  {
    var (p, r) := (s.phases[t], Counted(s, s.phases[t].side, -1));
    var r' := Entering(r, t, p.side, p.timed).0;
    if !MayEnter(r, p.side) && s.refcount == 0 && Deserted(r', x) {
      assert p.side.Read? && x.Write?;
      StaysAsleep(s.phases, t, Leaving(p.side, p.timed), x);
    }
  }

  // ----- whole runs ---------------------------------------------------------------------------

  ghost predicate Leads(s: State, ops: seq<Op>, r: State)
    decreases |ops|
  {
    if ops == [] then s == r else Enabled(s, ops[0]) && Leads(Step(s, ops[0]).0, ops[1..], r)
  }

  /** No step of the run leaves threads of this side behind. */
  ghost predicate NeverForsakes(s: State, ops: seq<Op>, side: Side)
    decreases |ops|
  {
    ops == [] || !Enabled(s, ops[0]) || (!Forsakes(s, ops[0], side) && NeverForsakes(Step(s, ops[0]).0, ops[1..], side))
  }

  lemma {:induction false} RunKeepsInv(s: State, ops: seq<Op>, r: State)
    requires Inv(s) && Leads(s, ops, r)
    ensures Inv(r)
    decreases |ops|
  {
    if ops != [] {
      StepKeepsInv(s, ops[0]);
      RunKeepsInv(Step(s, ops[0]).0, ops[1..], r);
    }
  }

  lemma {:induction false} RunDeserts(s: State, ops: seq<Op>, r: State, x: Side)
    requires Inv(s) && Leads(s, ops, r) && !Deserted(s, x) && NeverForsakes(s, ops, x)
    ensures !Deserted(r, x)
    decreases |ops|
  {
    if ops != [] {
      StepKeepsInv(s, ops[0]);
      StepDesertsExactly(s, ops[0], x);
      RunDeserts(Step(s, ops[0]).0, ops[1..], r, x);
    }
  }

  /**
   In every state any interleaving can reach: either one writer is inside and no reader, or n readers and no writer;
   the counts of waiting threads are right; and nobody is left behind, unless the last waiting writer once gave up
   while readers waited for it, or 65536 wake-ups were waiting for one writer.
   */
  lemma ReachableLock(ops: seq<Op>, r: State, x: Side)
    requires Leads(Init(), ops, r)
    ensures var (inside, writing) := (Number(r.phases, Holding(Read)), Number(r.phases, Holding(Write)));
            (r.refcount == -1 && writing == 1 && inside == 0) || (r.refcount == inside && writing == 0)
    ensures r.nwaitreaders == Number(r.phases, Waiting(Read)) && r.nwaitwriters == Number(r.phases, Waiting(Write))
    ensures NeverForsakes(Init(), ops, x) ==> !Deserted(r, x)
  {
    var s := Init();
    assert Where(s.phases, Holding(Read)) == {} && Where(s.phases, Holding(Write)) == {};
    assert Where(s.phases, Waiting(Read)) == {} && Where(s.phases, Waiting(Write)) == {};
    RunKeepsInv(s, ops, r);
    if NeverForsakes(s, ops, x) {
      RunDeserts(s, ops, r, x);
    }
  }

  /** A reader gets in only while no writer waits, and nobody gets in beside a writer. */
  lemma WritersFirst(s: State, op: Op)
    requires Inv(s) && Enabled(s, op)
    ensures var r := Step(s, op).0;
            && (Number(r.phases, Holding(Read)) > Number(s.phases, Holding(Read)) ==> Number(s.phases, Waiting(Write)) == 0 && s.refcount >= 0)
            && (Number(r.phases, Holding(Write)) > Number(s.phases, Holding(Write)) ==> s.refcount == 0)
  {
    StepKeepsInv(s, op);
  }

  // ----- timeouts between the turns of the broadcast ------------------------------------------

  /** The time of these waiting readers is up, one after the other. */
  function Lates(phases: map<Tid, Phase>, late: seq<Tid>): map<Tid, Phase>
    decreases |late|
  {
    if late == [] then phases else Lates(phases[late[0] := Late(Read)], late[1..])
  }

  function Expires(late: seq<Tid>): seq<Op> {
    if late == [] then [] else [Expire(late[0])] + Expires(late[1..])
  }

  ghost predicate Timed(phases: map<Tid, Phase>, late: seq<Tid>) {
    forall t :: t in late ==> t in phases && phases[t] == Blocked(Read, true)
  }

  /** The lock once they have left the list. */
  function Thinned(s: State, late: seq<Tid>): State
    requires P.Leave(s.readers, late)
  {
    s.(readers := P.Thinned(s.readers, late), phases := Lates(s.phases, late))
  }

  lemma FirstIsLate(s: State, late: seq<Tid>, rest: seq<Tid>, t: Tid, s1: State)
    requires P.Leave(s.readers, late) && Timed(s.phases, late) && Distinct(late) && late != [] && t == late[0] && rest == late[1..]
    requires s1 == s.(readers := P.Dropped(s.readers, t), phases := s.phases[t := Late(Read)])
    ensures Enabled(s, Expire(t)) && Step(s, Expire(t)).0 == s1
    ensures Distinct(rest) && P.Leave(s1.readers, rest) && Timed(s1.phases, rest) && Thinned(s1, rest) == Thinned(s, late)
  {
    assert t in late && t !in rest;
  }

  /** Once they are late, the rest of the run goes on from there. */
  lemma {:induction false} ExpiresLead(s: State, late: seq<Tid>, ops: seq<Op>, r: State)
    requires P.Leave(s.readers, late) && Timed(s.phases, late) && Distinct(late)
    requires Leads(Thinned(s, late), ops, r)
    ensures Leads(s, Expires(late) + ops, r)
    decreases |late|
  {
    if late == [] {
      assert Expires(late) == [] && [] + ops == ops;
    } else {
      var t, rest := late[0], late[1..];
      var all := Expires(rest) + ops;
      assert Expires(late) + ops == [Expire(t)] + all;
      var s1 := s.(readers := P.Dropped(s.readers, t), phases := s.phases[t := Late(Read)]);
      FirstIsLate(s, late, rest, t, s1);
      ExpiresLead(s1, rest, ops, r);
      LeadsOn(s, Expire(t), s1, all, r);
    }
  }

  lemma {:induction false} LatesElsewhere(phases: map<Tid, Phase>, late: seq<Tid>, t: Tid)
    requires t in phases && t !in late
    ensures t in Lates(phases, late) && Lates(phases, late)[t] == phases[t]
    ensures Lates(phases, late) - {t} == Lates(phases - {t}, late)
    decreases |late|
  {
    if late != [] {
      assert phases[late[0] := Late(Read)] - {t} == (phases - {t})[late[0] := Late(Read)];
      LatesElsewhere(phases[late[0] := Late(Read)], late[1..], t);
    }
  }

  /** An unlock that is going to wake the readers. */
  ghost predicate WakesReaders(s: State, t: Tid) {
    Enabled(s, Unlock(t)) && s.nwaitwriters <= 0 && s.nwaitreaders > 0
  }

  /** What it comes to when the loop of the broadcast ended as l, with timeouts between its turns. */
  function UnlockedSlowly(s: State, t: Tid, l: P.Loop): State {
    LetGo(s, t).(readers := l.sem, phases := Woken(Lates(s.phases - {t}, l.late), l.woken))
  }

  /** Nothing that a run of whole steps does not come to as well: the timeouts first, then the unlock. */
  lemma InterruptedUnlock(s: State, t: Tid, events: seq<P.Event>, l: P.Loop)
    requires Inv(s) && WakesReaders(s, t) && P.Loops(P.Start(s.readers), events, l) && l.next.Done?
    requires Timed(s.phases, l.late)
    ensures Leads(s, Expires(l.late) + [Unlock(t)], UnlockedSlowly(s, t, l))
  {
    P.InterruptedBroadcast(s.readers, events, l);
    P.LeaveOnce(s.readers, l.late);
    var s1 := Thinned(s, l.late);
    LatesElsewhere(s.phases, l.late, t);
    assert Unlocked(s1, t) == UnlockedSlowly(s, t, l);
    LeadsOn(s1, Unlock(t), UnlockedSlowly(s, t, l), [], UnlockedSlowly(s, t, l));
    assert [Unlock(t)] + [] == [Unlock(t)];
    ExpiresLead(s, l.late, [Unlock(t)], UnlockedSlowly(s, t, l));
  }

  // ----- why the conditions are needed ----------------------------------------------------------

  const IDLE := P.Sem(Fifo, 0, [])
  const READER := Holds(Read)
  const WRITER := Leaving(Write, true)
  const LATE := Late(Write)
  const ASLEEP := Blocked(Read, false)

  lemma LeadsOn(s: State, op: Op, next: State, ops: seq<Op>, r: State)
    requires Enabled(s, op) && Step(s, op).0 == next && Leads(next, ops, r)
    ensures Leads(s, [op] + ops, r)
  {
    assert ([op] + ops)[1..] == ops;
  }

  /** Thread 1 reads; thread 2 wants to write and its time is up; thread 3 wants to read and goes to sleep behind it. */
  function Crossing(): State {
    State(1, 1, 1, P.Sem(Fifo, 0, [3]), IDLE, map[1 := READER, 2 := LATE, 3 := ASLEEP])
  }

  function WriterLate(): State {
    State(1, 0, 1, IDLE, IDLE, map[1 := READER, 2 := LATE])
  }

  lemma WriterIsLate()
    ensures Leads(WriterLate(), [], WriterLate())
    ensures Step(State(1, 0, 1, IDLE, IDLE, map[1 := READER, 2 := WRITER]), SemTake(2, true)).0 == WriterLate()
    ensures Step(State(1, 0, 0, IDLE, IDLE, map[1 := READER]), Lock(2, Write, true)).0 == State(1, 0, 1, IDLE, IDLE, map[1 := READER, 2 := WRITER])
    ensures Step(Init(), Lock(1, Read, false)).0 == State(1, 0, 0, IDLE, IDLE, map[1 := READER])
  {
    assert map[][1 := READER] == map[1 := READER] && map[1 := READER][2 := WRITER] == map[1 := READER, 2 := WRITER];
    assert map[1 := READER, 2 := WRITER][2 := LATE] == WriterLate().phases;
  }

  lemma ReaderFallsAsleep()
    ensures Leads(WriterLate(), [Lock(3, Read, false)] + [SemTake(3, false)], Crossing())
  {
    var s := State(1, 1, 1, IDLE, IDLE, map[1 := READER, 2 := LATE, 3 := Leaving(Read, false)]);
    assert WriterLate().phases[3 := Leaving(Read, false)] == s.phases && s.phases[3 := ASLEEP] == Crossing().phases;
    assert IpcList.Suspended([], 3, _ => 0, Fifo) == [3];
    assert [SemTake(3, false)] + [] == [SemTake(3, false)];
    LeadsOn(s, SemTake(3, false), Crossing(), [], Crossing());
    LeadsOn(WriterLate(), Lock(3, Read, false), s, [SemTake(3, false)], Crossing());
  }

  lemma CrossingIsReachable()
    ensures Leads(Init(), [Lock(1, Read, false)] + ([Lock(2, Write, true)] + ([SemTake(2, true)] + ([Lock(3, Read, false)] + [SemTake(3, false)]))), Crossing())
  {
    var (s1, s2) := (State(1, 0, 0, IDLE, IDLE, map[1 := READER]), State(1, 0, 1, IDLE, IDLE, map[1 := READER, 2 := WRITER]));
    var end := [Lock(3, Read, false)] + [SemTake(3, false)];
    ReaderFallsAsleep();
    WriterIsLate();
    LeadsOn(s2, SemTake(2, true), WriterLate(), end, Crossing());
    LeadsOn(s1, Lock(2, Write, true), s2, [SemTake(2, true)] + end, Crossing());
    LeadsOn(Init(), Lock(1, Read, false), s1, [Lock(2, Write, true)] + ([SemTake(2, true)] + end), Crossing());
  }

  /** Thread 1 lets go and wakes nobody but the writer; the writer gives up: thread 3 sleeps on though nobody is inside. */
  lemma ReaderIsStranded()
    ensures var lost := State(0, 1, 0, P.Sem(Fifo, 0, [3]), P.Sem(Fifo, 1, []), map[3 := ASLEEP]);
            Leads(Crossing(), [Unlock(1)] + [Again(2)], lost) && Deserted(lost, Read)
  {
    var s1 := State(0, 1, 1, P.Sem(Fifo, 0, [3]), P.Sem(Fifo, 1, []), map[2 := LATE, 3 := ASLEEP]);
    var lost := State(0, 1, 0, P.Sem(Fifo, 0, [3]), P.Sem(Fifo, 1, []), map[3 := ASLEEP]);
    assert Crossing().phases - {1} == s1.phases && s1.phases - {2} == lost.phases;
    assert Woken(s1.phases, []) == s1.phases;
    assert [Again(2)] + [] == [Again(2)];
    LeadsOn(s1, Again(2), lost, [], lost);
    LeadsOn(Crossing(), Unlock(1), s1, [Again(2)], lost);
    assert 3 in lost.phases && lost.phases[3].Blocked?;
  }

  /** Writer 2 has counted itself and not yet gone to sleep; n wake-ups wait for it. Thread 3 writes in between. */
  function Pumped(n: nat): State {
    State(0, 0, 1, IDLE, P.Sem(Fifo, n, []), map[2 := Leaving(Write, false)])
  }

  function Pumping(n: nat): State {
    State(-1, 0, 1, IDLE, P.Sem(Fifo, n, []), map[2 := Leaving(Write, false), 3 := Holds(Write)])
  }

  /** Thread 3 takes the lock and lets it go, n times. */
  function Pumps(n: nat): seq<Op> {
    if n == 0 then [] else [TryLock(3, Write)] + ([Unlock(3)] + Pumps(n - 1))
  }

  lemma PumpEnters(k: nat)
    ensures Enabled(Pumped(k), TryLock(3, Write)) && Step(Pumped(k), TryLock(3, Write)).0 == Pumping(k)
  {
    assert Pumped(k).phases[3 := Holds(Write)] == Pumping(k).phases;
  }

  lemma PumpLeaves(k: nat)
    requires k + 1 < P.VALUES
    ensures Enabled(Pumping(k), Unlock(3)) && Step(Pumping(k), Unlock(3)).0 == Pumped(k + 1)
  {
    assert Pumping(k).phases - {3} == Pumped(k).phases;
    assert Woken(Pumped(k).phases, []) == Pumped(k).phases;
  }

  lemma {:induction false} PumpsLead(k: nat, n: nat, ops: seq<Op>, r: State)
    requires k + n < P.VALUES && Leads(Pumped(k + n), ops, r)
    ensures Leads(Pumped(k), Pumps(n) + ops, r)
    decreases n
  {
    if n == 0 {
      assert [] + ops == ops;
    } else {
      PumpsLead(k + 1, n - 1, ops, r);
      OnePump(k, Pumps(n - 1) + ops, r);
      PumpsJoin(n, Pumps(n - 1), ops);
    }
  }

  lemma PumpsJoin(n: nat, rest: seq<Op>, ops: seq<Op>)
    requires n > 0 && rest == Pumps(n - 1)
    ensures Pumps(n) + ops == [TryLock(3, Write)] + ([Unlock(3)] + (rest + ops))
  {
  }

  lemma OnePump(k: nat, rest: seq<Op>, r: State)
    requires k + 1 < P.VALUES && Leads(Pumped(k + 1), rest, r)
    ensures Leads(Pumped(k), [TryLock(3, Write)] + ([Unlock(3)] + rest), r)
  {
    PumpEnters(k);
    PumpLeaves(k);
    LeadsOn(Pumping(k), Unlock(3), Pumped(k + 1), rest, r);
    LeadsOn(Pumped(k), TryLock(3, Write), Pumping(k), [Unlock(3)] + rest, r);
  }

  lemma WriterCountsItself(ops: seq<Op>, r: State)
    requires Leads(Pumped(1), ops, r)
    ensures Leads(Init(), [Lock(1, Read, false)] + ([Lock(2, Write, false)] + ([Unlock(1)] + ops)), r)
  {
    var s1 := State(1, 0, 0, IDLE, IDLE, map[1 := READER]);
    var s2 := State(1, 0, 1, IDLE, IDLE, map[1 := READER, 2 := Leaving(Write, false)]);
    FirstWakeUp(s1, s2);
    LeadsOn(s2, Unlock(1), Pumped(1), ops, r);
    LeadsOn(s1, Lock(2, Write, false), s2, [Unlock(1)] + ops, r);
    LeadsOn(Init(), Lock(1, Read, false), s1, [Lock(2, Write, false)] + ([Unlock(1)] + ops), r);
  }

  lemma FirstWakeUp(s1: State, s2: State)
    requires s1 == State(1, 0, 0, IDLE, IDLE, map[1 := READER])
    requires s2 == State(1, 0, 1, IDLE, IDLE, map[1 := READER, 2 := Leaving(Write, false)])
    ensures Step(Init(), Lock(1, Read, false)).0 == s1 && Step(s1, Lock(2, Write, false)).0 == s2
    ensures Enabled(s2, Unlock(1)) && Step(s2, Unlock(1)).0 == Pumped(1)
  {
    assert map[][1 := READER] == s1.phases && s1.phases[2 := Leaving(Write, false)] == s2.phases;
    assert s2.phases - {1} == Pumped(1).phases && Woken(Pumped(1).phases, []) == Pumped(1).phases;
  }

  /** A run of 65535 wake-ups on the way to sleep leads to where the next unlock leaves the writer behind. */
  lemma OverflowIsReachable(n: nat)
    requires n + 2 == P.VALUES
    ensures var full := Pumping(n + 1);
            Leads(Init(), [Lock(1, Read, false)] + ([Lock(2, Write, false)] + ([Unlock(1)] + (Pumps(n) + [TryLock(3, Write)]))), full) &&
            Enabled(full, Unlock(3)) && Overflows(full, Unlock(3)) && Deserted(Step(full, Unlock(3)).0, Write)
  {
    var full := Pumping(n + 1);
    PumpEnters(n + 1);
    assert [TryLock(3, Write)] + [] == [TryLock(3, Write)];
    LeadsOn(Pumped(n + 1), TryLock(3, Write), full, [], full);
    PumpsLead(1, n, [TryLock(3, Write)], full);
    WriterCountsItself(Pumps(n) + [TryLock(3, Write)], full);
    PumpOverflows(full, Step(full, Unlock(3)).0);
  }

  lemma PumpOverflows(full: State, lost: State)
    requires full == Pumping(P.VALUES - 1) && Enabled(full, Unlock(3)) && lost == Step(full, Unlock(3)).0
    ensures Overflows(full, Unlock(3)) && Deserted(lost, Write)
  {
    assert full.phases - {3} == Pumped(0).phases && Woken(Pumped(0).phases, []) == Pumped(0).phases;
    assert lost == Pumped(0);
    assert 2 in full.phases && full.phases[2].Leaving? && 2 in lost.phases && lost.phases[2].Leaving?;
  }
}
