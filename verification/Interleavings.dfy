/** Every interleaving of lock, semaphore, sleep, wake, stop, continue, exit and timer steps. */
module Interleavings {
  import opened Machine
  import opened Scheduling

  datatype Op =
    | Spawn(t: Tid)
    | Tick
    | Lock(m: nat)
    | TryLock(m: nat)
    | Unlock(m: nat)
    | SemWait(s: nat)
    | SemTryWait(s: nat)
    | SemPost(s: nat)
    | SleepOther(n: nat)
    | Resume
    | WakeOther(n: nat)
    | WakeAllOther(n: nat)
    | Stop(parent: Option<nat>)
    | Continue(t: Tid)
    | Exit(parent: Option<nat>)

  // ----- mutexes and semaphores -----

  /** A free mutex with waiters has a woken contender; who holds it is who owns it. */
  ghost predicate MutexOk(k: Kernel, m: nat) {
    && (m !in k.owner && k.Queue(MutexQ(m)) != [] ==> Woken(k, MutexQ(m)) != {})
    && (forall t :: (t, m) in k.holders <==> m in k.owner && k.owner[m] == t)
  }

  /** The count balances, and while threads wait there is a woken contender for every unit available. */
  ghost predicate SemOk(k: Kernel, s: nat)
    requires s in k.sems
  {
    var x := k.sems[s];
    && x.count == x.initial + x.posts - x.waits && (x.initial >= 0 ==> x.count >= 0)
    && (k.Queue(SemQ(s)) != [] ==> |Woken(k, SemQ(s))| >= x.count)
  }

  ghost predicate Sync(k: Kernel) {
    && (forall m {:trigger MutexOk(k, m)} :: MutexOk(k, m))
    && (forall s {:trigger SemOk(k, s)} :: s in k.sems ==> SemOk(k, s))
  }

  ghost predicate Inv(k: Kernel) {
    Placed(k) && States(k) && Sync(k)
  }

  // ----- the steps -----

  /** The current thread runs its own code; the idle thread has none that sleeps or locks. */
  predicate Acting(k: Kernel) {
    k.current in k.tstate && k.current in k.pc && k.tstate[k.current] == Running && k.current != k.idle
  }

  predicate At(k: Kernel, pc: Pc) { Acting(k) && k.pc[k.current] == pc }

  function Acquire(k: Kernel, m: nat): Kernel {
    k.(owner := k.owner[m := k.current], holders := k.holders + {(k.current, m)}, pc := k.pc[k.current := Out])
  }

  /** A turn of the loop of `mutex_lock`, whether the first or after a wake-up. */
  function LockStep(k: Kernel, m: nat): Kernel {
    if m in k.owner then Sleep(k, MutexQ(m)) else Acquire(k, m)
  }

  function UnlockStep(k: Kernel, m: nat): Kernel {
    Wake(k.(owner := k.owner - {m}, holders := k.holders - {(k.current, m)}), MutexQ(m))
  }

  function TakeUnit(k: Kernel, s: nat): Kernel
    requires s in k.sems
  {
    var x := k.sems[s];
    k.(sems := k.sems[s := x.(count := x.count - 1, waits := x.waits + 1)], pc := k.pc[k.current := Out])
  }

  /** A turn of the loop of `sem_wait`. */
  function SemWaitStep(k: Kernel, s: nat): Kernel
    requires s in k.sems
  {
    if k.sems[s].count <= 0 then Sleep(k, SemQ(s)) else TakeUnit(k, s)
  }

  function SemPostStep(k: Kernel, s: nat): Kernel
    requires s in k.sems
  {
    var x := k.sems[s];
    Wake(k.(sems := k.sems[s := x.(count := x.count + 1, posts := x.posts + 1)]), SemQ(s))
  }

  function WakeParent(k: Kernel, parent: Option<nat>): Kernel {
    if parent.Some? then Wake(k, OtherQ(parent.value)) else k
  }

  /** `sched_remove_thread` */
  function Without(q: seq<Tid>, t: Tid): seq<Tid> {
    if q == [] then [] else if q[0] == t then q[1..] else [q[0]] + Without(q[1..], t)
  }

  /** The current thread is marked stopped and taken off the run queue, or marked dead. */
  function Frozen(k: Kernel, stopping: bool): Kernel {
    if stopping then
      k.(stopped := k.stopped + {k.current}, tstate := k.tstate[k.current := Stopped], run := Without(k.run, k.current))
    else
      k.(tstate := k.tstate[k.current := Dead])
  }

  /** `sig_stop` up to its final `sched_schedule`. */
  function Halted(k: Kernel, parent: Option<nat>): Kernel { WakeParent(Frozen(k, true), parent) }

  /** `sys_exit` (or `sig_terminate`, which wakes nobody) up to its final `sched_schedule`. */
  function Ended(k: Kernel, parent: Option<nat>): Kernel { Frozen(WakeParent(k, parent), false) }

  predicate Enabled(k: Kernel, op: Op) {
    match op
    case Spawn(t) => t !in k.tstate && t !in k.pc
    case Tick => k.current in k.tstate
    case Lock(m) => At(k, Out) || At(k, Await(MutexQ(m)))
    case TryLock(m) => At(k, Out)
    case Unlock(m) => At(k, Out) && (k.current, m) in k.holders
    case SemWait(s) => s in k.sems && (At(k, Out) || At(k, Await(SemQ(s))))
    case SemTryWait(s) => s in k.sems && At(k, Out)
    case SemPost(s) => s in k.sems && k.sems[s].count < INT32_MAX
    case SleepOther(n) => At(k, Out)
    case Resume => Acting(k) && k.pc[k.current].Await? && k.pc[k.current].w.OtherQ?
    case WakeOther(n) => true
    case WakeAllOther(n) => true
    case Stop(parent) => At(k, Out)
    case Continue(t) => true
    case Exit(parent) => At(k, Out)
  }

  function Apply(k: Kernel, op: Op): Kernel
    requires States(k) && Placed(k) && Enabled(k, op)
  {
    match op
    case Spawn(t) => Add(k.(pc := k.pc[t := Out]), t)
    case Tick => Schedule(k)
    case Lock(m) => LockStep(k, m)
    case TryLock(m) => if m in k.owner then k else Acquire(k, m)
    case Unlock(m) => UnlockStep(k, m)
    case SemWait(s) => SemWaitStep(k, s)
    case SemTryWait(s) => if k.sems[s].count <= 0 then k else TakeUnit(k, s)
    case SemPost(s) => SemPostStep(k, s)
    case SleepOther(n) => Sleep(k, OtherQ(n))
    case Resume => k.(pc := k.pc[k.current := Out])
    case WakeOther(n) => Wake(k, OtherQ(n))
    case WakeAllOther(n) => WakeAll(k, OtherQ(n))
    case Stop(parent) => HaltedKeeps(k, parent); Schedule(Halted(k, parent))
    case Continue(t) => if t in k.stopped then Add(k.(stopped := k.stopped - {t}), t) else k
    case Exit(parent) => EndedKeeps(k, parent); Schedule(Ended(k, parent))
  }

  lemma {:induction false} WithoutAbsent(q: seq<Tid>, t: Tid)
    requires t !in q
    ensures Without(q, t) == q
  {
    if q != [] { WithoutAbsent(q[1..], t); }
  }

  lemma FrozenRun(k: Kernel, stopping: bool)
    requires RunOk(k) && At(k, Out)
    ensures Frozen(k, stopping).run == k.run && RunOk(Frozen(k, stopping))
  {
    assert k.current !in k.run;
    WithoutAbsent(k.run, k.current);
  }

  lemma FrozenStates(k: Kernel, stopping: bool)
    requires States(k) && At(k, Out)
    ensures States(Frozen(k, stopping))
  {
    var k' := Frozen(k, stopping);
    hide Without;
    forall x | x in k'.tstate ensures StateOk(k', x) { assert StateOk(k, x); }
  }

  lemma FrozenWaits(k: Kernel, stopping: bool)
    requires States(k) && At(k, Out)
    ensures forall t, w :: BlockedOn(Frozen(k, stopping), t, w) <==> BlockedOn(k, t, w)
    ensures forall w {:trigger SameAt(k, Frozen(k, stopping), w)} :: SameAt(k, Frozen(k, stopping), w)
  {
    hide StateOk, Without;
  }

  /** The acting thread, outside any sleep loop, is stopped or dies where it stands. */
  lemma FrozenKeeps(k: Kernel, stopping: bool)
    requires Placed(k) && States(k) && At(k, Out)
    ensures var k' := Frozen(k, stopping);
      Placed(k') && States(k') && forall w {:trigger SameAt(k, k', w)} :: SameAt(k, k', w)
  {
    hide RunOk, QueueOk, States, BlockedOn, SameAt, At, Without;
    FrozenRun(k, stopping);
    FrozenStates(k, stopping);
    FrozenWaits(k, stopping);
    QueuesSame(k, Frozen(k, stopping));
  }

  lemma HaltedKeeps(k: Kernel, parent: Option<nat>)
    requires Placed(k) && States(k) && At(k, Out)
    ensures Placed(Halted(k, parent)) && States(Halted(k, parent))
  {
    hide Placed, States, SameAt, Frozen;
    FrozenKeeps(k, true);
    if parent.Some? { WakeKeeps(Frozen(k, true), OtherQ(parent.value)); }
  }

  lemma EndedKeeps(k: Kernel, parent: Option<nat>)
    requires Placed(k) && States(k) && At(k, Out)
    ensures At(WakeParent(k, parent), Out) && Placed(WakeParent(k, parent)) && States(WakeParent(k, parent))
    ensures Placed(Ended(k, parent)) && States(Ended(k, parent))
  {
    if parent.Some? { WakeKeeps(k, OtherQ(parent.value)); WakeActor(k, OtherQ(parent.value)); }
    hide Placed, States, SameAt, Frozen, At;
    FrozenKeeps(WakeParent(k, parent), false);
  }

  /** Waking others does not touch a thread that is running. */
  lemma WakeActor(k: Kernel, w: Wq)
    requires Placed(k) && At(k, Out)
    ensures Wake(k, w).current == k.current && At(Wake(k, w), Out)
  {
    if k.Queue(w) != [] {
      assert QueueOk(k, w) && k.Queue(w)[0] in k.Queue(w);
      assert BlockedOn(k, k.Queue(w)[0], w);
    }
  }

  // ----- every step keeps the invariant -----

  /** The two kernels agree on everything the scheduler reads. */
  ghost predicate SameCore(k: Kernel, k': Kernel) {
    && k'.tstate == k.tstate && k'.pc == k.pc && k'.run == k.run && k'.wait == k.wait
    && k'.current == k.current && k'.idle == k.idle && k'.stopped == k.stopped
  }

  lemma CoreOnly(k: Kernel, k': Kernel)
    requires SameCore(k, k') && Placed(k) && States(k)
    ensures Placed(k') && States(k') && forall w {:trigger SameAt(k, k', w)} :: SameAt(k, k', w)
  {
    assert RunOk(k');
    QueuesSame(k, k');
    forall x | x in k'.tstate ensures StateOk(k', x) { assert StateOk(k, x); }
  }

  /** The acting thread leaves its sleep loop. */
  lemma LeaveLoop(k: Kernel)
    requires Placed(k) && States(k) && Acting(k)
    ensures var k' := k.(pc := k.pc[k.current := Out]);
      && Placed(k') && States(k')
      && (forall w {:trigger SameAt(k, k', w)} :: k.pc[k.current] != Await(w) ==> SameAt(k, k', w))
      && (forall w :: k'.Queue(w) == k.Queue(w) && Woken(k', w) == Woken(k, w) - {k.current})
  {
    var k' := k.(pc := k.pc[k.current := Out]);
    assert RunOk(k');
    QueuesSame(k, k');
    forall x | x in k'.tstate ensures StateOk(k', x) { assert StateOk(k, x); }
  }

  lemma MutexFrame(k: Kernel, k': Kernel, m: nat)
    requires MutexOk(k, m) && SameAt(k, k', MutexQ(m))
    requires (m in k'.owner <==> m in k.owner) && (m in k.owner ==> k'.owner[m] == k.owner[m])
    requires forall t :: (t, m) in k'.holders <==> (t, m) in k.holders
    ensures MutexOk(k', m)
  {
    hide Woken;
  }

  lemma SemFrame(k: Kernel, k': Kernel, s: nat)
    requires s in k.sems && SemOk(k, s) && SameAt(k, k', SemQ(s)) && s in k'.sems && k'.sems[s] == k.sems[s]
    ensures SemOk(k', s)
  {
    hide Woken;
  }

  /** Steps that move no one between waiting and woken and leave the objects alone. */
  lemma SyncFrame(k: Kernel, k': Kernel)
    requires Sync(k) && k'.owner == k.owner && k'.holders == k.holders && k'.sems == k.sems
    requires forall w: Wq {:trigger SameAt(k, k', w)} :: (w.MutexQ? || w.SemQ?) ==> SameAt(k, k', w)
    ensures Sync(k')
  {
    hide SameAt, MutexOk, SemOk;
    forall m ensures MutexOk(k', m) { assert MutexOk(k, m); assert SameAt(k, k', MutexQ(m)); MutexFrame(k, k', m); }
    forall s | s in k'.sems ensures SemOk(k', s) {
      assert SemOk(k, s);
      assert SameAt(k, k', SemQ(s));
      SemFrame(k, k', s);
    }
  }

  lemma SleepSync(k: Kernel, w: Wq)
    requires Inv(k) && (At(k, Out) || At(k, Await(w)))
    requires w.MutexQ? ==> w.m in k.owner
    requires w.SemQ? ==> w.s in k.sems ==> k.sems[w.s].count <= 0
    ensures Inv(Sleep(k, w))
  {
    hide Placed, SameAt, Woken, MutexOk, SemOk;
    var k' := Sleep(k, w);
    SleepKeeps(k, w);
    SleepEffect(k, w);
    forall m ensures MutexOk(k', m) {
      assert MutexOk(k, m);
      if MutexQ(m) != w { assert SameAt(k, k', MutexQ(m)); MutexFrame(k, k', m); } else { OwnedMutex(k, k', m); }
    }
    forall s | s in k'.sems ensures SemOk(k', s) {
      assert SemOk(k, s);
      if SemQ(s) != w { assert SameAt(k, k', SemQ(s)); SemFrame(k, k', s); } else { EmptySem(k, k', s); }
    }
  }

  lemma OwnedMutex(k: Kernel, k': Kernel, m: nat)
    requires MutexOk(k, m) && m in k.owner && k'.owner == k.owner && k'.holders == k.holders
    ensures MutexOk(k', m)
  {
    hide Woken;
  }

  lemma EmptySem(k: Kernel, k': Kernel, s: nat)
    requires s in k.sems && SemOk(k, s) && k'.sems == k.sems && k.sems[s].count <= 0
    ensures SemOk(k', s)
  {
    hide Woken;
  }

  lemma AcquireSync(k: Kernel, m: nat)
    requires Inv(k) && m !in k.owner && (At(k, Out) || At(k, Await(MutexQ(m))))
    ensures Inv(Acquire(k, m))
  {
    hide Placed, States, Woken, MutexOk, SemOk;
    var k1, k' := k.(pc := k.pc[k.current := Out]), Acquire(k, m);
    LeaveLoop(k);
    CoreOnly(k1, k');
    forall n ensures MutexOk(k', n) {
      assert MutexOk(k, n);
      if n != m {
        assert SameAt(k, k1, MutexQ(n)) && SameAt(k1, k', MutexQ(n));
        MutexFrame(k, k', n);
      } else {
        NewOwner(k, k', m);
      }
    }
    forall s | s in k'.sems ensures SemOk(k', s) {
      assert SemOk(k, s);
      assert SameAt(k, k1, SemQ(s)) && SameAt(k1, k', SemQ(s));
      SemFrame(k, k', s);
    }
  }

  lemma NewOwner(k: Kernel, k': Kernel, m: nat)
    requires MutexOk(k, m) && m !in k.owner && k'.owner == k.owner[m := k.current]
      && k'.holders == k.holders + {(k.current, m)}
    ensures MutexOk(k', m)
  {
    hide Woken;
  }

  lemma UnlockSync(k: Kernel, m: nat)
    requires Inv(k) && At(k, Out) && (k.current, m) in k.holders
    ensures Inv(UnlockStep(k, m))
  {
    hide Placed, States, Woken, MutexOk, SemOk, SameAt;
    var k1 := k.(owner := k.owner - {m}, holders := k.holders - {(k.current, m)});
    var k' := Wake(k1, MutexQ(m));
    CoreOnly(k, k1);
    WakeKeeps(k1, MutexQ(m));
    WakeEffect(k1, MutexQ(m));
    forall n ensures MutexOk(k', n) {
      assert MutexOk(k, n);
      if n != m {
        SameTwice(k, k1, k', MutexQ(n));
        MutexFrame(k, k', n);
      } else {
        FreeMutex(k, k1, k', m);
      }
    }
    forall s | s in k'.sems ensures SemOk(k', s) {
      assert SemOk(k, s);
      SameTwice(k, k1, k', SemQ(s));
      SemFrame(k, k', s);
    }
  }

  lemma SameTwice(k: Kernel, k1: Kernel, k2: Kernel, w: Wq)
    requires SameAt(k, k1, w) && SameAt(k1, k2, w)
    ensures SameAt(k, k2, w)
  {
    hide Woken;
  }

  lemma FreeMutex(k: Kernel, k1: Kernel, k': Kernel, m: nat)
    requires MutexOk(k, m) && (k.current, m) in k.holders
    requires k1 == k.(owner := k.owner - {m}, holders := k.holders - {(k.current, m)}) && k' == Wake(k1, MutexQ(m))
    requires k1.Queue(MutexQ(m)) != [] ==> Woken(k', MutexQ(m)) == Woken(k1, MutexQ(m)) + {k1.Queue(MutexQ(m))[0]}
    ensures MutexOk(k', m)
  {
    hide Woken;
  }

  lemma TakeUnitSync(k: Kernel, s: nat)
    requires Inv(k) && s in k.sems && k.sems[s].count > 0 && (At(k, Out) || At(k, Await(SemQ(s))))
    ensures Inv(TakeUnit(k, s))
  {
    hide Placed, States, Woken, MutexOk, SemOk;
    var k1, k' := k.(pc := k.pc[k.current := Out]), TakeUnit(k, s);
    LeaveLoop(k);
    CoreOnly(k1, k');
    forall n ensures MutexOk(k', n) {
      assert MutexOk(k, n);
      assert SameAt(k, k1, MutexQ(n)) && SameAt(k1, k', MutexQ(n));
      MutexFrame(k, k', n);
    }
    forall r | r in k'.sems ensures SemOk(k', r) {
      assert SemOk(k, r);
      assert SameAt(k1, k', SemQ(r));
      if r != s { assert SameAt(k, k1, SemQ(r)); SemFrame(k, k', r); } else { UnitTaken(k, k', s); }
    }
  }

  lemma UnitTaken(k: Kernel, k': Kernel, s: nat)
    requires s in k.sems && SemOk(k, s) && k.sems[s].count > 0 && k'.Queue(SemQ(s)) == k.Queue(SemQ(s))
    requires Woken(k', SemQ(s)) == Woken(k, SemQ(s)) - {k.current}
    requires k'.sems == k.sems[s := k.sems[s].(count := k.sems[s].count - 1, waits := k.sems[s].waits + 1)]
    ensures SemOk(k', s)
  {
    hide Woken;
  }

  lemma PostSync(k: Kernel, s: nat)
    requires Inv(k) && s in k.sems
    ensures Inv(SemPostStep(k, s))
  {
    hide Placed, States, Woken, MutexOk, SemOk, SameAt;
    var x := k.sems[s];
    var k1 := k.(sems := k.sems[s := x.(count := x.count + 1, posts := x.posts + 1)]);
    var k' := Wake(k1, SemQ(s));
    CoreOnly(k, k1);
    WakeKeeps(k1, SemQ(s));
    WakeEffect(k1, SemQ(s));
    forall n ensures MutexOk(k', n) {
      assert MutexOk(k, n);
      SameTwice(k, k1, k', MutexQ(n));
      MutexFrame(k, k', n);
    }
    forall r | r in k'.sems ensures SemOk(k', r) {
      assert SemOk(k, r);
      assert SameAt(k, k1, SemQ(r));
      if r != s { SameTwice(k, k1, k', SemQ(r)); SemFrame(k, k', r); } else { UnitPosted(k, k1, k', s); }
    }
  }

  lemma UnitPosted(k: Kernel, k1: Kernel, k': Kernel, s: nat)
    requires s in k.sems && SemOk(k, s) && SameAt(k, k1, SemQ(s)) && k' == Wake(k1, SemQ(s))
    requires k1.sems == k.sems[s := k.sems[s].(count := k.sems[s].count + 1, posts := k.sems[s].posts + 1)]
    requires k1.Queue(SemQ(s)) != [] ==>
      && k1.Queue(SemQ(s))[0] !in Woken(k1, SemQ(s))
      && Woken(k', SemQ(s)) == Woken(k1, SemQ(s)) + {k1.Queue(SemQ(s))[0]}
    ensures SemOk(k', s)
  {
    hide Woken;
  }

  lemma WakeOtherInv(k: Kernel, n: nat)
    requires Inv(k)
    ensures Inv(Wake(k, OtherQ(n)))
  {
    hide Placed, States, Sync, SameAt;
    WakeKeeps(k, OtherQ(n));
    WakeEffect(k, OtherQ(n));
    SyncFrame(k, Wake(k, OtherQ(n)));
  }

  lemma {:induction false} WakeAllOtherInv(k: Kernel, n: nat)
    requires Inv(k)
    ensures Inv(WakeAll(k, OtherQ(n)))
    decreases |k.Queue(OtherQ(n))|
  {
    hide Inv;
    if k.Queue(OtherQ(n)) != [] {
      WakeOtherInv(k, n);
      WakeAllOtherInv(Wake(k, OtherQ(n)), n);
    }
  }

  lemma ScheduleInv(k: Kernel)
    requires Inv(k)
    ensures Inv(Schedule(k))
  {
    hide Placed, Sync, SameAt;
    ScheduleKeeps(k);
    ScheduleEffect(k);
    SyncFrame(k, Schedule(k));
  }

  lemma FrozenInv(k: Kernel, stopping: bool)
    requires Inv(k) && At(k, Out)
    ensures Inv(Frozen(k, stopping))
  {
    hide Placed, Sync, SameAt;
    FrozenKeeps(k, stopping);
    SyncFrame(k, Frozen(k, stopping));
  }

  lemma StopInv(k: Kernel, parent: Option<nat>)
    requires Inv(k) && At(k, Out)
    ensures Inv(Halted(k, parent)) && Inv(Schedule(Halted(k, parent)))
  {
    FrozenInv(k, true);
    hide Placed, Sync, Frozen;
    if parent.Some? { WakeOtherInv(Frozen(k, true), parent.value); }
    ScheduleInv(Halted(k, parent));
  }

  lemma ExitInv(k: Kernel, parent: Option<nat>)
    requires Inv(k) && At(k, Out)
    ensures Inv(Ended(k, parent)) && Inv(Schedule(Ended(k, parent)))
  {
    EndedKeeps(k, parent);
    hide Placed, Sync, Frozen, At;
    if parent.Some? { WakeOtherInv(k, parent.value); }
    FrozenInv(WakeParent(k, parent), false);
    ScheduleInv(Ended(k, parent));
  }

  /** A new thread, or one whose process is continued, joins the run queue. */
  lemma AddInv(k: Kernel, t: Tid)
    requires Inv(k) && t != k.idle && (t in k.tstate ==> k.tstate[t] == Stopped)
    ensures Inv(Add(k.(stopped := k.stopped - {t}, pc := k.pc[t := Out]), t))
  {
    var k' := Add(k.(stopped := k.stopped - {t}, pc := k.pc[t := Out]), t);
    AddKeeps(k, t);
    hide Placed, Sync;
    assert t in k.tstate ==> StateOk(k, t);
    assert forall w {:trigger SameAt(k, k', w)} :: SameAt(k, k', w);
    SyncFrame(k, k');
  }

  lemma ContinueInv(k: Kernel, t: Tid)
    requires Inv(k) && t in k.stopped
    ensures Inv(Add(k.(stopped := k.stopped - {t}), t))
  {
    assert StateOk(k, t) && StateOk(k, k.idle);
    assert k.pc[t := Out] == k.pc;
    hide Placed, Sync;
    AddInv(k, t);
  }

  lemma ResumeInv(k: Kernel)
    requires Inv(k) && Acting(k) && k.pc[k.current].Await? && k.pc[k.current].w.OtherQ?
    ensures Inv(k.(pc := k.pc[k.current := Out]))
  {
    LeaveLoop(k);
    hide Placed, Sync, SameAt, StateOk;
    SyncFrame(k, k.(pc := k.pc[k.current := Out]));
  }

  /** Every step of every thread, and every interrupt, keeps the whole invariant. */
  lemma InvStep(k: Kernel, op: Op)
    requires Inv(k) && Enabled(k, op)
    ensures Inv(Apply(k, op))
  {
    hide Placed, Sync, StateOk, Sleep, Wake, Acquire, TakeUnit, SemPostStep, UnlockStep;
    match op
    case Spawn(t) => assert k.stopped - {t} == k.stopped; AddInv(k, t);
    case Tick => ScheduleInv(k);
    case Lock(m) => if m in k.owner { SleepSync(k, MutexQ(m)); } else { AcquireSync(k, m); }
    case TryLock(m) => if m !in k.owner { AcquireSync(k, m); }
    case Unlock(m) => UnlockSync(k, m);
    case SemWait(s) => if k.sems[s].count <= 0 { SleepSync(k, SemQ(s)); } else { TakeUnitSync(k, s); }
    case SemTryWait(s) => if k.sems[s].count > 0 { TakeUnitSync(k, s); }
    case SemPost(s) => PostSync(k, s);
    case SleepOther(n) => SleepSync(k, OtherQ(n));
    case Resume => ResumeInv(k);
    case WakeOther(n) => WakeOtherInv(k, n);
    case WakeAllOther(n) => WakeAllOtherInv(k, n);
    case Stop(parent) => StopInv(k, parent);
    case Continue(t) => if t in k.stopped { ContinueInv(k, t); }
    case Exit(parent) => ExitInv(k, parent);
  }
}
