/** Whole runs of the step system: what holds after every interleaving, and when a ready thread is dispatched. */
module SchedulerRuns {
  import opened Machine
  import opened Scheduling
  import opened Interleavings

  /** The idle thread alone, free mutexes, and the semaphores as `sem_init` leaves them. */
  function Boot(idle: Tid, initial: map<nat, int>): Kernel {
    Kernel(map[idle := Running], map[idle := Out], [], map[], idle, idle, {}, map[], {},
           map s | s in initial :: Semaphore(initial[s], initial[s], 0, 0))
  }

  ghost predicate Legal(k: Kernel, ops: seq<Op>)
    decreases |ops|
  {
    ops == [] || (Placed(k) && States(k) && Enabled(k, ops[0]) && Legal(Apply(k, ops[0]), ops[1..]))
  }

  ghost function After(k: Kernel, ops: seq<Op>): Kernel
    requires Legal(k, ops)
    decreases |ops|
  {
    if ops == [] then k else After(Apply(k, ops[0]), ops[1..])
  }

  lemma BootInv(idle: Tid, initial: map<nat, int>)
    ensures Inv(Boot(idle, initial))
  {
    var k := Boot(idle, initial);
    forall w ensures QueueOk(k, w) {}
    assert States(k) by { assert StateOk(k, idle); }
    forall s | s in k.sems ensures SemOk(k, s) { assert k.Queue(SemQ(s)) == []; }
    forall m ensures MutexOk(k, m) { assert k.Queue(MutexQ(m)) == []; }
  }

  lemma {:induction false} RunInv(k: Kernel, ops: seq<Op>)
    requires Inv(k) && Legal(k, ops)
    ensures Inv(After(k, ops))
    decreases |ops|
  {
    hide Inv, Apply, Enabled;
    if ops != [] {
      InvStep(k, ops[0]);
      RunInv(Apply(k, ops[0]), ops[1..]);
    }
  }

  // ----- what the invariant means -----

  /** Where a queue holds a thread. */
  ghost predicate InWait(k: Kernel, t: Tid, w: Wq) { t in k.Queue(w) }

  /** The thread will run its next instructions without anyone having to wake it. */
  ghost predicate Runnable(k: Kernel, t: Tid) { t in k.run
                                               || (t == k.current && t in k.tstate && k.tstate[t] == Running) }

  /** All queues share one link per thread: a thread is in at most one of them, and once. */
  ghost predicate OneQueue(k: Kernel, t: Tid) {
    && (forall w {:trigger InWait(k, t, w)} :: InWait(k, t, w) ==> t !in k.run)
    && (forall v, w {:trigger InWait(k, t, v), InWait(k, t, w)} :: InWait(k, t, v) && InWait(k, t, w) ==> v == w)
    && (t == k.idle || t in k.stopped ==> t !in k.run && forall w {:trigger InWait(k, t, w)} :: !InWait(k, t, w))
  }

  ghost predicate Contended(k: Kernel, t: Tid, w: Wq) { t in Woken(k, w) && Runnable(k, t) && !InWait(k, t, w) }

  ghost predicate MutexSafe(k: Kernel, m: nat) {
    && (forall t, u :: (t, m) in k.holders && (u, m) in k.holders ==> t == u)
    && (m !in k.owner && k.Queue(MutexQ(m)) != [] ==> exists t :: Contended(k, t, MutexQ(m)))
  }

  ghost predicate SemSafe(k: Kernel, s: nat)
    requires s in k.sems
  {
    && (k.sems[s].initial >= 0 ==> k.sems[s].initial + k.sems[s].posts - k.sems[s].waits == k.sems[s].count >= 0)
    && (k.Queue(SemQ(s)) != [] ==> |Woken(k, SemQ(s))| >= k.sems[s].count)
    && (forall t :: t in Woken(k, SemQ(s)) ==> Contended(k, t, SemQ(s)))
  }

  lemma QueuesExclusive(k: Kernel, t: Tid)
    requires Inv(k)
    ensures OneQueue(k, t)
  {
    hide Sync;
    forall w | InWait(k, t, w) ensures BlockedOn(k, t, w) && t !in k.run { assert QueueOk(k, w); }
    assert t in k.tstate ==> StateOk(k, t);
  }

  lemma WokenRunnable(k: Kernel, t: Tid, w: Wq)
    requires Inv(k) && t in Woken(k, w)
    ensures Contended(k, t, w)
  {
    hide Sync;
    assert StateOk(k, t) && QueueOk(k, w);
  }

  /** After every interleaving from boot: one queue per thread, one holder per mutex, no lost wake-up, balanced
      semaphores. */
  lemma EveryInterleaving(idle: Tid, initial: map<nat, int>, ops: seq<Op>)
    requires Legal(Boot(idle, initial), ops)
    ensures var k := After(Boot(idle, initial), ops);
      && (forall t {:trigger OneQueue(k, t)} :: OneQueue(k, t))
      && (forall m {:trigger MutexSafe(k, m)} :: MutexSafe(k, m))
      && (forall s {:trigger SemSafe(k, s)} :: s in k.sems ==> SemSafe(k, s))
  {
    hide Legal, After, Boot, OneQueue, Contended, Woken;
    var k := After(Boot(idle, initial), ops);
    BootInv(idle, initial);
    RunInv(Boot(idle, initial), ops);
    forall t ensures OneQueue(k, t) { QueuesExclusive(k, t); }
    forall m ensures MutexSafe(k, m) {
      assert MutexOk(k, m);
      if m !in k.owner && k.Queue(MutexQ(m)) != [] {
        var t :| t in Woken(k, MutexQ(m));
        WokenRunnable(k, t, MutexQ(m));
      }
    }
    forall s | s in k.sems ensures SemSafe(k, s) {
      assert SemOk(k, s);
      forall t | t in Woken(k, SemQ(s)) ensures Contended(k, t, SemQ(s)) { WokenRunnable(k, t, SemQ(s)); }
    }
  }

  // ----- the semaphore history -----

  function Posted(op: Op, s: nat): nat { if op == SemPost(s) then 1 else 0 }

  /** The step is a wait on `s` that comes back with a unit. */
  function Served(k: Kernel, op: Op, s: nat): nat {
    if (op == SemWait(s) || op == SemTryWait(s)) && s in k.sems && k.sems[s].count > 0 then 1 else 0
  }

  function Posts(ops: seq<Op>, s: nat): nat { if ops == [] then 0 else Posted(ops[0], s) + Posts(ops[1..], s) }

  ghost function Waits(k: Kernel, ops: seq<Op>, s: nat): nat
    requires Legal(k, ops)
    decreases |ops|
  {
    if ops == [] then 0 else Served(k, ops[0], s) + Waits(Apply(k, ops[0]), ops[1..], s)
  }

  lemma {:induction false} WakeAllSame(k: Kernel, w: Wq)
    ensures WakeAll(k, w).sems == k.sems && k.run <= WakeAll(k, w).run
    decreases |k.Queue(w)|
  {
    if k.Queue(w) != [] { WakeAllSame(Wake(k, w), w); }
  }

  lemma SchedulerKeepsSems(k: Kernel, w: Wq)
    ensures Wake(k, w).sems == k.sems && Sleep(k, w).sems == k.sems
    ensures k.current in k.tstate ==> Schedule(k).sems == k.sems
  {
  }

  lemma OthersKeepSems(k: Kernel, op: Op)
    requires Placed(k) && States(k) && Enabled(k, op) && !op.SemWait? && !op.SemTryWait? && !op.SemPost?
    ensures Apply(k, op).sems == k.sems
  {
    hide Placed, StateOk, Without, WakeAll, Wake, Sleep, Schedule, QueueOk, RunOk, At, Acting;
    match op
    case Tick => SchedulerKeepsSems(k, OtherQ(0));
    case Lock(m) => SchedulerKeepsSems(k, MutexQ(m));
    case Unlock(m) => SchedulerKeepsSems(k.(owner := k.owner - {m}, holders := k.holders - {(k.current, m)}),
      MutexQ(m));
    case SleepOther(n) => SchedulerKeepsSems(k, OtherQ(n));
    case WakeOther(n) => SchedulerKeepsSems(k, OtherQ(n));
    case WakeAllOther(n) => WakeAllSame(k, OtherQ(n));
    case Stop(parent) =>
      HaltedKeeps(k, parent);
      if parent.Some? { SchedulerKeepsSems(Frozen(k, true), OtherQ(parent.value)); }
      SchedulerKeepsSems(Halted(k, parent), OtherQ(0));
    case Exit(parent) =>
      EndedKeeps(k, parent);
      if parent.Some? { SchedulerKeepsSems(k, OtherQ(parent.value)); }
      SchedulerKeepsSems(Ended(k, parent), OtherQ(0));
    case _ =>
  }

  lemma SemStep(k: Kernel, op: Op, s: nat)
    requires Placed(k) && States(k) && Enabled(k, op) && s in k.sems
    ensures s in Apply(k, op).sems
    ensures Apply(k, op).sems[s] == k.sems[s].(
      count := k.sems[s].count + Posted(op, s) - Served(k, op, s),
      posts := k.sems[s].posts + Posted(op, s), waits := k.sems[s].waits + Served(k, op, s))
  {
    if !op.SemWait? && !op.SemTryWait? && !op.SemPost? {
      hide Apply, Placed, States, Enabled;
      OthersKeepSems(k, op);
    } else {
      hide Placed, StateOk;
    }
  }

  /** The count after a run is the initial value plus the posts made minus the waits that completed. */
  lemma {:induction false} SemHistory(k: Kernel, ops: seq<Op>, s: nat)
    requires Inv(k) && Legal(k, ops) && s in k.sems
    ensures s in After(k, ops).sems
    ensures After(k, ops).sems[s].count == k.sems[s].count + Posts(ops, s) - Waits(k, ops, s)
    decreases |ops|
  {
    hide Inv, Apply, Enabled, Served, Posted;
    if ops != [] {
      InvStep(k, ops[0]);
      SemStep(k, ops[0], s);
      SemHistory(Apply(k, ops[0]), ops[1..], s);
    }
  }

  // ----- dispatch -----

  /** The operations that call `sched_schedule`. */
  predicate Reschedules(op: Op) { op.Tick? || op.Stop? || op.Exit? }

  function Schedules(ops: seq<Op>): nat {
    if ops == [] then 0 else (if Reschedules(ops[0]) then 1 else 0) + Schedules(ops[1..])
  }

  lemma SchedulePops(k: Kernel, t: Tid, i: nat)
    requires k.current in k.tstate && i < |k.run| && k.run[i] == t
    ensures i == 0 ==> Schedule(k).current == t
    ensures i > 0 ==> i - 1 < |Schedule(k).run| && Schedule(k).run[i - 1] == t
  {
  }

  /** None of these takes a thread out of the run queue. */
  lemma OthersKeepRun(k: Kernel, op: Op)
    requires Placed(k) && States(k) && Enabled(k, op) && !Reschedules(op)
    ensures k.run <= Apply(k, op).run
  {
    hide Placed, States, WakeAll, At, Acting;
    if op.WakeAllOther? { WakeAllSame(k, OtherQ(op.n)); }
  }

  lemma PrefixAt(q: seq<Tid>, r: seq<Tid>, i: nat)
    requires q <= r && i < |q|
    ensures r[i] == q[i]
  {
  }

  /** A step that calls the scheduler moves a ready thread up by one or dispatches it; no other step moves it. */
  lemma Advances(k: Kernel, op: Op, t: Tid, i: nat)
    requires Placed(k) && States(k) && Enabled(k, op) && i < |k.run| && k.run[i] == t
    ensures !Reschedules(op) ==> i < |Apply(k, op).run| && Apply(k, op).run[i] == t
    ensures Reschedules(op) && i == 0 ==> Apply(k, op).current == t
    ensures Reschedules(op) && i > 0 ==> i - 1 < |Apply(k, op).run| && Apply(k, op).run[i - 1] == t
  {
    hide Placed, States, Schedule, WakeAll, Wake, Sleep, At;
    if !Reschedules(op) {
      OthersKeepRun(k, op);
      hide Apply;
      PrefixAt(k.run, Apply(k, op).run, i);
    } else if op.Tick? {
      SchedulePops(k, t, i);
    } else if op.Stop? {
      HaltedKeeps(k, op.parent);
      HaltedRun(k, op.parent);
      PrefixAt(k.run, Halted(k, op.parent).run, i);
      assert Halted(k, op.parent).current in Halted(k, op.parent).tstate by { CurrentKnown(Halted(k, op.parent)); }
      SchedulePops(Halted(k, op.parent), t, i);
    } else {
      EndedKeeps(k, op.parent);
      EndedRun(k, op.parent);
      PrefixAt(k.run, Ended(k, op.parent).run, i);
      assert Ended(k, op.parent).current in Ended(k, op.parent).tstate by { CurrentKnown(Ended(k, op.parent)); }
      SchedulePops(Ended(k, op.parent), t, i);
    }
  }

  lemma CurrentKnown(k: Kernel)
    requires States(k)
    ensures k.current in k.tstate
  {
  }

  lemma HaltedRun(k: Kernel, parent: Option<nat>)
    requires Placed(k) && States(k) && At(k, Out)
    ensures k.run <= Halted(k, parent).run
  {
    assert k.current !in k.run;
    WithoutAbsent(k.run, k.current);
    hide Placed, States;
  }

  lemma EndedRun(k: Kernel, parent: Option<nat>)
    ensures k.run <= Ended(k, parent).run
  {
  }

  /** A thread at position `i` of the run queue is dispatched within `i + 1` calls of `sched_schedule`, whatever else
      happens. */
  lemma {:induction false} Dispatched(k: Kernel, ops: seq<Op>, t: Tid, i: nat) returns (n: nat)
    requires Inv(k) && Legal(k, ops) && i < |k.run| && k.run[i] == t && Schedules(ops) > i
    ensures 0 < n <= |ops| && Schedules(ops[..n]) == i + 1
    ensures Legal(k, ops[..n]) && After(k, ops[..n]).current == t
    decreases |ops|
  {
    hide Inv, Apply, Enabled, Placed, States, Reschedules;
    var k1, rest := Apply(k, ops[0]), ops[1..];
    assert Placed(k) && States(k);
    InvStep(k, ops[0]);
    Advances(k, ops[0], t, i);
    if Reschedules(ops[0]) && i == 0 {
      n := 1;
      assert ops[..1] == [ops[0]] && ops[..1][1..] == [];
      assert Schedules(ops[..1][1..]) == 0;
      assert Legal(k1, ops[..1][1..]);
    } else {
      var m := Dispatched(k1, rest, t, if Reschedules(ops[0]) then i - 1 else i);
      n := m + 1;
      assert ops[..n][1..] == rest[..m];
    }
  }
}
