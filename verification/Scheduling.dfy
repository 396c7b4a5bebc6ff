/** The scheduler, wait queues, mutexes, semaphores and stop/continue as one step system on a single CPU. */
module Scheduling {
  import opened Machine

  type Tid = nat

  datatype ThreadState = Ready | Running | Blocked | Dead | Stopped

  /** Wait queues: one per mutex, one per semaphore, and those of pipes, terminals and waiting parents. */
  datatype Wq = MutexQ(m: nat) | SemQ(s: nat) | OtherQ(n: nat)

  /** Where a thread is in its code: outside, or inside a sleep loop on `w` with its condition still to be re-checked.
      */
  datatype Pc = Out | Await(w: Wq)

  datatype Semaphore = Semaphore(initial: int, count: int, posts: nat, waits: nat)

  const INT32_MAX: int := 0x7FFF_FFFF

  datatype Kernel = Kernel(
    tstate: map<Tid, ThreadState>,
    pc: map<Tid, Pc>,
    run: seq<Tid>,
    wait: map<Wq, seq<Tid>>,
    current: Tid,
    idle: Tid,
    /** Threads whose process is stopped. */
    stopped: set<Tid>,
    /** Mutexes that have an owner. */
    owner: map<nat, Tid>,
    /** Who has returned from a successful lock of which mutex and not unlocked it since. */
    holders: set<(Tid, nat)>,
    sems: map<nat, Semaphore>)
  {
    function Queue(w: Wq): seq<Tid> { if w in wait then wait[w] else [] }
  }

  // ----- the building blocks -----

  /** `sched_add_thread` */
  function Add(k: Kernel, t: Tid): Kernel {
    k.(tstate := k.tstate[t := Ready], run := k.run + [t])
  }

  /** `sched_schedule` */
  function Schedule(k: Kernel): Kernel
    requires k.current in k.tstate
  {
    var cur := k.current;
    if k.run == [] then
      if k.tstate[cur] == Running then k
      else k.(tstate := k.tstate[k.idle := Running], current := k.idle)
    else
      var next, rest := k.run[0], k.run[1..];
      if k.tstate[cur] == Running && cur != k.idle then
        k.(tstate := k.tstate[cur := Ready][next := Running], run := rest + [cur], current := next)
      else
        k.(tstate := k.tstate[next := Running], run := rest, current := next)
  }

  /** The first half of `wq_sleep`: the current thread joins the queue and is blocked; it has not yielded yet. */
  function Sleep(k: Kernel, w: Wq): Kernel {
    k.(tstate := k.tstate[k.current := Blocked], pc := k.pc[k.current := Await(w)],
       wait := k.wait[w := k.Queue(w) + [k.current]])
  }

  /** `wq_wake` */
  function Wake(k: Kernel, w: Wq): Kernel {
    if k.Queue(w) == [] then k
    else Add(k.(wait := k.wait[w := k.Queue(w)[1..]]), k.Queue(w)[0])
  }

  /** `wq_wake_all` */
  function WakeAll(k: Kernel, w: Wq): Kernel
    decreases |k.Queue(w)|
  {
    if k.Queue(w) == [] then k else WakeAll(Wake(k, w), w)
  }

  // ----- where every thread is -----

  predicate BlockedOn(k: Kernel, t: Tid, w: Wq) {
    t in k.tstate && t in k.pc && k.tstate[t] == Blocked && k.pc[t] == Await(w)
  }

  ghost predicate QueueOk(k: Kernel, w: Wq) {
    NoDup(k.Queue(w)) && forall t :: t in k.Queue(w) <==> BlockedOn(k, t, w)
  }

  ghost predicate RunOk(k: Kernel) {
    NoDup(k.run) && forall t :: t in k.run <==> t in k.tstate && k.tstate[t] == Ready
  }

  /** A thread is in the run queue exactly when it is ready, and in a wait queue exactly when it is blocked there. */
  ghost predicate Placed(k: Kernel) {
    RunOk(k) && forall w {:trigger QueueOk(k, w)} :: QueueOk(k, w)
  }

  ghost predicate StateOk(k: Kernel, t: Tid)
    requires t in k.tstate && t in k.pc
  {
    && (k.tstate[t] == Running && t != k.idle ==> t == k.current)
    && (k.tstate[t] == Dead || k.tstate[t] == Stopped ==> k.pc[t] == Out)
    && (k.tstate[t] == Blocked ==> k.pc[t] != Out)
    && (t in k.stopped <==> k.tstate[t] == Stopped)
  }

  ghost predicate States(k: Kernel) {
    && k.tstate.Keys == k.pc.Keys && k.stopped <= k.tstate.Keys && k.current in k.tstate && k.idle in k.tstate
    && k.tstate[k.idle] == Running && k.pc[k.idle] == Out
    && (forall t {:trigger StateOk(k, t)} :: t in k.tstate ==> StateOk(k, t))
  }

  lemma NoDupAppend(q: seq<Tid>, t: Tid)
    requires NoDup(q) && t !in q
    ensures NoDup(q + [t]) && forall x :: x in q + [t] <==> x in q || x == t
  {
  }

  lemma NoDupTail(q: seq<Tid>)
    requires NoDup(q) && q != []
    ensures NoDup(q[1..]) && q[0] !in q[1..] && forall x :: x in q <==> x in q[1..] || x == q[0]
  {
    assert q == [q[0]] + q[1..];
  }

  /** The wait queues stay right when nobody blocks or unblocks. */
  lemma QueuesSame(k: Kernel, k': Kernel)
    requires forall w {:trigger QueueOk(k, w)} :: QueueOk(k, w)
    requires k'.wait == k.wait && forall t, w :: BlockedOn(k', t, w) <==> BlockedOn(k, t, w)
    ensures forall w {:trigger QueueOk(k', w)} :: QueueOk(k', w)
  {
    hide BlockedOn;
    forall w ensures QueueOk(k', w) { assert QueueOk(k, w); }
  }

  /** A thread that is in no queue and may run again joins the run queue. */
  lemma AddKeeps(k: Kernel, t: Tid)
    requires Placed(k) && States(k) && t != k.idle
    requires t in k.tstate ==> k.tstate[t] == Stopped
    ensures var k' := Add(k.(stopped := k.stopped - {t}, pc := k.pc[t := Out]), t);
      Placed(k') && States(k')
  {
    var k' := Add(k.(stopped := k.stopped - {t}, pc := k.pc[t := Out]), t);
    assert RunOk(k') by { NoDupAppend(k.run, t); }
    hide QueueOk, RunOk;
    QueuesSame(k, k');
    forall x | x in k'.tstate ensures StateOk(k', x) { if x != t { assert StateOk(k, x); } }
  }

  lemma SleepKeeps(k: Kernel, w: Wq)
    requires Placed(k) && States(k) && k.tstate[k.current] == Running && k.current != k.idle
    ensures Placed(Sleep(k, w)) && States(Sleep(k, w))
  {
    var k' := Sleep(k, w);
    forall x | x in k'.tstate ensures StateOk(k', x) { assert StateOk(k, x); }
    forall v ensures QueueOk(k', v) {
      assert QueueOk(k, v);
      if v == w { NoDupAppend(k.Queue(w), k.current); } else { assert k'.Queue(v) == k.Queue(v); }
    }
  }

  lemma WakeKeeps(k: Kernel, w: Wq)
    requires Placed(k) && States(k)
    ensures Placed(Wake(k, w)) && States(Wake(k, w))
  {
    if k.Queue(w) != [] {
      var k', t := Wake(k, w), k.Queue(w)[0];
      assert QueueOk(k, w) && t in k.Queue(w);
      assert RunOk(k') by { NoDupAppend(k.run, t); }
      forall x | x in k'.tstate ensures StateOk(k', x) { assert StateOk(k, x); }
      WakeQueues(k, w);
    }
  }

  lemma WakeQueues(k: Kernel, w: Wq)
    requires Placed(k) && k.Queue(w) != []
    ensures forall v {:trigger QueueOk(Wake(k, w), v)} :: QueueOk(Wake(k, w), v)
  {
    hide RunOk;
    var k', t := Wake(k, w), k.Queue(w)[0];
    assert QueueOk(k, w) && t in k.Queue(w);
    NoDupTail(k.Queue(w));
    forall v ensures QueueOk(k', v) {
      assert QueueOk(k, v);
      if v == w { assert k'.Queue(w) == k.Queue(w)[1..]; } else { assert k'.Queue(v) == k.Queue(v); }
    }
  }

  lemma ScheduleKeeps(k: Kernel)
    requires Placed(k) && States(k)
    ensures Placed(Schedule(k)) && States(Schedule(k))
  {
    hide RunOk, QueueOk, BlockedOn, StateOk;
    ScheduleRun(k);
    ScheduleStates(k);
    ScheduleBlocked(k);
    QueuesSame(k, Schedule(k));
  }

  lemma HeadReady(k: Kernel)
    requires RunOk(k) && k.run != []
    ensures k.run[0] in k.tstate && k.tstate[k.run[0]] == Ready
  {
    assert k.run[0] in k.run;
  }

  lemma ScheduleRun(k: Kernel)
    requires RunOk(k) && States(k)
    ensures RunOk(Schedule(k))
  {
    if k.run != [] {
      HeadReady(k);
      NoDupTail(k.run);
      if k.tstate[k.current] == Running && k.current != k.idle { NoDupAppend(k.run[1..], k.current); }
    }
  }

  lemma ScheduleBlocked(k: Kernel)
    requires RunOk(k) && States(k)
    ensures Schedule(k).wait == k.wait && Schedule(k).pc == k.pc
    ensures forall t, w :: BlockedOn(Schedule(k), t, w) <==> BlockedOn(k, t, w)
  {
    if k.run != [] { HeadReady(k); }
    hide RunOk, StateOk;
  }

  lemma ScheduleStates(k: Kernel)
    requires RunOk(k) && States(k)
    ensures States(Schedule(k))
  {
    var k' := Schedule(k);
    if k.run != [] { HeadReady(k); }
    hide RunOk;
    assert k'.tstate.Keys == k.tstate.Keys;
    forall x | x in k'.tstate ensures StateOk(k', x) { ScheduleStateOk(k, x); }
  }

  lemma ScheduleStateOk(k: Kernel, x: Tid)
    requires RunOk(k) && States(k) && x in k.tstate
    ensures x in Schedule(k).tstate && StateOk(Schedule(k), x)
  {
    assert StateOk(k, x) && StateOk(k, k.current);
    if k.run != [] { HeadReady(k); }
    hide RunOk;
  }

  // ----- sleeping and waking -----

  /** Threads that were woken from `w` (or have just left its queue) and have yet to re-check their condition. */
  ghost function Woken(k: Kernel, w: Wq): set<Tid> {
    set t | t in k.pc && k.pc[t] == Await(w) && !BlockedOn(k, t, w)
  }

  /** What a queue and its woken threads look like from outside. */
  ghost predicate SameAt(k: Kernel, k': Kernel, w: Wq) {
    k'.Queue(w) == k.Queue(w) && Woken(k', w) == Woken(k, w)
  }

  lemma SleepEffect(k: Kernel, w: Wq)
    requires States(k) && (k.pc[k.current] == Out || k.pc[k.current] == Await(w)) && k.tstate[k.current] == Running
    ensures Sleep(k, w).Queue(w) == k.Queue(w) + [k.current]
    ensures Woken(Sleep(k, w), w) == Woken(k, w) - {k.current}
    ensures forall v {:trigger SameAt(k, Sleep(k, w), v)} :: v != w ==> SameAt(k, Sleep(k, w), v)
  {
    hide StateOk;
  }

  lemma WakeEffect(k: Kernel, w: Wq)
    requires Placed(k) && States(k)
    ensures k.Queue(w) == [] ==> Wake(k, w) == k
    ensures k.Queue(w) != [] ==>
      && Wake(k, w).Queue(w) == k.Queue(w)[1..] && k.Queue(w)[0] !in Woken(k, w)
      && Woken(Wake(k, w), w) == Woken(k, w) + {k.Queue(w)[0]}
    ensures forall v {:trigger SameAt(k, Wake(k, w), v)} :: v != w ==> SameAt(k, Wake(k, w), v)
  {
    hide StateOk, RunOk;
    if k.Queue(w) != [] {
      assert QueueOk(k, w) && k.Queue(w)[0] in k.Queue(w);
      assert BlockedOn(k, k.Queue(w)[0], w);
    }
  }

  lemma ScheduleEffect(k: Kernel)
    requires Placed(k) && States(k)
    ensures forall v {:trigger SameAt(k, Schedule(k), v)} :: SameAt(k, Schedule(k), v)
  {
    hide StateOk, RunOk, QueueOk, BlockedOn;
    ScheduleBlocked(k);
  }
}
