/** What each step does to threads, queues, owners and counts, said without the functions that compute it. */
module StepEffects {
  import opened Machine
  import opened Scheduling
  import opened Interleavings

  /** Queue `w` loses its first `n` threads; no other queue changes. */
  ghost predicate Popped(k: Kernel, k': Kernel, w: Wq, n: nat) {
    forall v :: k'.Queue(v) == if v == w && n <= |k.Queue(w)| then k.Queue(w)[n..] else k.Queue(v)
  }

  /** The threads that a wake of queue `w` would wake. */
  function First(k: Kernel, w: Wq): seq<Tid> { if k.Queue(w) == [] then [] else k.Queue(w)[..1] }

  /** Locks, counts and places in the code stay. */
  predicate SameSync(k: Kernel, k': Kernel) {
    k'.owner == k.owner && k'.holders == k.holders && k'.sems == k.sems && k'.idle == k.idle && k'.pc == k.pc
  }

  /** Nothing is rescheduled: `woken` became ready and stand at the end of the run queue, in order. */
  ghost predicate Joins(k: Kernel, k': Kernel, woken: seq<Tid>) {
    && k'.run == k.run + woken && k'.current == k.current && k'.idle == k.idle && k'.stopped == k.stopped
    && k'.tstate.Keys == k.tstate.Keys + (set t | t in woken)
    && forall t :: t in k'.tstate ==>
      (t in woken ==> k'.tstate[t] == Ready) && (t !in woken ==> t in k.tstate && k'.tstate[t] == k.tstate[t])
  }

  /** The head of `line` runs, or the idle thread when there is none. */
  ghost predicate Dispatches(k: Kernel, k': Kernel, line: seq<Tid>) {
    && k'.current == (if line == [] then k.idle else line[0]) && k'.run == (if line == [] then [] else line[1..])
    && k'.current in k'.tstate && k'.tstate[k'.current] == Running
  }

  /** The acting thread ends in state `end`, in no queue; `woken` joins the run queue; the next thread runs. */
  ghost predicate Leaves(k: Kernel, k': Kernel, end: ThreadState, woken: seq<Tid>)
    requires k.current in k.tstate
  {
    && Dispatches(k, k', k.run + woken) && k'.tstate.Keys == k.tstate.Keys && k'.tstate[k.current] == end
    && k.current !in k'.run && (forall w :: k.current !in k'.Queue(w))
    && forall t :: t in k.tstate && t != k.current && t != k'.current ==>
         k'.tstate[t] == if t in woken then Ready else k.tstate[t]
  }

  /** The acting thread waits at the end of queue `w`. */
  ghost predicate Waits(k: Kernel, k': Kernel, w: Wq)
    requires k.current in k.tstate
  {
    && (forall v :: k'.Queue(v) == if v == w then k.Queue(w) + [k.current] else k.Queue(v))
    && k'.tstate == k.tstate[k.current := Blocked] && k'.pc == k.pc[k.current := Await(w)]
    && k'.run == k.run && k'.current == k.current && k'.idle == k.idle && k'.stopped == k.stopped
    && k'.owner == k.owner && k'.holders == k.holders && k'.sems == k.sems
  }

  /** Only locks and counts, and the acting thread's place in its code, change. */
  predicate KeepsRunning(k: Kernel, k': Kernel)
  {
    && k'.tstate == k.tstate && k'.run == k.run && k'.wait == k.wait && k'.current == k.current && k'.idle == k.idle
    && k'.stopped == k.stopped && k'.pc == k.pc[k.current := Out]
  }

  /** The acting thread gets mutex `m`. */
  predicate Gets(k: Kernel, k': Kernel, m: nat) {
    && KeepsRunning(k, k') && k'.sems == k.sems
    && k'.owner == k.owner[m := k.current] && k'.holders == k.holders + {(k.current, m)}
  }

  /** One unit of semaphore `s` is used up. */
  predicate Uses(k: Kernel, k': Kernel, s: nat)
    requires s in k.sems
  {
    && KeepsRunning(k, k') && k'.owner == k.owner && k'.holders == k.holders
    && k'.sems.Keys == k.sems.Keys && (forall r :: r in k.sems && r != s ==> k'.sems[r] == k.sems[r])
    && k'.sems[s].count == k.sems[s].count - 1 && k'.sems[s].waits == k.sems[s].waits + 1
    && k'.sems[s].posts == k.sems[s].posts && k'.sems[s].initial == k.sems[s].initial
  }

  /** The next thread runs. A running thread goes to the end of the run queue, or goes on when it is alone;
      idle never queues. */
  ghost predicate Switches(k: Kernel, k': Kernel)
    requires k.current in k.tstate
  {
    && SameSync(k, k') && k'.wait == k.wait && k'.stopped == k.stopped && k'.tstate.Keys == k.tstate.Keys
    && (if k.tstate[k.current] != Running || (k.current == k.idle && k.run != []) then
          && Dispatches(k, k', k.run)
          && forall t :: t in k.tstate && t != k'.current ==> k'.tstate[t] == k.tstate[t]
        else if k.run == [] then k' == k
        else
          && Dispatches(k, k', k.run + [k.current]) && k'.tstate[k.current] == Ready
          && forall t :: t in k.tstate && t != k'.current && t != k.current ==> k'.tstate[t] == k.tstate[t])
  }

  /** What a step does. */
  ghost predicate Does(k: Kernel, op: Op, k': Kernel)
    requires States(k) && Enabled(k, op)
  {
    match op
    case Spawn(t) =>
      && k'.wait == k.wait && k'.run == k.run + [t] && k'.tstate == k.tstate[t := Ready] && k'.pc == k.pc[t := Out]
      && k'.current == k.current && k'.idle == k.idle && k'.stopped == k.stopped
      && k'.owner == k.owner && k'.holders == k.holders && k'.sems == k.sems
    case Tick => Switches(k, k')
    case Lock(m) => if m in k.owner then Waits(k, k', MutexQ(m)) else Gets(k, k', m)
    case TryLock(m) => if m in k.owner then k' == k else Gets(k, k', m)
    case Unlock(m) =>
      && Popped(k, k', MutexQ(m), 1) && Joins(k, k', First(k, MutexQ(m))) && k'.pc == k.pc && k'.sems == k.sems
      && k'.owner == k.owner - {m} && k'.holders == k.holders - {(k.current, m)}
    case SemWait(s) => if k.sems[s].count <= 0 then Waits(k, k', SemQ(s)) else Uses(k, k', s)
    case SemTryWait(s) => if k.sems[s].count <= 0 then k' == k else Uses(k, k', s)
    case SemPost(s) =>
      && Popped(k, k', SemQ(s), 1) && Joins(k, k', First(k, SemQ(s))) && k'.pc == k.pc
      && k'.owner == k.owner && k'.holders == k.holders
      && k'.sems.Keys == k.sems.Keys && (forall r :: r in k.sems && r != s ==> k'.sems[r] == k.sems[r])
      && k'.sems[s].count == k.sems[s].count + 1 && k'.sems[s].posts == k.sems[s].posts + 1
      && k'.sems[s].waits == k.sems[s].waits && k'.sems[s].initial == k.sems[s].initial
    case SleepOther(n) => Waits(k, k', OtherQ(n))
    case Resume => KeepsRunning(k, k') && k'.owner == k.owner && k'.holders == k.holders && k'.sems == k.sems
    case WakeOther(n) => SameSync(k, k') && Popped(k, k', OtherQ(n), 1) && Joins(k, k', First(k, OtherQ(n)))
    case WakeAllOther(n) =>
      && SameSync(k, k') && Popped(k, k', OtherQ(n), |k.Queue(OtherQ(n))|) && Joins(k, k', k.Queue(OtherQ(n)))
    case Stop(parent) =>
      && SameSync(k, k') && k'.stopped == k.stopped + {k.current} && Leaves(k, k', Stopped, Parent(k, parent))
      && (if parent.Some? then Popped(k, k', OtherQ(parent.value), 1) else k'.wait == k.wait)
    case Continue(t) =>
      if t in k.stopped then
        && SameSync(k, k') && k'.wait == k.wait && k'.stopped == k.stopped - {t} && k'.run == k.run + [t]
        && k'.current == k.current && k'.tstate == k.tstate[t := Ready]
      else k' == k
    case Exit(parent) =>
      && SameSync(k, k') && k'.stopped == k.stopped && Leaves(k, k', Dead, Parent(k, parent))
      && (if parent.Some? then Popped(k, k', OtherQ(parent.value), 1) else k'.wait == k.wait)
  }

  /** A step that could be taken was taken, with its effect. */
  ghost predicate Effect(k: Kernel, op: Op, k': Kernel) { States(k) && Enabled(k, op) && Does(k, op, k') }

  /** The parent that a stopping or ending child wakes, if one waits. */
  function Parent(k: Kernel, parent: Option<nat>): seq<Tid> { if parent.Some? then First(k, OtherQ(parent.value))
                                                             else [] }

  lemma WakeDoes(k: Kernel, w: Wq)
    ensures var k' := Wake(k, w);
      Popped(k, k', w, 1) && Joins(k, k', First(k, w)) && SameSync(k, k')
  {
  }

  lemma {:induction false} WakeAllDoes(k: Kernel, w: Wq)
    ensures var k' := WakeAll(k, w);
      Popped(k, k', w, |k.Queue(w)|) && Joins(k, k', k.Queue(w)) && SameSync(k, k')
    decreases |k.Queue(w)|
  {
    if k.Queue(w) != [] {
      var k1 := Wake(k, w);
      WakeDoes(k, w);
      assert k1.Queue(w) == k.Queue(w)[1..];
      WakeAllDoes(k1, w);
      assert k.Queue(w) == k.Queue(w)[..1] + k1.Queue(w);
      ThenAll(k, k1, WakeAll(k, w), w);
    }
  }

  lemma ThenAll(k: Kernel, k1: Kernel, k': Kernel, w: Wq)
    requires k.Queue(w) != [] && Popped(k, k1, w, 1) && Joins(k, k1, First(k, w)) && SameSync(k, k1)
    requires Popped(k1, k', w, |k1.Queue(w)|) && Joins(k1, k', k1.Queue(w)) && SameSync(k1, k')
    ensures Popped(k, k', w, |k.Queue(w)|) && Joins(k, k', k.Queue(w)) && SameSync(k, k')
  {
    var q := k.Queue(w);
    assert k1.Queue(w) == q[1..] && q == [q[0]] + q[1..];
    assert k.run + q == k.run + [q[0]] + q[1..];
  }

  lemma TickDoes(k: Kernel)
    requires States(k) && RunOk(k)
    ensures Switches(k, Schedule(k))
  {
    if k.run != [] { HeadReady(k); }
    hide StateOk, RunOk;
  }

  lemma NotWaiting(k: Kernel, t: Tid)
    requires Placed(k) && t in k.tstate && k.tstate[t] != Blocked
    ensures forall w :: t !in k.Queue(w)
  {
    hide RunOk;
    forall w ensures t !in k.Queue(w) { assert QueueOk(k, w); }
  }

  lemma NotReady(k: Kernel, t: Tid)
    requires RunOk(k) && t in k.tstate && k.tstate[t] != Ready
    ensures t !in k.run
  {
  }

  /** Just before the switch: the acting thread is marked, the parent woken. */
  ghost predicate Marked(k: Kernel, k1: Kernel, end: ThreadState, woken: seq<Tid>)
    requires k.current in k.tstate
  {
    && SameSync(k, k1) && k1.run == k.run + woken && k1.current == k.current
    && k1.tstate.Keys == k.tstate.Keys && k1.tstate[k.current] == end
    && forall t :: t in k.tstate && t != k.current ==> k1.tstate[t] == if t in woken then Ready else k.tstate[t]
  }

  lemma FirstWaits(k: Kernel, w: Wq, t: Tid)
    requires Placed(k) && t in First(k, w)
    ensures t in k.tstate && k.tstate[t] == Blocked
  {
    hide RunOk;
    assert QueueOk(k, w) && t in k.Queue(w);
  }

  lemma MarkedWake(k: Kernel, k0: Kernel, k1: Kernel, w: Wq)
    requires k.current in k.tstate && SameSync(k, k0) && k0.wait == k.wait && k0.run == k.run && k0.current == k.current
    requires k0.tstate == k.tstate[k.current := Stopped]
    requires Popped(k0, k1, w, 1) && Joins(k0, k1, First(k0, w)) && SameSync(k0, k1)
    requires forall t | t in First(k, w) :: t in k.tstate && t != k.current
    ensures Marked(k, k1, Stopped, First(k, w)) && k1.stopped == k0.stopped && Popped(k, k1, w, 1)
  {
    assert First(k0, w) == First(k, w) && forall v :: k0.Queue(v) == k.Queue(v);
  }

  lemma StopMarks(k: Kernel, parent: Option<nat>)
    requires States(k) && Placed(k) && At(k, Out)
    ensures Marked(k, Halted(k, parent), Stopped, Parent(k, parent))
    ensures Halted(k, parent).stopped == k.stopped + {k.current}
    ensures if parent.Some? then Popped(k, Halted(k, parent), OtherQ(parent.value), 1)
      else Halted(k, parent).wait == k.wait
  {
    var k0 := Frozen(k, true);
    assert k0 == k.(stopped := k.stopped + {k.current}, tstate := k.tstate[k.current := Stopped]) by {
      FrozenRun(k, true);
    }
    hide StateOk, QueueOk, RunOk, BlockedOn, Frozen;
    if parent.Some? {
      var w := OtherQ(parent.value);
      WakeDoes(k0, w);
      forall t | t in First(k, w) ensures t in k.tstate && t != k.current { FirstWaits(k, w, t); }
      hide Wake, Marked, Popped, Joins, First, SameSync;
      assert SameSync(k, k0) by { SameSyncMarked(k, k0); }
      MarkedWake(k, k0, Wake(k0, w), w);
    }
  }

  lemma SameSyncMarked(k: Kernel, k0: Kernel)
    requires k0 == k.(stopped := k0.stopped, tstate := k0.tstate)
    ensures SameSync(k, k0)
  {
  }

  lemma ExitMarks(k: Kernel, parent: Option<nat>)
    requires States(k) && Placed(k) && At(k, Out)
    ensures Marked(k, Ended(k, parent), Dead, Parent(k, parent)) && Ended(k, parent).stopped == k.stopped
    ensures if parent.Some? then Popped(k, Ended(k, parent), OtherQ(parent.value), 1)
      else Ended(k, parent).wait == k.wait
  {
    hide StateOk, QueueOk, RunOk, BlockedOn;
    if parent.Some? {
      WakeDoes(k, OtherQ(parent.value));
      forall t | t in Parent(k, parent) ensures t in k.tstate && k.tstate[t] == Blocked {
        FirstWaits(k, OtherQ(parent.value), t);
      }
    }
  }

  lemma MarkedLeaves(k: Kernel, k1: Kernel, k': Kernel, end: ThreadState, woken: seq<Tid>)
    requires k.current in k.tstate && k1.current in k1.tstate && (end == Dead || end == Stopped)
    requires Marked(k, k1, end, woken) && Switches(k1, k') && k.current !in k.run + woken && k.current != k.idle
    requires forall w :: k.current !in k1.Queue(w)
    ensures Leaves(k, k', end, woken) && SameSync(k, k') && k'.wait == k1.wait && k'.stopped == k1.stopped
  {
    assert forall w :: k'.Queue(w) == k1.Queue(w);
  }

  /** The thread that leaves, the parent it wakes and the thread that runs next. */
  lemma LeaveDoes(k: Kernel, parent: Option<nat>, stopping: bool)
    requires States(k) && Placed(k) && At(k, Out)
    ensures var op := if stopping then Stop(parent) else Exit(parent); Does(k, op, Apply(k, op))
  {
    hide StateOk, QueueOk, RunOk, BlockedOn, Marked, Halted, Ended, Leaves, Switches, Schedule, States;
    var op := if stopping then Stop(parent) else Exit(parent);
    var k1 := if stopping then Halted(k, parent) else Ended(k, parent);
    HaltedKeeps(k, parent);
    EndedKeeps(k, parent);
    StopMarks(k, parent);
    ExitMarks(k, parent);
    TickDoes(k1);
    Aside(k, k1, if stopping then Stopped else Dead, parent);
    MarkedLeaves(k, k1, Apply(k, op), if stopping then Stopped else Dead, Parent(k, parent));
    SameWaits(k, k1, Apply(k, op), parent);
  }

  lemma SameWaits(k: Kernel, k1: Kernel, k': Kernel, parent: Option<nat>)
    requires k'.wait == k1.wait
    requires if parent.Some? then Popped(k, k1, OtherQ(parent.value), 1) else k1.wait == k.wait
    ensures if parent.Some? then Popped(k, k', OtherQ(parent.value), 1) else k'.wait == k.wait
  {
    assert forall w :: k'.Queue(w) == k1.Queue(w);
  }

  lemma Aside(k: Kernel, k1: Kernel, end: ThreadState, parent: Option<nat>)
    requires States(k) && Placed(k) && At(k, Out) && Placed(k1) && Marked(k, k1, end, Parent(k, parent))
    requires end == Dead || end == Stopped
    ensures k.current != k.idle && k.current !in k.run + Parent(k, parent) && k1.current in k1.tstate
    ensures forall w :: k.current !in k1.Queue(w)
  {
    hide StateOk;
    NotReady(k1, k.current);
    NotWaiting(k1, k.current);
  }

  /** The steps that switch no thread and wake nobody. */
  lemma PlainDoes(k: Kernel, op: Op)
    requires States(k) && Placed(k) && Enabled(k, op)
    requires !op.Tick? && !op.Unlock? && !op.SemPost? && !op.WakeOther? && !op.WakeAllOther? && !op.Stop? && !op.Exit?
    ensures Does(k, op, Apply(k, op))
  {
    hide StateOk, RunOk, QueueOk, Switches, Leaves, Joins, Popped;
  }

  /** Waking looks only at queues, states and the run queue. */
  lemma WakeAlso(k: Kernel, k1: Kernel, w: Wq)
    requires k1.wait == k.wait && k1.run == k.run && k1.tstate == k.tstate && k1.current == k.current
    requires k1.idle == k.idle && k1.stopped == k.stopped
    ensures Popped(k, Wake(k1, w), w, 1) && Joins(k, Wake(k1, w), First(k, w)) && SameSync(k1, Wake(k1, w))
  {
    WakeDoes(k1, w);
    hide Wake, Joins;
    assert forall v :: k1.Queue(v) == k.Queue(v);
    assert Joins(k, Wake(k1, w), First(k, w)) by { SameJoins(k, k1, Wake(k1, w), First(k, w)); }
  }

  lemma SameJoins(k: Kernel, k1: Kernel, k': Kernel, woken: seq<Tid>)
    requires k1.run == k.run && k1.tstate == k.tstate && k1.current == k.current && k1.idle == k.idle
      && k1.stopped == k.stopped
    requires Joins(k1, k', woken)
    ensures Joins(k, k', woken)
  {
  }

  lemma UnlockDoes(k: Kernel, m: nat)
    requires States(k) && Placed(k) && Enabled(k, Unlock(m))
    ensures Does(k, Unlock(m), Apply(k, Unlock(m)))
  {
    hide StateOk, RunOk, QueueOk, Wake, Joins, Popped, First;
    WakeAlso(k, k.(owner := k.owner - {m}, holders := k.holders - {(k.current, m)}), MutexQ(m));
  }

  lemma PostDoes(k: Kernel, s: nat)
    requires States(k) && Placed(k) && Enabled(k, SemPost(s))
    ensures Does(k, SemPost(s), Apply(k, SemPost(s)))
  {
    hide StateOk, RunOk, QueueOk, Wake, Joins, Popped, First;
    var x := k.sems[s];
    WakeAlso(k, k.(sems := k.sems[s := x.(count := x.count + 1, posts := x.posts + 1)]), SemQ(s));
  }

  lemma WakersDo(k: Kernel, n: nat)
    requires States(k) && Placed(k)
    ensures Enabled(k, WakeOther(n)) && Does(k, WakeOther(n), Apply(k, WakeOther(n)))
    ensures Enabled(k, WakeAllOther(n)) && Does(k, WakeAllOther(n), Apply(k, WakeAllOther(n)))
  {
    hide StateOk, RunOk, QueueOk, Wake, WakeAll, Joins, Popped, First;
    WakeDoes(k, OtherQ(n));
    WakeAllDoes(k, OtherQ(n));
  }

  /** Every step does what `Does` says. */
  lemma EveryStepDoes(k: Kernel, op: Op)
    requires States(k) && Placed(k) && Enabled(k, op)
    ensures Does(k, op, Apply(k, op))
  {
    hide States, Placed, Enabled;
    match op
    case Tick => TickStep(k);
    case Unlock(m) => UnlockDoes(k, m);
    case SemPost(s) => PostDoes(k, s);
    case WakeOther(n) => WakersDo(k, n);
    case WakeAllOther(n) => WakersDo(k, n);
    case Stop(parent) => StopStep(k, parent);
    case Exit(parent) => ExitStep(k, parent);
    case _ => PlainDoes(k, op);
  }

  lemma TickStep(k: Kernel)
    requires States(k) && Placed(k)
    ensures Enabled(k, Tick) && Does(k, Tick, Apply(k, Tick))
  {
    hide StateOk, QueueOk, Switches, Schedule;
    TickDoes(k);
  }

  lemma StopStep(k: Kernel, parent: Option<nat>)
    requires States(k) && Placed(k) && Enabled(k, Stop(parent))
    ensures Does(k, Stop(parent), Apply(k, Stop(parent)))
  {
    hide Does, Apply, States, Placed;
    LeaveDoes(k, parent, true);
  }

  lemma ExitStep(k: Kernel, parent: Option<nat>)
    requires States(k) && Placed(k) && Enabled(k, Exit(parent))
    ensures Does(k, Exit(parent), Apply(k, Exit(parent)))
  {
    hide Does, Apply, States, Placed;
    LeaveDoes(k, parent, false);
  }

  /** A parent that waits for its child is up again once the child has stopped or ended: out of every wait queue
      and ready or running, with those behind it still waiting in order. */
  lemma ParentIsUp(k: Kernel, n: nat, stopping: bool)
    requires States(k) && Placed(k) && At(k, Out) && k.Queue(OtherQ(n)) != []
    ensures var op := if stopping then Stop(Some(n)) else Exit(Some(n));
      var k', t := Apply(k, op), k.Queue(OtherQ(n))[0];
      && (forall w :: t !in k'.Queue(w)) && (t in k'.run || t == k'.current)
      && t in k'.tstate && (k'.tstate[t] == Ready || k'.tstate[t] == Running)
      && k'.Queue(OtherQ(n)) == k.Queue(OtherQ(n))[1..] && forall w :: w != OtherQ(n) ==> k'.Queue(w) == k.Queue(w)
  {
    var op := if stopping then Stop(Some(n)) else Exit(Some(n));
    var k', t := Apply(k, op), k.Queue(OtherQ(n))[0];
    AfterLeaving(k, n, stopping);
    assert t in First(k, OtherQ(n)) && First(k, OtherQ(n)) == [t];
    FirstWaits(k, OtherQ(n), t);
    hide States, Placed, Apply, Leaves, First;
    UpAgain(k, k', if stopping then Stopped else Dead, t);
    NotWaiting(k', t);
  }

  lemma AfterLeaving(k: Kernel, n: nat, stopping: bool)
    requires States(k) && Placed(k) && At(k, Out)
    ensures var k' := Apply(k, if stopping then Stop(Some(n)) else Exit(Some(n)));
      && Leaves(k, k', if stopping then Stopped else Dead, First(k, OtherQ(n))) && Popped(k, k', OtherQ(n), 1)
        && Placed(k')
  {
    hide States, Placed, Leaves, First, Popped, Schedule, Halted, Ended, SameSync, At, Switches, Waits, Uses, Gets,
         Joins, KeepsRunning;
    LeaveDoes(k, Some(n), stopping);
    HaltedKeeps(k, Some(n));
    EndedKeeps(k, Some(n));
    ScheduleKeeps(if stopping then Halted(k, Some(n)) else Ended(k, Some(n)));
  }

  lemma UpAgain(k: Kernel, k': Kernel, end: ThreadState, t: Tid)
    requires k.current in k.tstate && Leaves(k, k', end, [t]) && t in k.tstate && t != k.current
    ensures (t in k'.run || t == k'.current) && t in k'.tstate && (k'.tstate[t] == Ready || k'.tstate[t] == Running)
  {
    var line := k.run + [t];
    assert line[|line| - 1] == t;
    assert |line| > 1 ==> line[1..][|line| - 2] == t;
  }
}
