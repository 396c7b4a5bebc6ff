/** The scheduler, wait queues, mutexes, semaphores and stop/continue as the code that updates threads and links in
    place. */
module SchedulerCode {
  import opened Machine
  import opened Scheduling
  import opened Interleavings
  import opened ThreadQueues
  import opened SchedulerRuns
  import opened StepEffects

  class Mutex {
    var owner: Thread?

    constructor ()
      ensures owner == null
    {
      owner := null;
    }
  }

  class Counter {
    var count: int

    constructor (count: int)
      ensures this.count == count
    {
      this.count := count;
    }
  }

  /** No two names share a queue, a mutex or a semaphore. */
  ghost predicate AllDistinct(run: ThreadQueue, waits: map<Wq, ThreadQueue>, mutexes: map<nat, Mutex>,
                              sems: map<nat, Counter>)
  {
    && run !in waits.Values
    && (forall v, w | v in waits && w in waits && v != w :: waits[v] != waits[w])
    && (forall v, w | v in mutexes && w in mutexes && v != w :: mutexes[v] != mutexes[w])
    && (forall v, w | v in sems && w in sems && v != w :: sems[v] != sems[w])
  }

  // Snapshots of the fields the code updates.

  ghost function StatesOf(threads: map<Tid, Thread>): map<Tid, ThreadState>
    reads threads.Values
  {
    map i | i in threads :: threads[i].state
  }

  ghost function OwnersOf(mutexes: map<nat, Mutex>): map<nat, Thread?>
    reads mutexes.Values
  {
    map m | m in mutexes :: mutexes[m].owner
  }

  ghost function CountsOf(sems: map<nat, Counter>): map<nat, int>
    reads sems.Values
  {
    map s | s in sems :: sems[s].count
  }

  ghost predicate OwnersMatch(owners: map<nat, Thread?>, owner: map<nat, Tid>, threads: map<Tid, Thread>) {
    && owner.Keys <= owners.Keys && (forall m | m in owner :: owner[m] in threads)
    && (forall m | m in owners :: owners[m] == if m in owner then threads[owner[m]] else null)
  }

  ghost predicate CountsMatch(counts: map<nat, int>, sems: map<nat, Semaphore>) {
    counts.Keys == sems.Keys && forall s | s in sems :: counts[s] == sems[s].count
  }

  lemma OwnersKeys(mutexes: map<nat, Mutex>)
    ensures OwnersOf(mutexes).Keys == mutexes.Keys
  {
  }

  lemma OwnersSet(owners: map<nat, Thread?>, owner: map<nat, Tid>, threads: map<Tid, Thread>, m: nat, t: Thread?)
    requires OwnersMatch(owners, owner, threads) && m in owners
      && (t != null ==> t.tid in threads && threads[t.tid] == t)
    ensures OwnersMatch(owners[m := t], if t == null then owner - {m} else owner[m := t.tid], threads)
  {
  }

  lemma OwnersGrow(owners: map<nat, Thread?>, owner: map<nat, Tid>, threads: map<Tid, Thread>,
                   threads': map<Tid, Thread>)
    requires OwnersMatch(owners, owner, threads)
      && forall i | i in threads :: i in threads' && threads'[i] == threads[i]
    ensures OwnersMatch(owners, owner, threads')
  {
  }

  lemma ValuesGrow(threads: map<Tid, Thread>, t: Tid, thread: Thread)
    requires t !in threads
    ensures threads[t := thread].Values == threads.Values + {thread}
  {
    var threads' := threads[t := thread];
    forall x | x in threads.Values ensures x in threads'.Values {
      var i :| i in threads && threads[i] == x;
      assert threads'[i] == x;
    }
    assert threads'[t] == thread;
  }

  lemma CountsSet(counts: map<nat, int>, sems: map<nat, Semaphore>, s: nat, x: Semaphore)
    requires CountsMatch(counts, sems) && s in sems
    ensures CountsMatch(counts[s := x.count], sems[s := x])
  {
  }

  lemma PlacedApart(k: Kernel)
    requires Placed(k)
    ensures Apart(k.run, k.wait)
    ensures forall t :: !(t in k.tstate && k.tstate[t] in {Ready, Blocked}) ==> Unqueued(k.run, k.wait, t)
  {
    forall w ensures Separate(k.run, k.wait, w) {
      assert QueueOk(k, w) && k.Queue(w) == Line(k.wait, w);
      forall t, v | t in k.Queue(w) && v != w ensures t !in Line(k.wait, v) {
        assert QueueOk(k, v) && k.Queue(v) == Line(k.wait, v);
      }
    }
    forall t | !(t in k.tstate && k.tstate[t] in {Ready, Blocked}) ensures Unqueued(k.run, k.wait, t) {
      forall w ensures t !in Line(k.wait, w) { assert QueueOk(k, w) && k.Queue(w) == Line(k.wait, w); }
    }
  }

  /** Empty queues, free mutexes and fresh counters stand for the boot state. */
  lemma BootMatch(idle: Tid, initial: map<nat, int>, runEnds: Ends, ends: map<Wq, Ends>, owners: map<nat, Thread?>,
                  threads: map<Tid, Thread>, links: map<Tid, Thread?>)
    requires runEnds == Ends(null, null) && (forall w | w in ends :: ends[w] == Ends(null, null))
      && forall m | m in owners :: owners[m] == null
    ensures var k := Boot(idle, initial);
      QueuesMatch(k.run, k.wait, runEnds, ends, threads, links, {}) && OwnersMatch(owners, k.owner, threads)
        && CountsMatch(initial, k.sems)
  {
    var k := Boot(idle, initial);
    forall w ensures Separate(k.run, k.wait, w) { assert Line(k.wait, w) == []; }
    forall w | w in ends ensures WaitMatch(Line(k.wait, w), ends[w], threads, links, true) {}
  }

  lemma StopEffect(k: Kernel, parent: Option<nat>)
    requires Inv(k) && At(k, Out)
    ensures Halted(k, parent).current in Halted(k, parent).tstate
      && Effect(k, Op.Stop(parent), Scheduling.Schedule(Halted(k, parent)))
  {
    hide Does, Placed, Sync, Halted, Scheduling.Schedule;
    StopInv(k, parent);
    EveryStepDoes(k, Op.Stop(parent));
  }

  lemma ExitEffect(k: Kernel, parent: Option<nat>)
    requires Inv(k) && At(k, Out)
    ensures Ended(k, parent).current in Ended(k, parent).tstate
      && Effect(k, Op.Exit(parent), Scheduling.Schedule(Ended(k, parent)))
  {
    hide Does, Placed, Sync, Ended, Scheduling.Schedule;
    ExitInv(k, parent);
    EveryStepDoes(k, Op.Exit(parent));
  }

  class System {
    const run: ThreadQueue
    const waits: map<Wq, ThreadQueue>
    const mutexes: map<nat, Mutex>
    const sems: map<nat, Counter>
    const idle: Thread
    var current: Thread
    /** Threads whose process is in the stopped state. */
    var stopped: set<Tid>
    /** The thread table. */
    var threads: map<Tid, Thread>
    /** The abstract state these objects stand for. */
    ghost var k: Kernel

    /** `sched_init`, `wq_init`, `mutex_init` and `sem_init` done, and the boot thread made the idle thread. */
    constructor (run: ThreadQueue, waits: map<Wq, ThreadQueue>, mutexes: map<nat, Mutex>, sems: map<nat, Counter>,
                 idle: Thread)
      requires idle.state == Running && run.head == null && run.tail == null && AllDistinct(run, waits, mutexes, sems)
      requires forall w | w in waits :: waits[w].head == null && waits[w].tail == null
      requires forall m | m in mutexes :: mutexes[m].owner == null
      ensures Valid() && k == Boot(idle.tid, CountsOf(sems))
      ensures this.run == run && this.waits == waits && this.mutexes == mutexes && this.sems == sems
        && this.idle == idle
    {
      this.run, this.waits, this.mutexes, this.sems, this.idle := run, waits, mutexes, sems, idle;
      current, stopped := idle, {};
      threads := map[idle.tid := idle];
      k := Boot(idle.tid, CountsOf(sems));
      new;
      hide System.Valid, CountsOf, AllDistinct;
      Booted();
    }

    /** Before anything has happened the objects stand for the boot state. */
    lemma Booted()
      requires Distinct() && run.head == null && run.tail == null && idle.state == Running
      requires forall w | w in waits :: waits[w].head == null && waits[w].tail == null
      requires forall m | m in mutexes :: mutexes[m].owner == null
      requires current == idle && stopped == {} && threads == map[idle.tid := idle]
      requires k == Boot(idle.tid, CountsOf(sems))
      ensures Valid()
    {
      hide Inv, QueuesMatch, OwnersMatch, CountsMatch, Links, AllDistinct;
      BootInv(idle.tid, CountsOf(sems));
      assert StatesOf(threads) == map[idle.tid := Running];
      BootMatch(idle.tid, CountsOf(sems), EndsOf(run), AllEnds(waits), OwnersOf(mutexes), threads, Links(threads));
    }

    ghost predicate Distinct() { AllDistinct(run, waits, mutexes, sems) }

    /** The objects stand for `k`, but for the tails of the wait queues in `loose`. */
    ghost predicate RepOf(k: Kernel, loose: set<Wq>)
      reads `current, `stopped, `threads, run, waits.Values, threads.Values, mutexes.Values, sems.Values
    {
      && Distinct() && Named(threads) && StatesOf(threads) == k.tstate && stopped == k.stopped
      && k.current in threads && threads[k.current] == current && k.idle in threads && threads[k.idle] == idle
      && QueuesMatch(k.run, k.wait, EndsOf(run), AllEnds(waits), threads, Links(threads), loose)
      && OwnersMatch(OwnersOf(mutexes), k.owner, threads) && CountsMatch(CountsOf(sems), k.sems)
    }

    ghost predicate Rep(loose: set<Wq>)
      reads this, run, waits.Values, threads.Values, mutexes.Values, sems.Values
    {
      RepOf(k, loose)
    }

    ghost predicate Valid()
      reads this, run, waits.Values, threads.Values, mutexes.Values, sems.Values
    {
      Rep({}) && Inv(k)
    }

    /** Following `next` from the head of `q` meets the threads numbered `ids`, in order, and ends at the tail. */
    ghost predicate Spells(q: ThreadQueue, ids: seq<Tid>)
      reads q, `threads, threads.Values
    {
      if ids == [] then q.head == null && q.tail == null else
        && (forall t | t in ids :: t in threads)
        && q.head == threads[ids[0]] && q.tail == threads[ids[|ids| - 1]] && threads[ids[|ids| - 1]].next == null
        && forall i | 0 <= i < |ids| - 1 :: threads[ids[i]].next == threads[ids[i + 1]]
    }

    lemma ChainSpells(q: ThreadQueue, ids: seq<Tid>)
      requires Chain(ids, q.head, q.tail, threads, Links(threads))
      ensures Spells(q, ids)
    {
      if ids != [] {
        forall i | 0 <= i < |ids| ensures ids[i] in threads { assert LinkAt(ids, i, threads, Links(threads)); }
        forall i | 0 <= i < |ids| - 1 ensures threads[ids[i]].next == threads[ids[i + 1]] {
          assert LinkAt(ids, i, threads, Links(threads)) && LinkAt(ids, i + 1, threads, Links(threads));
        }
        assert LinkAt(ids, |ids| - 1, threads, Links(threads));
      }
    }

    /** What the fields of the objects say: every thread's state, every list, every owner and every count. */
    lemma StandsFor()
      requires Valid()
      ensures threads.Keys == k.tstate.Keys
      ensures forall t | t in threads :: threads[t].tid == t && threads[t].state == k.tstate[t]
      ensures current.tid == k.current && stopped == k.stopped
      ensures Spells(run, k.run) && forall w | w in waits :: Spells(waits[w], k.Queue(w))
      ensures forall m | m in mutexes ::
        if m in k.owner then mutexes[m].owner != null && mutexes[m].owner.tid == k.owner[m]
          else mutexes[m].owner == null
      ensures sems.Keys == k.sems.Keys && forall s | s in sems :: sems[s].count == k.sems[s].count
    {
      hide Chain, Spells, Inv;
      assert StatesOf(threads).Keys == threads.Keys && CountsOf(sems).Keys == sems.Keys;
      forall t | t in threads ensures threads[t].state == k.tstate[t] { assert StatesOf(threads)[t] == k.tstate[t]; }
      forall s | s in sems ensures sems[s].count == k.sems[s].count { assert CountsOf(sems)[s] == k.sems[s].count; }
      ChainSpells(run, k.run);
      forall w | w in waits ensures Spells(waits[w], k.Queue(w)) {
        assert w in AllEnds(waits) && k.Queue(w) == Line(k.wait, w);
        ChainSpells(waits[w], k.Queue(w));
      }
      forall m | m in mutexes
        ensures if m in k.owner then mutexes[m].owner != null && mutexes[m].owner.tid == k.owner[m]
                else mutexes[m].owner == null
      {
        assert OwnersOf(mutexes)[m] == mutexes[m].owner;
      }
    }

    /** Writes one thread's state: nothing else changes. */
    method Mark(t: Thread, state: ThreadState)
      requires Named(threads) && t.tid in threads && threads[t.tid] == t
      modifies t`state
      ensures StatesOf(threads) == old(StatesOf(threads))[t.tid := state] && Links(threads) == old(Links(threads))
      ensures OwnersOf(mutexes) == old(OwnersOf(mutexes)) && CountsOf(sems) == old(CountsOf(sems))
      ensures EndsOf(run) == old(EndsOf(run)) && AllEnds(waits) == old(AllEnds(waits))
    {
      t.state := state;
    }

    method SetState(t: Thread, state: ThreadState, ghost loose: set<Wq>)
      requires Rep(loose) && t.tid in threads && threads[t.tid] == t
      modifies this`k, threads.Values`state
      ensures Rep(loose) && k == old(k).(tstate := old(k).tstate[t.tid := state])
    {
      hide QueuesMatch, OwnersMatch, CountsMatch, StatesOf, OwnersOf, CountsOf, Links, AllEnds, EndsOf;
      Mark(t, state);
      ghost var k1 := k.(tstate := k.tstate[t.tid := state]);
      assert RepOf(k1, loose);
      k := k1;
    }

    /** Pushes onto any of the queues: nothing but its links and ends changes. */
    method Append(q: ThreadQueue, t: Thread, ghost ids: seq<Tid>)
      requires Named(threads) && q.Holds(ids, threads) && NoDup(ids) && t.tid !in ids && t.tid in threads
        && threads[t.tid] == t
      modifies q, threads.Values`next
      ensures q.Holds(ids + [t.tid], threads) && SameLinksOutside(old(Links(threads)), Links(threads), ids + [t.tid])
      ensures StatesOf(threads) == old(StatesOf(threads)) && OwnersOf(mutexes) == old(OwnersOf(mutexes))
        && CountsOf(sems) == old(CountsOf(sems))
      ensures q != run ==> EndsOf(run) == old(EndsOf(run))
      ensures forall w | w in waits && waits[w] != q :: EndsOf(waits[w]) == old(EndsOf(waits[w]))
    {
      hide Chain, NoDup;
      q.Push(t, ids, threads);
    }

    method PushRun(t: Thread, ghost loose: set<Wq>)
      requires Rep(loose) && t.tid in threads && threads[t.tid] == t && Unqueued(k.run, k.wait, t.tid)
      modifies this`k, run, threads.Values`next
      ensures Rep(loose) && k == old(k).(run := old(k).run + [t.tid])
    {
      hide NoDup, Chain, OwnersMatch, CountsMatch, QueuesMatch, Unqueued, SameLinksOutside, StatesOf, OwnersOf,
           CountsOf, Links;
      ghost var links, runEnds := Links(threads), EndsOf(run);
      assert NoDup(k.run) && run.Holds(k.run, threads) && t.tid !in k.run by {
        RunMatch(k, runEnds, AllEnds(waits), threads, links, loose, t.tid);
      }
      Append(run, t, k.run);
      assert AllEnds(waits) == old(AllEnds(waits));
      PushRunMatch(k.run, k.wait, t.tid, runEnds, EndsOf(run), AllEnds(waits), threads, links, Links(threads), loose);
      ghost var k1 := k.(run := k.run + [t.tid]);
      assert RepOf(k1, loose);
      k := k1;
    }

    /** Pops from any of the queues. */
    method Detach(q: ThreadQueue, ghost ids: seq<Tid>) returns (t: Thread?)
      requires Named(threads) && q.Holds(ids, threads) && NoDup(ids)
      modifies q, threads.Values`next
      ensures ids == [] ==> t == null && q.Holds([], threads)
      ensures ids != [] ==> ids[0] in threads && t == threads[ids[0]] && q.Holds(ids[1..], threads)
      ensures SameLinksOutside(old(Links(threads)), Links(threads), ids)
      ensures StatesOf(threads) == old(StatesOf(threads)) && OwnersOf(mutexes) == old(OwnersOf(mutexes))
        && CountsOf(sems) == old(CountsOf(sems))
      ensures q != run ==> EndsOf(run) == old(EndsOf(run))
      ensures forall w | w in waits && waits[w] != q :: EndsOf(waits[w]) == old(EndsOf(waits[w]))
    {
      hide Chain, NoDup;
      t := q.Pop(ids, threads);
    }

    method PopRun() returns (t: Thread?)
      requires Rep({})
      modifies this`k, run, threads.Values`next
      ensures Rep({})
      ensures old(k).run == [] ==> t == null && k == old(k)
      ensures old(k).run != [] ==>
        && old(k).run[0] in threads && t == threads[old(k).run[0]] && k == old(k).(run := old(k).run[1..])
        && Unqueued(k.run, k.wait, t.tid)
    {
      hide NoDup, Chain, OwnersMatch, CountsMatch, QueuesMatch, Unqueued, SameLinksOutside, StatesOf, OwnersOf,
           CountsOf, Links;
      ghost var links, runEnds := Links(threads), EndsOf(run);
      assert NoDup(k.run) && run.Holds(k.run, threads) by {
        RunMatch(k, runEnds, AllEnds(waits), threads, links, {}, 0);
      }
      t := Detach(run, k.run);
      assert AllEnds(waits) == old(AllEnds(waits));
      if k.run != [] {
        PopRunMatch(k.run, k.wait, runEnds, EndsOf(run), AllEnds(waits), threads, links, Links(threads), {});
        ghost var k1 := k.(run := k.run[1..]);
        assert RepOf(k1, {});
        k := k1;
      } else {
        EmptyRunMatch(k.wait, runEnds, EndsOf(run), AllEnds(waits), threads, links, Links(threads), {});
      }
    }

    /** `sched_add_thread` */
    method AddThread(t: Thread, ghost loose: set<Wq>)
      requires Rep(loose) && t.tid in threads && threads[t.tid] == t && Unqueued(k.run, k.wait, t.tid)
      modifies this`k, run, threads.Values
      ensures Rep(loose) && k == Add(old(k), t.tid)
    {
      hide Rep;
      SetState(t, Ready, loose);
      PushRun(t, loose);
    }

    method SetCurrent(next: Thread)
      requires Rep({}) && next.tid in threads && threads[next.tid] == next
      modifies this`k, this`current
      ensures Rep({}) && k == old(k).(current := next.tid)
    {
      hide NoDup, Chain, OwnersMatch, CountsMatch, QueuesMatch, Unqueued, SameLinksOutside, StatesOf, OwnersOf,
           CountsOf, Links, AllEnds, EndsOf;
      current := next;
      ghost var k1 := k.(current := next.tid);
      assert RepOf(k1, {});
      k := k1;
    }

    /** The program counters and the record of holders are not stored anywhere. */
    ghost method SetGhost(pc: map<Tid, Pc>, holders: set<(Tid, nat)>)
      requires Rep({})
      modifies this`k
      ensures Rep({}) && k == old(k).(pc := pc, holders := holders)
    {
      hide NoDup, Chain, OwnersMatch, CountsMatch, QueuesMatch, Unqueued, SameLinksOutside, StatesOf, OwnersOf,
           CountsOf, Links, AllEnds, EndsOf;
      ghost var k1 := k.(pc := pc, holders := holders);
      assert RepOf(k1, {});
      k := k1;
    }

    /** `sched_schedule`, up to the switch of registers and address space. */
    method Schedule()
      requires Valid()
      modifies this`k, this`current, run, threads.Values
      ensures Valid() && k == Scheduling.Schedule(old(k))
    {
      hide Inv, Chain, QueuesMatch, OwnersMatch, CountsMatch, Distinct, Unqueued;
      ScheduleInv(k);
      CurrentFacts(k);
      assert current.state == k.tstate[k.current] && current.tid == k.current && idle.tid == k.idle;
      var previous := current;
      var next := PopRun();
      if next == null {
        if previous.state == Running { return; }
        next := idle;
      }
      if previous.state == Running && previous != idle {
        AddThread(previous, {});
      }
      SetState(next, Running, {});
      SetCurrent(next);
    }

    method PushWait(w: Wq, t: Thread)
      requires Rep({}) && w in waits && t.tid in threads && threads[t.tid] == t && Unqueued(k.run, k.wait, t.tid)
      modifies this`k, waits[w], threads.Values`next
      ensures Rep({}) && k == old(k).(wait := old(k).wait[w := old(k).Queue(w) + [t.tid]])
    {
      hide NoDup, Chain, OwnersMatch, CountsMatch, QueuesMatch, Unqueued, SameLinksOutside, StatesOf, OwnersOf,
           CountsOf, Links;
      ghost var links, ends, ids := Links(threads), AllEnds(waits), k.Queue(w);
      WaitAt(k, w, EndsOf(run), ends, threads, links, {}, t.tid);
      Append(waits[w], t, ids);
      PushWaitMatch(k.run, k.wait, w, t.tid, EndsOf(run), ends, AllEnds(waits), threads, links, Links(threads));
      ghost var k1 := k.(wait := k.wait[w := ids + [t.tid]]);
      assert RepOf(k1, {});
      k := k1;
    }

    method PopWait(w: Wq) returns (t: Thread?)
      requires Rep({}) && w in waits
      modifies this`k, waits[w], threads.Values`next
      ensures Rep({})
      ensures old(k).Queue(w) == [] ==> t == null && k == old(k)
      ensures old(k).Queue(w) != [] ==>
        && old(k).Queue(w)[0] in threads && t == threads[old(k).Queue(w)[0]]
        && k == old(k).(wait := old(k).wait[w := old(k).Queue(w)[1..]]) && Unqueued(k.run, k.wait, t.tid)
    {
      hide NoDup, Chain, OwnersMatch, CountsMatch, QueuesMatch, Unqueued, SameLinksOutside, StatesOf, OwnersOf,
           CountsOf, Links;
      ghost var links, ends, ids := Links(threads), AllEnds(waits), k.Queue(w);
      WaitAt(k, w, EndsOf(run), ends, threads, links, {}, 0);
      t := Detach(waits[w], ids);
      if ids != [] {
        PopWaitMatch(k.run, k.wait, w, EndsOf(run), ends, AllEnds(waits), threads, links, Links(threads), {});
        ghost var k1 := k.(wait := k.wait[w := ids[1..]]);
        assert RepOf(k1, {});
        k := k1;
      } else {
        EmptyWaitMatch(k.run, k.wait, w, EndsOf(run), ends, AllEnds(waits), threads, links, Links(threads));
      }
    }

    /** The first half of `wq_sleep`, up to its `sched_yield`. */
    method SleepOn(w: Wq)
      requires Rep({}) && w in waits && Unqueued(k.run, k.wait, k.current)
      modifies this`k, waits[w], threads.Values
      ensures Rep({}) && k == Sleep(old(k), w)
    {
      hide Chain, QueuesMatch, OwnersMatch, CountsMatch, Distinct, Unqueued;
      PushWait(w, current);
      SetState(current, Blocked, {});
      SetGhost(k.pc[k.current := Await(w)], k.holders);
    }

    /** `wq_wake` */
    method WakeOne(w: Wq) returns (woken: bool)
      requires Rep({}) && w in waits
      modifies this`k, waits[w], run, threads.Values
      ensures Rep({}) && k == Wake(old(k), w) && woken == (old(k).Queue(w) != [])
    {
      hide Chain, QueuesMatch, OwnersMatch, CountsMatch, Distinct, Unqueued;
      var t := PopWait(w);
      if t == null { return false; }
      AddThread(t, {});
      return true;
    }

    method DetachHead(q: ThreadQueue, ghost ids: seq<Tid>) returns (t: Thread)
      requires Named(threads) && WaitMatch(ids, EndsOf(q), threads, Links(threads), false) && NoDup(ids)
        && q.head != null && q != run
      modifies q, threads.Values`next
      ensures ids != [] && ids[0] in threads && t == threads[ids[0]]
        && WaitMatch(ids[1..], EndsOf(q), threads, Links(threads), false)
      ensures SameLinksOutside(old(Links(threads)), Links(threads), ids)
      ensures StatesOf(threads) == old(StatesOf(threads)) && OwnersOf(mutexes) == old(OwnersOf(mutexes))
        && CountsOf(sems) == old(CountsOf(sems))
      ensures EndsOf(run) == old(EndsOf(run))
        && forall w | w in waits && waits[w] != q :: EndsOf(waits[w]) == old(EndsOf(waits[w]))
    {
      hide Chain, NoDup, WaitMatch;
      t := q.PopHead(ids, threads);
    }

    method PopLoose(w: Wq) returns (t: Thread)
      requires Rep({w}) && w in waits && waits[w].head != null
      modifies this`k, waits[w], threads.Values`next
      ensures Rep({w}) && old(k).Queue(w) != [] && old(k).Queue(w)[0] in threads && t == threads[old(k).Queue(w)[0]]
      ensures k == old(k).(wait := old(k).wait[w := old(k).Queue(w)[1..]]) && Unqueued(k.run, k.wait, t.tid)
    {
      hide NoDup, Chain, OwnersMatch, CountsMatch, QueuesMatch, Unqueued, SameLinksOutside, StatesOf, OwnersOf,
           CountsOf, Links, WaitMatch;
      ghost var links, ends, ids := Links(threads), AllEnds(waits), k.Queue(w);
      WaitAt(k, w, EndsOf(run), ends, threads, links, {w}, 0);
      t := DetachHead(waits[w], ids);
      PopWaitMatch(k.run, k.wait, w, EndsOf(run), ends, AllEnds(waits), threads, links, Links(threads), {w});
      ghost var k1 := k.(wait := k.wait[w := ids[1..]]);
      assert RepOf(k1, {w});
      k := k1;
    }

    ghost method Loosen(w: Wq)
      requires Rep({}) && w in waits
      ensures Rep({w})
    {
      hide NoDup, Chain, OwnersMatch, CountsMatch, QueuesMatch, Unqueued, SameLinksOutside, StatesOf, OwnersOf,
           CountsOf, Links;
      LooseMatch(k.run, k.wait, w, EndsOf(run), AllEnds(waits), AllEnds(waits), threads, Links(threads));
    }

    method ClearTail(w: Wq)
      requires Rep({w}) && w in waits && waits[w].head == null
      modifies waits[w]
      ensures Rep({}) && k.Queue(w) == []
    {
      hide NoDup, Chain, OwnersMatch, CountsMatch, QueuesMatch, Unqueued, SameLinksOutside, StatesOf, OwnersOf,
           CountsOf, Links;
      ghost var ends := AllEnds(waits);
      waits[w].tail := null;
      LooseMatch(k.run, k.wait, w, EndsOf(run), ends, AllEnds(waits), threads, Links(threads));
    }

    /** `wq_wake_all` */
    method WakeEveryone(w: Wq) returns (count: nat)
      requires Rep({}) && w in waits
      modifies this`k, waits[w], run, threads.Values
      ensures Rep({}) && k == WakeAll(old(k), w) && count == |old(k).Queue(w)|
    {
      hide Rep, Add, Unqueued;
      count := 0;
      Loosen(w);
      while waits[w].head != null
        invariant Rep({w}) && WakeAll(k, w) == WakeAll(old(k), w) && count + |k.Queue(w)| == |old(k).Queue(w)|
        decreases |k.Queue(w)|
      {
        ghost var k1 := k;
        var t := PopLoose(w);
        assert t.tid == k1.Queue(w)[0] by { NamedHolds({w}); }
        AddThread(t, {w});
        assert k == Wake(k1, w);
        AddQueue(k1.(wait := k1.wait[w := k1.Queue(w)[1..]]), t.tid, w);
        count := count + 1;
      }
      ClearTail(w);
    }

    // ----- mutexes -----

    method WriteOwner(m: nat, owner: Thread?)
      requires Distinct() && m in mutexes
      modifies mutexes[m]
      ensures OwnersOf(mutexes) == old(OwnersOf(mutexes))[m := owner] && CountsOf(sems) == old(CountsOf(sems))
      ensures StatesOf(threads) == old(StatesOf(threads)) && Links(threads) == old(Links(threads))
      ensures EndsOf(run) == old(EndsOf(run)) && AllEnds(waits) == old(AllEnds(waits))
    {
      mutexes[m].owner := owner;
    }

    method SetOwner(m: nat, owner: Thread?)
      requires Rep({}) && m in mutexes && (owner != null ==> owner.tid in threads && threads[owner.tid] == owner)
      modifies this`k, mutexes[m]
      ensures Rep({}) && k == old(k).(owner := if owner == null then old(k).owner - {m}
        else old(k).owner[m := owner.tid])
    {
      hide NoDup, Chain, OwnersMatch, CountsMatch, QueuesMatch, Unqueued, SameLinksOutside, StatesOf, OwnersOf,
           CountsOf, Links, AllEnds, EndsOf;
      OwnersKeys(mutexes);
      OwnersSet(OwnersOf(mutexes), k.owner, threads, m, owner);
      WriteOwner(m, owner);
      ghost var k1 := k.(owner := if owner == null then k.owner - {m} else k.owner[m := owner.tid]);
      assert RepOf(k1, {});
      k := k1;
    }

    /** A turn of the loop of `mutex_lock`: take the mutex, or go to sleep on it. */
    method LockTurn(m: nat) returns (taken: bool)
      requires Valid() && m in mutexes && MutexQ(m) in waits && (At(k, Out) || At(k, Await(MutexQ(m))))
      modifies this`k, mutexes[m], waits[MutexQ(m)], threads.Values
      ensures Valid() && k == LockStep(old(k), m) && taken == (m !in old(k).owner)
    {
      hide Inv, Chain, QueuesMatch, OwnersMatch, CountsMatch, Distinct, Unqueued, StatesOf, Links, AllEnds, OwnersOf,
           CountsOf, EndsOf;
      CurrentFacts(k);
      if m in k.owner { SleepSync(k, MutexQ(m)); } else { AcquireSync(k, m); }
      OwnerField(m);
      if mutexes[m].owner != null {
        SleepOn(MutexQ(m));
        return false;
      }
      SetOwner(m, current);
      SetGhost(k.pc[k.current := Out], k.holders + {(k.current, m)});
      return true;
    }

    /** `mutex_trylock` */
    method TryLock(m: nat) returns (result: int)
      requires Valid() && m in mutexes && At(k, Out)
      modifies this`k, mutexes[m]
      ensures Valid() && k == (if m in old(k).owner then old(k) else Acquire(old(k), m))
        && result == (if m in old(k).owner then -1 else 0)
    {
      hide Inv, Chain, QueuesMatch, OwnersMatch, CountsMatch, Distinct, Unqueued, StatesOf, Links, AllEnds, OwnersOf,
           CountsOf, EndsOf;
      if m !in k.owner { AcquireSync(k, m); }
      OwnerField(m);
      if mutexes[m].owner != null { return -1; }
      SetOwner(m, current);
      SetGhost(k.pc[k.current := Out], k.holders + {(k.current, m)});
      return 0;
    }

    /** `mutex_unlock` */
    method Unlock(m: nat)
      requires Valid() && m in mutexes && MutexQ(m) in waits && At(k, Out) && (k.current, m) in k.holders
      modifies this`k, mutexes[m], waits[MutexQ(m)], run, threads.Values
      ensures Valid() && k == UnlockStep(old(k), m)
    {
      hide Inv, Chain, QueuesMatch, OwnersMatch, CountsMatch, Distinct, Unqueued, StatesOf, Links, AllEnds, OwnersOf,
           CountsOf, EndsOf;
      UnlockSync(k, m);
      SetOwner(m, null);
      SetGhost(k.pc, k.holders - {(k.current, m)});
      var woken := WakeOne(MutexQ(m));
    }

    // ----- semaphores -----

    method WriteCount(s: nat, count: int)
      requires Distinct() && s in sems
      modifies sems[s]
      ensures CountsOf(sems) == old(CountsOf(sems))[s := count] && OwnersOf(mutexes) == old(OwnersOf(mutexes))
      ensures StatesOf(threads) == old(StatesOf(threads)) && Links(threads) == old(Links(threads))
      ensures EndsOf(run) == old(EndsOf(run)) && AllEnds(waits) == old(AllEnds(waits))
    {
      sems[s].count := count;
    }

    method SetCount(s: nat, count: int, ghost posts: nat, ghost units: nat)
      requires Rep({}) && s in sems && s in k.sems
      modifies this`k, sems[s]
      ensures Rep({}) && k == old(k).(sems :=
        old(k).sems[s := old(k).sems[s].(count := count, posts := posts, waits := units)])
    {
      hide NoDup, Chain, OwnersMatch, CountsMatch, QueuesMatch, Unqueued, SameLinksOutside, StatesOf, OwnersOf,
           CountsOf, Links, AllEnds, EndsOf;
      CountsSet(CountsOf(sems), k.sems, s, k.sems[s].(count := count, posts := posts, waits := units));
      WriteCount(s, count);
      ghost var k1 := k.(sems := k.sems[s := k.sems[s].(count := count, posts := posts, waits := units)]);
      assert RepOf(k1, {});
      k := k1;
    }

    /** A turn of the loop of `sem_wait`. */
    method SemWaitTurn(s: nat) returns (taken: bool)
      requires Valid() && s in sems && s in k.sems && SemQ(s) in waits && (At(k, Out) || At(k, Await(SemQ(s))))
      modifies this`k, sems[s], waits[SemQ(s)], threads.Values
      ensures Valid() && k == SemWaitStep(old(k), s) && taken == (old(k).sems[s].count > 0)
    {
      hide Inv, Chain, QueuesMatch, OwnersMatch, CountsMatch, Distinct, Unqueued, StatesOf, Links, AllEnds, OwnersOf,
           CountsOf, EndsOf;
      CurrentFacts(k);
      if k.sems[s].count <= 0 { SleepSync(k, SemQ(s)); } else { TakeUnitSync(k, s); }
      CountField(s);
      if sems[s].count <= 0 {
        SleepOn(SemQ(s));
        return false;
      }
      SetCount(s, sems[s].count - 1, k.sems[s].posts, k.sems[s].waits + 1);
      SetGhost(k.pc[k.current := Out], k.holders);
      return true;
    }

    /** `sem_trywait` */
    method SemTryWait(s: nat) returns (result: int)
      requires Valid() && s in sems && s in k.sems && At(k, Out)
      modifies this`k, sems[s]
      ensures Valid() && k == (if old(k).sems[s].count <= 0 then old(k) else TakeUnit(old(k), s))
      ensures result == (if old(k).sems[s].count <= 0 then -1 else 0)
    {
      hide Inv, Chain, QueuesMatch, OwnersMatch, CountsMatch, Distinct, Unqueued, StatesOf, Links, AllEnds, OwnersOf,
           CountsOf, EndsOf;
      if k.sems[s].count > 0 { TakeUnitSync(k, s); }
      CountField(s);
      if sems[s].count <= 0 { return -1; }
      SetCount(s, sems[s].count - 1, k.sems[s].posts, k.sems[s].waits + 1);
      SetGhost(k.pc[k.current := Out], k.holders);
      return 0;
    }

    /** `sem_post` */
    method SemPost(s: nat)
      requires Valid() && s in sems && s in k.sems && SemQ(s) in waits
      modifies this`k, sems[s], waits[SemQ(s)], run, threads.Values
      ensures Valid() && k == SemPostStep(old(k), s)
    {
      hide Inv, Chain, QueuesMatch, OwnersMatch, CountsMatch, Distinct, Unqueued, StatesOf, Links, AllEnds, OwnersOf,
           CountsOf, EndsOf;
      PostSync(k, s);
      CountField(s);
      SetCount(s, sems[s].count + 1, k.sems[s].posts + 1, k.sems[s].waits);
      var woken := WakeOne(SemQ(s));
    }

    lemma OwnerField(m: nat)
      requires Rep({}) && m in mutexes
      ensures mutexes[m].owner == null <==> m !in k.owner
    {
      hide QueuesMatch, CountsMatch;
      assert OwnersOf(mutexes)[m] == mutexes[m].owner;
    }

    lemma CountField(s: nat)
      requires Rep({}) && s in sems && s in k.sems
      ensures sems[s].count == k.sems[s].count
    {
      hide QueuesMatch, OwnersMatch;
      assert CountsOf(sems)[s] == sems[s].count;
    }

    // ----- stop, continue, exit, create -----

    /** `sched_remove_thread` on a thread that is not queued. */
    method RemoveRun(t: Thread)
      requires Rep({}) && t.tid in threads && threads[t.tid] == t && t.tid !in k.run
      modifies this`k, run, threads.Values`next
      ensures Rep({}) && k == old(k).(run := Without(old(k).run, t.tid))
    {
      hide NoDup, Chain, OwnersMatch, CountsMatch, QueuesMatch, Unqueued, SameLinksOutside, StatesOf, OwnersOf,
           CountsOf, Links;
      ghost var links, runEnds := Links(threads), EndsOf(run);
      RunMatch(k, runEnds, AllEnds(waits), threads, links, {}, t.tid);
      Extract(t);
      assert AllEnds(waits) == old(AllEnds(waits));
      RemoveRunMatch(k.run, k.wait, t.tid, runEnds, EndsOf(run), AllEnds(waits), threads, links, Links(threads), {});
      ghost var k1 := k.(run := Without(k.run, t.tid));
      assert RepOf(k1, {});
      k := k1;
    }

    method Extract(t: Thread)
      requires Named(threads) && run.Holds(k.run, threads) && NoDup(k.run) && t.tid in threads && threads[t.tid] == t
        && run !in waits.Values
      modifies run, threads.Values`next
      ensures run.Holds(Without(k.run, t.tid), threads) && SameLinksOutside(old(Links(threads)), Links(threads), k.run)
      ensures StatesOf(threads) == old(StatesOf(threads)) && OwnersOf(mutexes) == old(OwnersOf(mutexes))
        && CountsOf(sems) == old(CountsOf(sems))
      ensures forall w | w in waits :: EndsOf(waits[w]) == old(EndsOf(waits[w]))
    {
      hide Chain, NoDup;
      run.Remove(t, k.run, threads);
    }

    method SetStopped(stopped: set<Tid>)
      requires Rep({})
      modifies this`k, this`stopped
      ensures Rep({}) && k == old(k).(stopped := stopped)
    {
      hide NoDup, Chain, OwnersMatch, CountsMatch, QueuesMatch, Unqueued, SameLinksOutside, StatesOf, OwnersOf,
           CountsOf, Links, AllEnds, EndsOf;
      this.stopped := stopped;
      ghost var k1 := k.(stopped := stopped);
      assert RepOf(k1, {});
      k := k1;
    }

    /** Wakes a parent waiting for children, if there is one. */
    method NotifyParent(parent: Option<nat>)
      requires Rep({}) && (parent.Some? ==> OtherQ(parent.value) in waits)
      modifies this`k, waits.Values, run, threads.Values
      ensures Rep({}) && k == WakeParent(old(k), parent)
    {
      hide Rep, Wake;
      if parent.Some? { var woken := WakeOne(OtherQ(parent.value)); }
    }

    /** `sig_stop` for the current process. */
    method Stop(parent: Option<nat>)
      requires Valid() && At(k, Out) && (parent.Some? ==> OtherQ(parent.value) in waits)
      modifies this`k, this`current, this`stopped, waits.Values, run, threads.Values
      ensures Valid()
      ensures old(k).current in old(k).tstate && Halted(old(k), parent).current in Halted(old(k), parent).tstate
      ensures k == Scheduling.Schedule(Halted(old(k), parent))
      ensures Effect(old(k), Op.Stop(parent), k)
    {
      hide Effect, Inv, Chain, QueuesMatch, OwnersMatch, CountsMatch, Distinct, Unqueued, StatesOf, Links, AllEnds,
        OwnersOf,
           CountsOf, EndsOf;
      StopInv(k, parent);
      CurrentFacts(k);
      assert current.tid == k.current && k.current !in k.run by { RunningNotQueued(k); }
      SetStopped(stopped + {current.tid});
      SetState(current, Stopped, {});
      RemoveRun(current);
      NotifyParent(parent);
      assert k == Halted(old(k), parent);
      CurrentFacts(k);
      Schedule();
      StopEffect(old(k), parent);
    }

    /** `sys_exit` after the descriptors are closed, and `sig_terminate`. */
    method Exit(parent: Option<nat>)
      requires Valid() && At(k, Out) && (parent.Some? ==> OtherQ(parent.value) in waits)
      modifies this`k, this`current, waits.Values, run, threads.Values
      ensures Valid()
      ensures old(k).current in old(k).tstate && Ended(old(k), parent).current in Ended(old(k), parent).tstate
      ensures k == Scheduling.Schedule(Ended(old(k), parent))
      ensures Effect(old(k), Op.Exit(parent), k)
    {
      hide Effect, Inv, Chain, QueuesMatch, OwnersMatch, CountsMatch, Distinct, Unqueued, StatesOf, Links, AllEnds,
        OwnersOf,
           CountsOf, EndsOf;
      ExitInv(k, parent);
      CurrentFacts(k);
      NotifyParent(parent);
      SetState(current, Dead, {});
      assert k == Ended(old(k), parent);
      CurrentFacts(k);
      Schedule();
      ExitEffect(old(k), parent);
    }

    /** `sig_continue` */
    method Continue(t: Tid)
      requires Valid()
      modifies this`k, this`stopped, run, threads.Values
      ensures Valid() && k == (if t in old(k).stopped then Add(old(k).(stopped := old(k).stopped - {t}), t) else old(k))
    {
      hide Inv, Chain, QueuesMatch, OwnersMatch, CountsMatch, Distinct, Unqueued, StatesOf, Links, AllEnds, OwnersOf,
           CountsOf, EndsOf;
      if t !in stopped { return; }
      ContinueInv(k, t);
      StoppedFacts(k, t);
      assert t in threads && threads[t].tid == t by { TableKeys(); }
      SetStopped(stopped - {t});
      AddThread(threads[t], {});
    }

    /** `thread_create` and `sched_add_thread` */
    method Spawn(t: Tid)
      requires Valid() && t !in k.tstate && t !in k.pc
      modifies this`k, this`threads, run, threads.Values
      ensures Valid() && k == Add(old(k).(pc := old(k).pc[t := Out]), t)
      ensures fresh(threads.Values - old(threads.Values)) && old(threads.Values) <= threads.Values
    {
      hide Rep, Inv, Unqueued;
      SpawnFacts(k, t);
      var thread := new Thread(t, Ready);
      Enter(thread);
      AddThread(thread, {});
      SetGhost(k.pc[t := Out], k.holders);
      assert k.tstate == old(k).tstate[t := Ready];
    }

    method AddToTable(t: Thread)
      requires Named(threads) && t.tid !in threads
      modifies this`threads
      ensures threads == old(threads)[t.tid := t] && threads.Values == old(threads.Values) + {t} && Named(threads)
      ensures StatesOf(threads) == old(StatesOf(threads))[t.tid := t.state]
        && Links(threads) == old(Links(threads))[t.tid := t.next]
      ensures OwnersOf(mutexes) == old(OwnersOf(mutexes)) && CountsOf(sems) == old(CountsOf(sems))
      ensures EndsOf(run) == old(EndsOf(run)) && AllEnds(waits) == old(AllEnds(waits))
    {
      ValuesGrow(threads, t.tid, t);
      threads := threads[t.tid := t];
    }

    method Enter(t: Thread)
      requires Rep({}) && t.tid !in k.tstate
      modifies this`k, this`threads
      ensures Rep({}) && k == old(k).(tstate := old(k).tstate[t.tid := t.state])
      ensures t.tid in threads && threads[t.tid] == t && threads.Values == old(threads.Values) + {t}
    {
      hide NoDup, Chain, OwnersMatch, CountsMatch, QueuesMatch, Unqueued, SameLinksOutside, StatesOf, OwnersOf,
           CountsOf, Links, AllEnds, EndsOf;
      TableKeys();
      LinksKeys(threads);
      GrowMatch(k.run, k.wait, EndsOf(run), AllEnds(waits), threads, Links(threads), threads[t.tid := t],
        Links(threads)[t.tid := t.next]);
      OwnersGrow(OwnersOf(mutexes), k.owner, threads, threads[t.tid := t]);
      AddToTable(t);
      ghost var k1 := k.(tstate := k.tstate[t.tid := t.state]);
      assert RepOf(k1, {});
      k := k1;
    }

    lemma TableKeys()
      requires Rep({})
      ensures threads.Keys == k.tstate.Keys && Named(threads)
    {
      hide QueuesMatch, OwnersMatch, CountsMatch;
      assert StatesOf(threads).Keys == threads.Keys;
    }

    // ----- any sequence of steps -----

    /** The objects an operation names exist. */
    predicate Known(op: Op) {
      match op
      case Lock(m) => m in mutexes && MutexQ(m) in waits
      case TryLock(m) => m in mutexes
      case Unlock(m) => m in mutexes && MutexQ(m) in waits
      case SemWait(s) => s in sems && SemQ(s) in waits
      case SemTryWait(s) => s in sems
      case SemPost(s) => s in sems && SemQ(s) in waits
      case SleepOther(n) => OtherQ(n) in waits
      case WakeOther(n) => OtherQ(n) in waits
      case WakeAllOther(n) => OtherQ(n) in waits
      case Stop(parent) => parent.Some? ==> OtherQ(parent.value) in waits
      case Exit(parent) => parent.Some? ==> OtherQ(parent.value) in waits
      case _ => true
    }

    method SleepOther(n: nat)
      requires Valid() && At(k, Out) && OtherQ(n) in waits
      modifies this`k, waits.Values, threads.Values
      ensures Valid() && k == Sleep(old(k), OtherQ(n))
    {
      hide RepOf, Inv, Unqueued;
      CurrentFacts(k);
      SleepSync(k, OtherQ(n));
      SleepOn(OtherQ(n));
    }

    method WakeOther(n: nat, everyone: bool)
      requires Valid() && OtherQ(n) in waits
      modifies this`k, waits.Values, run, threads.Values
      ensures Valid() && k == if everyone then WakeAll(old(k), OtherQ(n)) else Wake(old(k), OtherQ(n))
    {
      hide RepOf, Inv, Unqueued;
      WakeOtherInv(k, n);
      WakeAllOtherInv(k, n);
      if everyone {
        var count := WakeEveryone(OtherQ(n));
      } else {
        var woken := WakeOne(OtherQ(n));
      }
    }

    /** The steps of the lock primitives. */
    predicate OfLocks(op: Op) {
      op.Lock? || op.TryLock? || op.Unlock? || op.SemWait? || op.SemTryWait? || op.SemPost?
    }

    method StepLocks(op: Op)
      requires Valid() && Enabled(k, op) && Known(op) && OfLocks(op)
      modifies this`k, run, waits.Values, threads.Values, mutexes.Values, sems.Values
      ensures old(Placed(k) && States(k)) && Valid() && k == Apply(old(k), op)
    {
      hide RepOf, Inv, Placed, States, Scheduling.Schedule, Sleep, Wake, WakeAll, Acquire, LockStep, UnlockStep,
           TakeUnit, SemWaitStep, SemPostStep, Halted, Ended;
      InvParts(k);
      match op
      case Lock(m) => var taken := LockTurn(m);
      case TryLock(m) => var result := TryLock(m);
      case Unlock(m) => Unlock(m);
      case SemWait(s) => var taken := SemWaitTurn(s);
      case SemTryWait(s) => var result := SemTryWait(s);
      case SemPost(s) => SemPost(s);
    }

    method StepThreads(op: Op)
      requires Valid() && Enabled(k, op) && Known(op) && !OfLocks(op)
      modifies this, run, waits.Values, threads.Values, mutexes.Values, sems.Values
      ensures old(Placed(k) && States(k)) && Valid() && k == Apply(old(k), op)
      ensures fresh(threads.Values - old(threads.Values))
    {
      hide RepOf, Inv, Placed, States, Scheduling.Schedule, Sleep, Wake, WakeAll, Acquire, LockStep, UnlockStep,
           TakeUnit, SemWaitStep, SemPostStep, Halted, Ended;
      InvParts(k);
      match op
      case Spawn(t) => Spawn(t);
      case Tick => Schedule();
      case SleepOther(n) => SleepOther(n);
      case Resume => ResumeInv(k); SetGhost(k.pc[k.current := Out], k.holders);
      case WakeOther(n) => WakeOther(n, false);
      case WakeAllOther(n) => WakeOther(n, true);
      case Stop(parent) => Stop(parent);
      case Continue(t) => Continue(t);
      case Exit(parent) => Exit(parent);
    }

    /** The code for an operation does to the objects what the step does to the abstract state. */
    method Step(op: Op)
      requires Valid() && Enabled(k, op) && Known(op)
      modifies this, run, waits.Values, threads.Values, mutexes.Values, sems.Values
      ensures old(Placed(k) && States(k)) && Valid() && k == Apply(old(k), op) && Effect(old(k), op, k)
      ensures fresh(threads.Values - old(threads.Values))
    {
      hide Rep, Inv, Apply, Enabled, Known, Placed, States, Does;
      if OfLocks(op) { StepLocks(op); } else { StepThreads(op); }
      EveryStepDoes(old(k), op);
    }

    /** Running any legal sequence of operations leaves the objects standing for the abstract run's final state. */
    method Run(ops: seq<Op>)
      requires Valid() && Legal(k, ops) && forall op | op in ops :: Known(op)
      modifies this, run, waits.Values, threads.Values, mutexes.Values, sems.Values
      ensures Valid() && k == After(old(k), ops)
      ensures fresh(threads.Values - old(threads.Values))
    {
      hide Rep, Inv, Apply, Enabled, Known, Effect, Placed, States;
      if ops != [] {
        assert ops[0] in ops;
        Step(ops[0]);
        Run(ops[1..]);
      }
    }

    lemma NamedHolds(loose: set<Wq>)
      requires Rep(loose)
      ensures Named(threads)
    {
    }
  }

  lemma InvParts(k: Kernel)
    requires Inv(k)
    ensures Placed(k) && States(k)
  {
  }

  lemma RunningNotQueued(k: Kernel)
    requires Inv(k) && At(k, Out)
    ensures k.current !in k.run
  {
  }

  lemma StoppedFacts(k: Kernel, t: Tid)
    requires Inv(k) && t in k.stopped
    ensures t in k.tstate && Unqueued(k.run, k.wait, t)
  {
    hide Sync;
    assert StateOk(k, t);
    PlacedApart(k);
  }

  lemma SpawnFacts(k: Kernel, t: Tid)
    requires Inv(k) && t !in k.tstate && t !in k.pc
    ensures Unqueued(k.run, k.wait, t) && Inv(Add(k.(pc := k.pc[t := Out]), t))
  {
    PlacedApart(k);
    hide Sync;
    assert k.stopped - {t} == k.stopped;
    AddInv(k, t);
  }

  lemma AddQueue(k: Kernel, t: Tid, w: Wq)
    ensures Add(k, t).Queue(w) == k.Queue(w)
  {
  }

  lemma WaitAt(k: Kernel, w: Wq, runEnds: Ends, ends: map<Wq, Ends>, threads: map<Tid, Thread>,
               links: map<Tid, Thread?>, loose: set<Wq>, t: Tid)
    requires QueuesMatch(k.run, k.wait, runEnds, ends, threads, links, loose) && w in ends
    ensures NoDup(k.Queue(w)) && k.Queue(w) == Line(k.wait, w)
      && WaitMatch(k.Queue(w), ends[w], threads, links, w !in loose)
    ensures Unqueued(k.run, k.wait, t) ==> t !in k.Queue(w)
  {
    assert Separate(k.run, k.wait, w) && k.Queue(w) == Line(k.wait, w);
  }

  lemma CurrentFacts(k: Kernel)
    requires Inv(k)
    ensures k.current in k.tstate
    ensures k.tstate[k.current] == Running ==>
      Unqueued(k.run, k.wait, k.current) && (k.run != [] ==> Unqueued(k.run[1..], k.wait, k.current))
  {
    hide Sync;
    PlacedApart(k);
  }

  lemma EmptyRunMatch(wait: map<Wq, seq<Tid>>, runEnds: Ends, runEnds': Ends, ends: map<Wq, Ends>,
                      threads: map<Tid, Thread>, links: map<Tid, Thread?>, links': map<Tid, Thread?>, loose: set<Wq>)
    requires QueuesMatch([], wait, runEnds, ends, threads, links, loose)
    requires Chain([], runEnds'.head, runEnds'.tail, threads, links') && SameLinksOutside(links, links', [])
    ensures QueuesMatch([], wait, runEnds', ends, threads, links', loose)
  {
    assert links' == links;
  }

  lemma RunMatch(k: Kernel, runEnds: Ends, ends: map<Wq, Ends>, threads: map<Tid, Thread>, links: map<Tid, Thread?>,
                 loose: set<Wq>, t: Tid)
    requires QueuesMatch(k.run, k.wait, runEnds, ends, threads, links, loose)
    ensures NoDup(k.run) && Chain(k.run, runEnds.head, runEnds.tail, threads, links)
    ensures Unqueued(k.run, k.wait, t) ==> t !in k.run
  {
  }
}
