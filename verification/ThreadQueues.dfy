/** Intrusive FIFO lists of threads: every queue in the kernel uses the same `next` field of a thread. */
module ThreadQueues {
  import opened Machine
  import opened Scheduling
  import opened Interleavings

  class Thread {
    const tid: Tid
    var state: ThreadState
    var next: Thread?

    constructor (tid: Tid, state: ThreadState)
      ensures this.tid == tid && this.state == state && next == null
    {
      this.tid, this.state, next := tid, state, null;
    }
  }

  /** The threads of the system by number. */
  ghost predicate Named(threads: map<Tid, Thread>) {
    forall i <- threads :: threads[i].tid == i
  }

  /** The `next` fields as they are now. */
  ghost function Links(threads: map<Tid, Thread>): map<Tid, Thread?>
    reads threads.Values
  {
    map i | i in threads :: threads[i].next
  }

  lemma LinksKeys(threads: map<Tid, Thread>)
    ensures Links(threads).Keys == threads.Keys
  {
  }

  ghost function Nth(ids: seq<Tid>, i: int, threads: map<Tid, Thread>): Thread? {
    if 0 <= i < |ids| && ids[i] in threads then threads[ids[i]] else null
  }

  /** The thread at position `i` links to the one after it. */
  ghost predicate LinkAt(ids: seq<Tid>, i: int, threads: map<Tid, Thread>, links: map<Tid, Thread?>)
    requires 0 <= i < |ids|
  {
    ids[i] in threads && ids[i] in links && links[ids[i]] == Nth(ids, i + 1, threads)
  }

  /** From `head`, the links spell out `ids`, and `tail` is the last of them. */
  ghost predicate Chain(ids: seq<Tid>, head: Thread?, tail: Thread?, threads: map<Tid, Thread>,
                        links: map<Tid, Thread?>)
  {
    && (forall i {:trigger LinkAt(ids, i, threads, links)} | 0 <= i < |ids| :: LinkAt(ids, i, threads, links))
    && head == Nth(ids, 0, threads) && tail == Nth(ids, |ids| - 1, threads)
  }

  /** Rewriting the links of other threads leaves a chain as it was. */
  lemma ChainFrame(ids: seq<Tid>, head: Thread?, tail: Thread?, threads: map<Tid, Thread>, links: map<Tid, Thread?>,
                   links': map<Tid, Thread?>)
    requires Chain(ids, head, tail, threads, links)
    requires forall i | i in links && i in ids :: i in links' && links'[i] == links[i]
    ensures Chain(ids, head, tail, threads, links')
  {
    forall i | 0 <= i < |ids| ensures LinkAt(ids, i, threads, links') {
      assert LinkAt(ids, i, threads, links) && ids[i] in ids;
    }
  }

  lemma ChainPush(ids: seq<Tid>, t: Tid, head: Thread?, tail: Thread?, threads: map<Tid, Thread>,
                  links: map<Tid, Thread?>, links': map<Tid, Thread?>)
    requires Chain(ids, head, tail, threads, links) && NoDup(ids) && t !in ids && t in threads && t in links
      && links'.Keys == links.Keys
    requires ids != [] ==> ids[|ids| - 1] in links && links'[ids[|ids| - 1]] == threads[t]
    requires forall i | i in links && i in ids && i != ids[|ids| - 1] :: links'[i] == links[i]
    requires links'[t] == null
    ensures Chain(ids + [t], if ids == [] then threads[t] else head, threads[t], threads, links')
  {
    forall i | 0 <= i < |ids + [t]| ensures LinkAt(ids + [t], i, threads, links') {
      if i < |ids| { assert LinkAt(ids, i, threads, links) && ids[i] in ids; }
    }
    assert ids != [] ==> LinkAt(ids, 0, threads, links);
  }

  lemma ChainPop(ids: seq<Tid>, head: Thread?, tail: Thread?, threads: map<Tid, Thread>, links: map<Tid, Thread?>,
                 links': map<Tid, Thread?>)
    requires Chain(ids, head, tail, threads, links) && NoDup(ids) && ids != [] && links'.Keys == links.Keys
    requires forall i | i in links && i != ids[0] :: links'[i] == links[i]
    ensures ids[0] in links && Chain(ids[1..], links[ids[0]],
      if links[ids[0]] == null then null else tail, threads, links')
  {
    assert LinkAt(ids, 0, threads, links);
    assert |ids| > 1 ==> LinkAt(ids, 1, threads, links);
    forall i | 0 <= i < |ids[1..]| ensures LinkAt(ids[1..], i, threads, links') {
      assert LinkAt(ids, i + 1, threads, links);
    }
  }

  /** Taking the thread at `n` out: its predecessor, or `head`, takes over its link. */
  lemma ChainUnlink(ids: seq<Tid>, n: nat, head: Thread?, tail: Thread?, threads: map<Tid, Thread>,
                    links: map<Tid, Thread?>, links': map<Tid, Thread?>)
    requires Named(threads) && Chain(ids, head, tail, threads, links) && NoDup(ids) && n < |ids|
    requires links'.Keys == links.Keys && ids[n] in links
    requires forall i | i in links && i != ids[n] && (n > 0 ==> i != ids[n - 1]) :: links'[i] == links[i]
    requires n > 0 ==> ids[n - 1] in links && links'[ids[n - 1]] == links[ids[n]]
    ensures var head', tail' := if n == 0 then links[ids[0]]
      else head, if Nth(ids, n, threads) == tail then Nth(ids, n - 1, threads) else tail;
      Chain(ids[..n] + ids[n + 1..], head', tail', threads, links')
  {
    var ids' := ids[..n] + ids[n + 1..];
    assert LinkAt(ids, n, threads, links) && LinkAt(ids, |ids| - 1, threads, links);
    assert n + 1 < |ids| ==> Nth(ids, n, threads) != tail;
    forall i | 0 <= i < |ids'| ensures LinkAt(ids', i, threads, links') {
      assert LinkAt(ids, if i < n then i else i + 1, threads, links);
    }
  }

  class ThreadQueue {
    var head: Thread?
    var tail: Thread?

    constructor ()
      ensures head == null && tail == null
    {
      head, tail := null, null;
    }

    ghost predicate Holds(ids: seq<Tid>, threads: map<Tid, Thread>)
      reads this, threads.Values
    {
      Chain(ids, head, tail, threads, Links(threads))
    }

    /** `queue_push` */
    method Push(t: Thread, ghost ids: seq<Tid>, ghost threads: map<Tid, Thread>)
      requires Named(threads) && Holds(ids, threads) && NoDup(ids) && t.tid !in ids && t.tid in threads
        && threads[t.tid] == t
      modifies this, threads.Values`next
      ensures Holds(ids + [t.tid], threads)
      ensures forall i | i in threads && i !in ids && i != t.tid :: threads[i].next == old(threads[i].next)
    {
      ghost var links, head0, tail0 := Links(threads), head, tail;
      assert ids != [] ==> LinkAt(ids, |ids| - 1, threads, links);
      t.next := null;
      if tail != null {
        tail.next := t;
      } else {
        head := t;
      }
      tail := t;
      ChainPush(ids, t.tid, head0, tail0, threads, links, Links(threads));
    }

    /** `queue_pop` */
    method Pop(ghost ids: seq<Tid>, ghost threads: map<Tid, Thread>) returns (t: Thread?)
      requires Named(threads) && Holds(ids, threads) && NoDup(ids)
      modifies this, threads.Values`next
      ensures ids == [] ==> t == null && Holds([], threads)
      ensures ids != [] ==> ids[0] in threads && t == threads[ids[0]] && Holds(ids[1..], threads)
      ensures forall i | i in threads && i !in ids :: threads[i].next == old(threads[i].next)
    {
      ghost var links, head0, tail0 := Links(threads), head, tail;
      assert ids != [] ==> LinkAt(ids, 0, threads, links);
      if head == null { return null; }
      t := head;
      head := t.next;
      if head == null { tail := null; }
      t.next := null;
      ChainPop(ids, head0, tail0, threads, links, Links(threads));
    }

    /** One turn of the loop in `wq_wake_all`: the head goes, `tail` is left alone. */
    method PopHead(ghost ids: seq<Tid>, ghost threads: map<Tid, Thread>) returns (t: Thread)
      requires Named(threads) && WaitMatch(ids, EndsOf(this), threads, Links(threads), false) && NoDup(ids)
        && head != null
      modifies this, threads.Values`next
      ensures ids != [] && ids[0] in threads && t == threads[ids[0]]
        && WaitMatch(ids[1..], EndsOf(this), threads, Links(threads), false)
      ensures forall i | i in threads && i !in ids :: threads[i].next == old(threads[i].next)
    {
      ghost var links, head0 := Links(threads), head;
      assert LinkAt(ids, 0, threads, links);
      t := head;
      head := t.next;
      t.next := null;
      ChainPop(ids, head0, Nth(ids, |ids| - 1, threads), threads, links, Links(threads));
    }

    /** The unlinking inside `sched_remove_thread`, at position `n`. */
    method Unlink(prev: Thread?, cur: Thread, ghost n: nat, ghost ids: seq<Tid>, ghost threads: map<Tid, Thread>)
      requires Named(threads) && Holds(ids, threads) && NoDup(ids)
      requires n < |ids| && cur == Nth(ids, n, threads) && prev == Nth(ids, n - 1, threads)
      modifies this, threads.Values`next
      ensures Holds(ids[..n] + ids[n + 1..], threads)
      ensures forall i | i in threads && i !in ids :: threads[i].next == old(threads[i].next)
    {
      ghost var links, head0, tail0 := Links(threads), head, tail;
      assert LinkAt(ids, n, threads, links) && (n > 0 ==> LinkAt(ids, n - 1, threads, links));
      if prev != null {
        prev.next := cur.next;
      } else {
        head := cur.next;
      }
      if cur == tail { tail := prev; }
      cur.next := null;
      ChainUnlink(ids, n, head0, tail0, threads, links, Links(threads));
    }

    /** `sched_remove_thread` */
    method Remove(t: Thread, ghost ids: seq<Tid>, ghost threads: map<Tid, Thread>)
      requires Named(threads) && Holds(ids, threads) && NoDup(ids) && t.tid in threads && threads[t.tid] == t
      modifies this, threads.Values`next
      ensures Holds(Without(ids, t.tid), threads)
      ensures forall i | i in threads && i !in ids :: threads[i].next == old(threads[i].next)
    {
      var prev: Thread? := null;
      var cur := head;
      ghost var n := 0;
      while cur != null
        invariant 0 <= n <= |ids| && t.tid !in ids[..n]
        invariant cur == Nth(ids, n, threads) && prev == Nth(ids, n - 1, threads)
        invariant Holds(ids, threads)
        invariant forall i | i in threads :: threads[i].next == old(threads[i].next)
        decreases |ids| - n
      {
        assert LinkAt(ids, n, threads, Links(threads));
        if cur == t {
          WithoutAt(ids, t.tid, n);
          Unlink(prev, cur, n, ids, threads);
          return;
        }
        prev := cur;
        cur := cur.next;
        n := n + 1;
      }
      assert n < |ids| ==> LinkAt(ids, n, threads, Links(threads));
      assert ids[..n] == ids;
      WithoutAbsent(ids, t.tid);
    }
  }

  lemma {:induction false} WithoutAt(ids: seq<Tid>, t: Tid, n: nat)
    requires n < |ids| && ids[n] == t && t !in ids[..n]
    ensures Without(ids, t) == ids[..n] + ids[n + 1..]
  {
    if n > 0 {
      assert ids[0] in ids[..n];
      assert forall x | x in ids[1..][..n - 1] :: x in ids[..n];
      WithoutAt(ids[1..], t, n - 1);
      assert ids[1..][..n - 1] == ids[1..n] && ids[1..][n..] == ids[n + 1..];
    }
  }

  // ----- all queues together -----

  datatype Ends = Ends(head: Thread?, tail: Thread?)

  ghost function EndsOf(q: ThreadQueue): Ends
    reads q
  {
    Ends(q.head, q.tail)
  }

  ghost function AllEnds(waits: map<Wq, ThreadQueue>): map<Wq, Ends>
    reads waits.Values
  {
    map w | w in waits :: EndsOf(waits[w])
  }

  ghost function Line(wait: map<Wq, seq<Tid>>, w: Wq): seq<Tid> { if w in wait then wait[w] else [] }

  /** The threads of `w` are in no other queue, so rewriting another queue's links cannot reach them. */
  ghost predicate Separate(run: seq<Tid>, wait: map<Wq, seq<Tid>>, w: Wq) {
    && NoDup(Line(wait, w))
    && (forall t :: t in Line(wait, w) ==>
      t !in run && forall v {:trigger Line(wait, v)} :: v != w ==> t !in Line(wait, v))
  }

  ghost predicate Apart(run: seq<Tid>, wait: map<Wq, seq<Tid>>) {
    NoDup(run) && forall w {:trigger Separate(run, wait, w)} :: Separate(run, wait, w)
  }

  ghost predicate Unqueued(run: seq<Tid>, wait: map<Wq, seq<Tid>>, t: Tid) {
    t !in run && forall w {:trigger Line(wait, w)} :: t !in Line(wait, w)
  }

  ghost predicate WaitMatch(ids: seq<Tid>, ends: Ends, threads: map<Tid, Thread>, links: map<Tid, Thread?>,
                            tailKnown: bool)
  {
    Chain(ids, ends.head, if tailKnown then ends.tail else Nth(ids, |ids| - 1, threads), threads, links)
  }

  /** Every queue object is linked as its abstract sequence; the tails of the queues in `loose` are not up to date. */
  ghost predicate QueuesMatch(run: seq<Tid>, wait: map<Wq, seq<Tid>>, runEnds: Ends, ends: map<Wq, Ends>,
                              threads: map<Tid, Thread>, links: map<Tid, Thread?>, loose: set<Wq>)
  {
    && Apart(run, wait) && wait.Keys <= ends.Keys && Chain(run, runEnds.head, runEnds.tail, threads, links)
    && (forall w {:trigger Line(wait, w)} | w in ends :: WaitMatch(Line(wait, w), ends[w], threads, links, w !in loose))
  }

  /** The links of the threads in `touched` may have changed, no others. */
  ghost predicate SameLinksOutside(links: map<Tid, Thread?>, links': map<Tid, Thread?>, touched: seq<Tid>) {
    links'.Keys == links.Keys && forall i | i in links && i !in touched :: links'[i] == links[i]
  }

  lemma WaitFrame(ids: seq<Tid>, ends: Ends, threads: map<Tid, Thread>, links: map<Tid, Thread?>,
                  links': map<Tid, Thread?>, known: bool, touched: seq<Tid>)
    requires WaitMatch(ids, ends, threads, links, known) && SameLinksOutside(links, links', touched)
    requires forall i | i in ids :: i !in touched
    ensures WaitMatch(ids, ends, threads, links', known)
  {
    ChainFrame(ids, ends.head, if known then ends.tail else Nth(ids, |ids| - 1, threads), threads, links, links');
  }

  lemma PushRunApart(run: seq<Tid>, wait: map<Wq, seq<Tid>>, t: Tid)
    requires Apart(run, wait) && Unqueued(run, wait, t)
    ensures Apart(run + [t], wait)
  {
    forall w ensures Separate(run + [t], wait, w) { assert Separate(run, wait, w); }
  }

  lemma PushRunMatch(run: seq<Tid>, wait: map<Wq, seq<Tid>>, t: Tid, runEnds: Ends, runEnds': Ends, ends: map<Wq, Ends>,
                     threads: map<Tid, Thread>, links: map<Tid, Thread?>, links': map<Tid, Thread?>, loose: set<Wq>)
    requires QueuesMatch(run, wait, runEnds, ends, threads, links, loose) && Unqueued(run, wait, t)
    requires Chain(run + [t], runEnds'.head, runEnds'.tail, threads, links')
      && SameLinksOutside(links, links', run + [t])
    ensures QueuesMatch(run + [t], wait, runEnds', ends, threads, links', loose)
  {
    hide Chain, WaitMatch, NoDup, SameLinksOutside;
    PushRunApart(run, wait, t);
    forall w | w in ends ensures WaitMatch(Line(wait, w), ends[w], threads, links', w !in loose) {
      assert Separate(run, wait, w);
      WaitFrame(Line(wait, w), ends[w], threads, links, links', w !in loose, run + [t]);
    }
  }

  lemma PopRunMatch(run: seq<Tid>, wait: map<Wq, seq<Tid>>, runEnds: Ends, runEnds': Ends, ends: map<Wq, Ends>,
                    threads: map<Tid, Thread>, links: map<Tid, Thread?>, links': map<Tid, Thread?>, loose: set<Wq>)
    requires QueuesMatch(run, wait, runEnds, ends, threads, links, loose) && run != []
    requires Chain(run[1..], runEnds'.head, runEnds'.tail, threads, links') && SameLinksOutside(links, links', run)
    ensures QueuesMatch(run[1..], wait, runEnds', ends, threads, links', loose) && Unqueued(run[1..], wait, run[0])
  {
    hide Chain, WaitMatch, SameLinksOutside;
    NoDupTail(run);
    forall w ensures Separate(run[1..], wait, w) && run[0] !in Line(wait, w) { assert Separate(run, wait, w); }
    forall w | w in ends ensures WaitMatch(Line(wait, w), ends[w], threads, links', w !in loose) {
      assert Separate(run, wait, w);
      WaitFrame(Line(wait, w), ends[w], threads, links, links', w !in loose, run);
    }
  }

  lemma RemoveRunMatch(run: seq<Tid>, wait: map<Wq, seq<Tid>>, t: Tid, runEnds: Ends, runEnds': Ends,
                       ends: map<Wq, Ends>,
                       threads: map<Tid, Thread>, links: map<Tid, Thread?>, links': map<Tid, Thread?>, loose: set<Wq>)
    requires QueuesMatch(run, wait, runEnds, ends, threads, links, loose) && t !in run
    requires Chain(Without(run, t), runEnds'.head, runEnds'.tail, threads, links')
      && SameLinksOutside(links, links', run)
    ensures QueuesMatch(Without(run, t), wait, runEnds', ends, threads, links', loose)
  {
    hide Chain, WaitMatch, SameLinksOutside, NoDup;
    WithoutAbsent(run, t);
    forall w | w in ends ensures WaitMatch(Line(wait, w), ends[w], threads, links', w !in loose) {
      assert Separate(run, wait, w);
      WaitFrame(Line(wait, w), ends[w], threads, links, links', w !in loose, run);
    }
  }

  /** A wait queue changed to `ids`, which holds only threads it held before or that were in no queue. */
  lemma SetWaitApart(run: seq<Tid>, wait: map<Wq, seq<Tid>>, w: Wq, ids: seq<Tid>)
    requires Apart(run, wait) && NoDup(ids) && forall t :: t in ids ==> t in Line(wait, w) || Unqueued(run, wait, t)
    ensures Apart(run, wait[w := ids])
  {
    var wait' := wait[w := ids];
    forall v ensures Separate(run, wait', v) {
      assert Separate(run, wait, v) && Separate(run, wait, w);
      forall t, u | t in Line(wait', v) && u != v ensures t !in Line(wait', u) {
        assert Separate(run, wait, u) && (u != w ==> Line(wait', u) == Line(wait, u))
          && (v != w ==> Line(wait', v) == Line(wait, v));
      }
    }
  }

  lemma SetWaitMatch(run: seq<Tid>, wait: map<Wq, seq<Tid>>, w: Wq, ids: seq<Tid>, touched: seq<Tid>, runEnds: Ends,
                     ends: map<Wq, Ends>, ends': map<Wq, Ends>,
                     threads: map<Tid, Thread>, links: map<Tid, Thread?>, links': map<Tid, Thread?>, loose: set<Wq>,
                       loose': set<Wq>)
    requires QueuesMatch(run, wait, runEnds, ends, threads, links, loose) && w in ends && ends'.Keys == ends.Keys
      && Apart(run, wait[w := ids])
    requires forall v | v in ends && v != w :: ends'[v] == ends[v] && (v in loose <==> v in loose')
    requires forall t | t in touched :: t in Line(wait, w) || Unqueued(run, wait, t)
    requires WaitMatch(ids, ends'[w], threads, links', w !in loose') && SameLinksOutside(links, links', touched)
    ensures QueuesMatch(run, wait[w := ids], runEnds, ends', threads, links', loose')
  {
    hide Chain, WaitMatch, NoDup, SameLinksOutside;
    assert Separate(run, wait, w);
    ChainFrameOutside(run, runEnds, threads, links, links', touched);
    forall v | v in ends' ensures WaitMatch(Line(wait[w := ids], v), ends'[v], threads, links', v !in loose') {
      if v != w {
        assert Separate(run, wait, v) && Line(wait[w := ids], v) == Line(wait, v);
        WaitFrame(Line(wait, v), ends[v], threads, links, links', v !in loose, touched);
      }
    }
  }

  lemma ChainFrameOutside(ids: seq<Tid>, ends: Ends, threads: map<Tid, Thread>, links: map<Tid, Thread?>,
                          links': map<Tid, Thread?>, touched: seq<Tid>)
    requires Chain(ids, ends.head, ends.tail, threads, links) && SameLinksOutside(links, links', touched)
      && forall i | i in touched :: i !in ids
    ensures Chain(ids, ends.head, ends.tail, threads, links')
  {
    ChainFrame(ids, ends.head, ends.tail, threads, links, links');
  }

  ghost predicate OnlyEndsAt(w: Wq, ends: map<Wq, Ends>, ends': map<Wq, Ends>) {
    ends'.Keys == ends.Keys && forall v | v in ends && v != w :: ends'[v] == ends[v]
  }

  lemma PushWaitMatch(run: seq<Tid>, wait: map<Wq, seq<Tid>>, w: Wq, t: Tid, runEnds: Ends, ends: map<Wq, Ends>,
                      ends': map<Wq, Ends>,
                      threads: map<Tid, Thread>, links: map<Tid, Thread?>, links': map<Tid, Thread?>)
    requires QueuesMatch(run, wait, runEnds, ends, threads, links, {}) && Unqueued(run, wait, t) && w in ends
      && OnlyEndsAt(w, ends, ends')
    requires WaitMatch(Line(wait, w) + [t], ends'[w], threads, links', true)
      && SameLinksOutside(links, links', Line(wait, w) + [t])
    ensures QueuesMatch(run, wait[w := Line(wait, w) + [t]], runEnds, ends', threads, links', {})
  {
    hide Chain, WaitMatch, SameLinksOutside;
    var ids := Line(wait, w) + [t];
    assert Separate(run, wait, w);
    NoDupAppend(Line(wait, w), t);
    SetWaitApart(run, wait, w, ids);
    SetWaitMatch(run, wait, w, ids, ids, runEnds, ends, ends', threads, links, links', {}, {});
  }

  lemma PopWaitMatch(run: seq<Tid>, wait: map<Wq, seq<Tid>>, w: Wq, runEnds: Ends, ends: map<Wq, Ends>,
                     ends': map<Wq, Ends>,
                     threads: map<Tid, Thread>, links: map<Tid, Thread?>, links': map<Tid, Thread?>, loose: set<Wq>)
    requires QueuesMatch(run, wait, runEnds, ends, threads, links, loose) && w in ends && OnlyEndsAt(w, ends, ends')
      && Line(wait, w) != []
    requires WaitMatch(Line(wait, w)[1..], ends'[w], threads, links', w !in loose)
      && SameLinksOutside(links, links', Line(wait, w))
    ensures QueuesMatch(run, wait[w := Line(wait, w)[1..]], runEnds, ends', threads, links', loose)
    ensures Unqueued(run, wait[w := Line(wait, w)[1..]], Line(wait, w)[0])
  {
    hide Chain, WaitMatch, SameLinksOutside;
    var ids := Line(wait, w);
    assert Separate(run, wait, w);
    NoDupTail(ids);
    SetWaitApart(run, wait, w, ids[1..]);
    SetWaitMatch(run, wait, w, ids[1..], ids, runEnds, ends, ends', threads, links, links', loose, loose);
    var wait' := wait[w := ids[1..]];
    forall v ensures ids[0] !in Line(wait', v) {
      assert v != w ==> Line(wait', v) == Line(wait, v);
      assert ids[0] in ids;
    }
  }

  lemma EmptyWaitMatch(run: seq<Tid>, wait: map<Wq, seq<Tid>>, w: Wq, runEnds: Ends, ends: map<Wq, Ends>,
                       ends': map<Wq, Ends>,
                       threads: map<Tid, Thread>, links: map<Tid, Thread?>, links': map<Tid, Thread?>)
    requires QueuesMatch(run, wait, runEnds, ends, threads, links, {}) && w in ends && OnlyEndsAt(w, ends, ends')
      && Line(wait, w) == []
    requires WaitMatch([], ends'[w], threads, links', true) && SameLinksOutside(links, links', [])
    ensures QueuesMatch(run, wait, runEnds, ends', threads, links', {})
  {
    assert links' == links;
    forall v | v in ends' ensures WaitMatch(Line(wait, v), ends'[v], threads, links', true) {
      assert WaitMatch(Line(wait, v), ends[v], threads, links, true);
    }
  }

  /** At the start of a wake-all the tail is right but no longer relied on; at its end the emptied queue gets a null
      tail. */
  lemma LooseMatch(run: seq<Tid>, wait: map<Wq, seq<Tid>>, w: Wq, runEnds: Ends, ends: map<Wq, Ends>,
                   ends': map<Wq, Ends>,
                   threads: map<Tid, Thread>, links: map<Tid, Thread?>)
    requires w in ends && OnlyEndsAt(w, ends, ends')
    ensures QueuesMatch(run, wait, runEnds, ends, threads, links, {}) ==>
      QueuesMatch(run, wait, runEnds, ends, threads, links, {w})
    ensures (QueuesMatch(run, wait, runEnds, ends, threads, links, {w})
             && ends[w].head == null && ends'[w] == Ends(null, null)) ==>
      QueuesMatch(run, wait, runEnds, ends', threads, links, {}) && Line(wait, w) == []
  {
    hide Apart;
    if QueuesMatch(run, wait, runEnds, ends, threads, links, {}) {
      forall v | v in ends ensures WaitMatch(Line(wait, v), ends[v], threads, links, v !in {w}) {
        assert WaitMatch(Line(wait, v), ends[v], threads, links, true);
      }
    }
    if QueuesMatch(run, wait, runEnds, ends, threads, links, {w}) && ends[w].head == null
      && ends'[w] == Ends(null, null) {
      assert WaitMatch(Line(wait, w), ends[w], threads, links, w !in {w});
      assert Line(wait, w) != [] ==> LinkAt(Line(wait, w), 0, threads, links);
      forall v | v in ends' ensures WaitMatch(Line(wait, v), ends'[v], threads, links, true) {
        assert WaitMatch(Line(wait, v), ends[v], threads, links, v !in {w});
      }
    }
  }

  lemma ChainGrow(ids: seq<Tid>, head: Thread?, tail: Thread?, threads: map<Tid, Thread>, links: map<Tid, Thread?>,
                  threads': map<Tid, Thread>, links': map<Tid, Thread?>)
    requires Chain(ids, head, tail, threads, links)
    requires forall i | i in threads :: i in threads' && threads'[i] == threads[i]
    requires forall i | i in links :: i in links' && links'[i] == links[i]
    ensures Chain(ids, head, tail, threads', links')
  {
    forall i | 0 <= i < |ids| ensures LinkAt(ids, i, threads', links') {
      assert LinkAt(ids, i, threads, links) && (i + 1 < |ids| ==> LinkAt(ids, i + 1, threads, links));
    }
    assert ids != [] ==> LinkAt(ids, 0, threads, links) && LinkAt(ids, |ids| - 1, threads, links);
  }

  /** A new thread, in no queue yet. */
  lemma GrowMatch(run: seq<Tid>, wait: map<Wq, seq<Tid>>, runEnds: Ends, ends: map<Wq, Ends>,
                  threads: map<Tid, Thread>, links: map<Tid, Thread?>, threads': map<Tid, Thread>,
                    links': map<Tid, Thread?>)
    requires QueuesMatch(run, wait, runEnds, ends, threads, links, {})
    requires forall i | i in threads :: i in threads' && threads'[i] == threads[i]
    requires forall i | i in links :: i in links' && links'[i] == links[i]
    ensures QueuesMatch(run, wait, runEnds, ends, threads', links', {})
  {
    hide Chain, Apart;
    ChainGrow(run, runEnds.head, runEnds.tail, threads, links, threads', links');
    forall w | w in ends ensures WaitMatch(Line(wait, w), ends[w], threads', links', true) {
      assert WaitMatch(Line(wait, w), ends[w], threads, links, true);
      ChainGrow(Line(wait, w), ends[w].head, ends[w].tail, threads, links, threads', links');
    }
  }
}
