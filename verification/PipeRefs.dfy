/** Pipe ends named by descriptor tables, and the reference counts that must match them. */
module PipeRefs {
  import opened Machine

  type Pid = nat
  type PipeId = nat

  const MAX_FDS: nat := 64

  /** What an open file names: one end of a pipe, or something that is not a pipe. */
  datatype Node = PipeEnd(pipe: PipeId, reading: bool) | File(id: nat)

  /** A descriptor entry; an entry not in use may still hold a stale node. */
  datatype Entry = Entry(node: Option<Node>, inUse: bool)

  datatype Pipe = Pipe(readers: u32, writers: u32)

  type Tables = map<Pid, seq<Entry>>
  type PipeSet = map<PipeId, Pipe>

  predicate Names(e: Entry, n: Node) { e.inUse && e.node == Some(n) }

  /** The entries, across all tables, that name this end. */
  ghost function Refs(tables: Tables, n: Node): set<(Pid, nat)> {
    set pid, fd | pid in tables && 0 <= fd < |tables[pid]| && Names(tables[pid][fd], n) :: (pid, fd)
  }

  ghost function NumRefs(tables: Tables, n: Node): nat { |Refs(tables, n)| }

  /** A pipe exists exactly while some entry names it, and counts the entries naming each end. */
  ghost predicate Counted(tables: Tables, pipes: PipeSet, p: PipeId) {
    var readers, writers := NumRefs(tables, PipeEnd(p, true)), NumRefs(tables, PipeEnd(p, false));
    if p in pipes then pipes[p].readers == readers && pipes[p].writers == writers && readers + writers > 0
    else readers == 0 && writers == 0
  }

  ghost predicate Balanced(tables: Tables, pipes: PipeSet) {
    && (forall pid | pid in tables :: |tables[pid]| == MAX_FDS)
    && (forall p {:trigger Counted(tables, pipes, p)} :: Counted(tables, pipes, p))
  }

  function Count(x: Pipe, reading: bool): u32 { if reading then x.readers else x.writers }

  /** `pipe_close` */
  function Closed(pipes: PipeSet, n: Node): PipeSet
    requires n.PipeEnd? && n.pipe in pipes && Count(pipes[n.pipe], n.reading) > 0
  {
    var x := pipes[n.pipe];
    var y := if n.reading then x.(readers := x.readers - 1) else x.(writers := x.writers - 1);
    if y.readers == 0 && y.writers == 0 then pipes - {n.pipe} else pipes[n.pipe := y]
  }

  /** `pipe_addref` */
  function AddRef(pipes: PipeSet, n: Node): PipeSet
    requires n.PipeEnd? && n.pipe in pipes && Count(pipes[n.pipe], n.reading) < 0xFFFF_FFFF
  {
    var x := pipes[n.pipe];
    pipes[n.pipe := if n.reading then x.(readers := x.readers + 1) else x.(writers := x.writers + 1)]
  }

  function Set(tables: Tables, pid: Pid, fd: nat, e: Entry): Tables
    requires pid in tables && fd < |tables[pid]|
  {
    tables[pid := tables[pid][fd := e]]
  }

  function One(b: bool): int { if b then 1 else 0 }

  lemma SetRefs(tables: Tables, pid: Pid, fd: nat, e: Entry, n: Node)
    requires pid in tables && fd < |tables[pid]|
    ensures Refs(Set(tables, pid, fd, e), n) == Refs(tables, n) - {(pid, fd)}
      + (if Names(e, n) then {(pid, fd)} else {})
    ensures (pid, fd) in Refs(tables, n) <==> Names(tables[pid][fd], n)
  {
  }

  lemma Swap(a: set<(Pid, nat)>, x: (Pid, nat), now: bool)
    ensures |a - {x} + (if now then {x} else {})| == |a| - One(x in a) + One(now)
    ensures x in a ==> |a| > 0
  {
    var b := a - {x};
    if x in a { assert a == b + {x}; } else { assert a == b; }
    assert !now ==> b + {} == b;
  }

  /** Rewriting one entry moves one reference at most. */
  lemma SetNum(tables: Tables, pid: Pid, fd: nat, e: Entry, n: Node)
    requires pid in tables && fd < |tables[pid]|
    ensures NumRefs(Set(tables, pid, fd, e), n) == NumRefs(tables, n) - One(Names(tables[pid][fd], n))
      + One(Names(e, n))
    ensures Names(tables[pid][fd], n) ==> NumRefs(tables, n) > 0
  {
    hide Refs, Set, Names;
    SetRefs(tables, pid, fd, e, n);
    Swap(Refs(tables, n), (pid, fd), Names(e, n));
  }

  /** Closing one entry and its pipe reference. */
  lemma CloseKeeps(tables: Tables, pipes: PipeSet, pid: Pid, fd: nat, e: Entry, n: Node)
    requires Balanced(tables, pipes) && pid in tables && fd < MAX_FDS && Names(tables[pid][fd], n) && !e.inUse
      && n.PipeEnd?
    ensures n.pipe in pipes && Count(pipes[n.pipe], n.reading) > 0
      && Balanced(Set(tables, pid, fd, e), Closed(pipes, n))
  {
    hide NumRefs;
    var tables' := Set(tables, pid, fd, e);
    assert Counted(tables, pipes, n.pipe);
    SetNum(tables, pid, fd, e, n);
    forall p ensures Counted(tables', Closed(pipes, n), p) {
      assert Counted(tables, pipes, p);
      SetNum(tables, pid, fd, e, PipeEnd(p, true));
      SetNum(tables, pid, fd, e, PipeEnd(p, false));
    }
  }

  /** Putting an entry that was not in use to use, with a new reference to an end that exists. */
  lemma OpenKeeps(tables: Tables, pipes: PipeSet, pid: Pid, fd: nat, n: Node)
    requires Balanced(tables, pipes) && pid in tables && fd < MAX_FDS && !tables[pid][fd].inUse && n.PipeEnd?
      && n.pipe in pipes
    requires Count(pipes[n.pipe], n.reading) < 0xFFFF_FFFF
    ensures Balanced(Set(tables, pid, fd, Entry(Some(n), true)), AddRef(pipes, n))
  {
    hide NumRefs;
    var e := Entry(Some(n), true);
    var tables' := Set(tables, pid, fd, e);
    forall p ensures Counted(tables', AddRef(pipes, n), p) {
      assert Counted(tables, pipes, p);
      SetNum(tables, pid, fd, e, PipeEnd(p, true));
      SetNum(tables, pid, fd, e, PipeEnd(p, false));
    }
  }

  /** Changing an entry that names no pipe before or after. */
  lemma OtherKeeps(tables: Tables, pipes: PipeSet, pid: Pid, fd: nat, e: Entry)
    requires Balanced(tables, pipes) && pid in tables && fd < MAX_FDS
    requires forall n: Node | n.PipeEnd? :: !Names(tables[pid][fd], n) && !Names(e, n)
    ensures Balanced(Set(tables, pid, fd, e), pipes)
  {
    hide NumRefs;
    var tables' := Set(tables, pid, fd, e);
    forall p ensures Counted(tables', pipes, p) {
      assert Counted(tables, pipes, p);
      SetNum(tables, pid, fd, e, PipeEnd(p, true));
      SetNum(tables, pid, fd, e, PipeEnd(p, false));
    }
  }

  /** A new pipe with one descriptor for each end. */
  lemma CreateKeeps(tables: Tables, pipes: PipeSet, pid: Pid, rfd: nat, wfd: nat, p: PipeId)
    requires Balanced(tables, pipes) && pid in tables && rfd < MAX_FDS && wfd < MAX_FDS && rfd != wfd && p !in pipes
    requires !tables[pid][rfd].inUse && !tables[pid][wfd].inUse
    ensures Balanced(Set(Set(tables, pid, rfd, Entry(Some(PipeEnd(p, true)), true)), pid, wfd,
      Entry(Some(PipeEnd(p, false)), true)),
                     pipes[p := Pipe(1, 1)])
  {
    hide NumRefs;
    var e1, e2 := Entry(Some(PipeEnd(p, true)), true), Entry(Some(PipeEnd(p, false)), true);
    var tables1 := Set(tables, pid, rfd, e1);
    var tables2 := Set(tables1, pid, wfd, e2);
    var pipes' := pipes[p := Pipe(1, 1)];
    forall q ensures Counted(tables2, pipes', q) {
      assert Counted(tables, pipes, q);
      SetNum(tables, pid, rfd, e1, PipeEnd(q, true));
      SetNum(tables, pid, rfd, e1, PipeEnd(q, false));
      SetNum(tables1, pid, wfd, e2, PipeEnd(q, true));
      SetNum(tables1, pid, wfd, e2, PipeEnd(q, false));
    }
  }

  /** Entries in use name only pipes that exist. */
  lemma NoDangling(tables: Tables, pipes: PipeSet, pid: Pid, fd: nat, n: Node)
    requires Balanced(tables, pipes) && pid in tables && fd < MAX_FDS && Names(tables[pid][fd], n) && n.PipeEnd?
    ensures n.pipe in pipes && Count(pipes[n.pipe], n.reading) > 0
  {
    hide NumRefs;
    assert Counted(tables, pipes, n.pipe);
    SetNum(tables, pid, fd, tables[pid][fd], n);
  }

  /** A pipe exists exactly while some entry in use names one of its ends. */
  lemma LivesWhileNamed(tables: Tables, pipes: PipeSet, p: PipeId)
    requires Balanced(tables, pipes)
    ensures p in pipes <==>
      exists pid, fd: nat, reading :: pid in tables && fd < |tables[pid]| && Names(tables[pid][fd], PipeEnd(p, reading))
  {
    assert Counted(tables, pipes, p);
    var readers, writers := Refs(tables, PipeEnd(p, true)), Refs(tables, PipeEnd(p, false));
    if p in pipes {
      assert |readers| > 0 || |writers| > 0;
      var x: (Pid, nat) :| x in if readers != {} then readers else writers;
      assert Names(tables[x.0][x.1], PipeEnd(p, x in readers));
    } else {
      forall pid, fd: nat, reading | pid in tables && fd < |tables[pid]|
        ensures !Names(tables[pid][fd], PipeEnd(p, reading)) {
        assert (pid, fd) !in Refs(tables, PipeEnd(p, reading));
      }
    }
  }

  // ----- how many references there can be -----

  const MAX_TABLES: nat := 0x400_0000

  ghost function FdsOf(pid: Pid, k: nat): set<(Pid, nat)> {
    if k == 0 then {} else FdsOf(pid, k - 1) + {(pid, k - 1)}
  }

  lemma {:induction false} FdsBound(pid: Pid, k: nat)
    ensures |FdsOf(pid, k)| <= k && forall fd: nat :: (pid, fd) in FdsOf(pid, k) <==> fd < k
  {
    if k > 0 { FdsBound(pid, k - 1); }
  }

  lemma RefsWithout(tables: Tables, pid: Pid, n: Node)
    requires pid in tables && |tables[pid]| == MAX_FDS
    ensures Refs(tables, n) <= Refs(tables - {pid}, n) + FdsOf(pid, MAX_FDS)
  {
    FdsBound(pid, MAX_FDS);
    hide FdsOf;
    var rest := tables - {pid};
    forall x | x in Refs(tables, n) ensures x in Refs(rest, n) + FdsOf(pid, MAX_FDS) {
      if x.0 != pid { assert x.0 in rest && rest[x.0] == tables[x.0]; }
    }
  }

  lemma UnionBound(a: set<(Pid, nat)>, b: set<(Pid, nat)>)
    ensures |a + b| <= |a| + |b|
  {
    SubsetSize(b - a, b);
    assert a + b == a + (b - a);
  }

  lemma FewerTables(tables: Tables, pid: Pid)
    requires pid in tables
    ensures |tables| == |tables - {pid}| + 1
  {
    var rest := tables - {pid};
    assert rest[pid := tables[pid]] == tables;
  }

  lemma {:induction false} NumBound(tables: Tables, n: Node)
    requires forall pid | pid in tables :: |tables[pid]| == MAX_FDS
    ensures NumRefs(tables, n) <= MAX_FDS * |tables|
    decreases |tables|
  {
    if tables == map[] {
      assert Refs(tables, n) == {};
    } else {
      hide Refs, FdsOf;
      var pid :| pid in tables;
      var rest := tables - {pid};
      FewerTables(tables, pid);
      NumBound(rest, n);
      FdsBound(pid, MAX_FDS);
      RefsWithout(tables, pid, n);
      UnionBound(Refs(rest, n), FdsOf(pid, MAX_FDS));
      SubsetSize(Refs(tables, n), Refs(rest, n) + FdsOf(pid, MAX_FDS));
    }
  }

  /** The 32-bit counts cannot overflow while the number of tables is below 2^26. */
  lemma NoOverflow(tables: Tables, pipes: PipeSet, n: Node)
    requires Balanced(tables, pipes) && |tables| < MAX_TABLES && n.PipeEnd? && n.pipe in pipes
    ensures Count(pipes[n.pipe], n.reading) < 0xFFFF_FFFF
  {
    hide NumRefs;
    assert Counted(tables, pipes, n.pipe);
    NumBound(tables, n);
  }
}
