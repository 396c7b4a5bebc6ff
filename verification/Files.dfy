/** The descriptor system calls: pipe, dup, dup2, close, exit and the table copy of fork. */
module Files {
  import opened Machine
  import opened PipeRefs

  const EBADF: int := 9
  const ENOMEM: int := 12
  const EINVAL: int := 22
  const ENOSYS: int := 38

  /** The cast of a 64-bit argument to a 32-bit signed descriptor. */
  function ToFd(x: u64): (fd: int)
    ensures -0x8000_0000 <= fd < 0x8000_0000 && (fd - x) % 0x1_0000_0000 == 0
  {
    var low := x % 0x1_0000_0000;
    if low >= 0x8000_0000 then low - 0x1_0000_0000 else low
  }

  /** `fd_get` */
  predicate IsOpen(table: seq<Entry>, fd: int) { 0 <= fd < |table| && table[fd].inUse }

  ghost predicate IsLowestFree(table: seq<Entry>, fd: nat) {
    fd < |table| && !table[fd].inUse && forall i | 0 <= i < fd :: table[i].inUse
  }

  ghost predicate Full(table: seq<Entry>) { forall i | 0 <= i < |table| :: table[i].inUse }

  datatype Op =
    | NewProcess(pid: Pid)
    | PipeCall(pid: Pid, pointerOk: bool, block: Option<PipeId>)
    | DupCall(pid: Pid, fd: u64)
    | Dup2Call(pid: Pid, oldfd: u64, newfd: u64)
    | ForkCall(pid: Pid, child: Pid)
    | CloseCall(pid: Pid, fd: u64)
    | ExitCall(pid: Pid)

  function Blank(k: nat): seq<Entry> { seq(k, _ => Entry(None, false)) }

  function Shut(table: seq<Entry>): seq<Entry> {
    seq(|table|, i requires 0 <= i < |table| => table[i].(inUse := false))
  }

  /** The lowest entry not in use, from `i` on. */
  function FirstFree(table: seq<Entry>, i: nat): (fd: int)
    requires i <= |table|
    ensures fd == -1 ==> forall j | i <= j < |table| :: table[j].inUse
    ensures fd != -1 ==> i <= fd < |table| && !table[fd].inUse && forall j | i <= j < fd :: table[j].inUse
    decreases |table| - i
  {
    if i == |table| then -1 else if !table[i].inUse then i else FirstFree(table, i + 1)
  }

  /** The two descriptors `sys_pipe` would use; -1 for one it cannot have. */
  function PipeFds(table: seq<Entry>): (int, int) {
    var r := FirstFree(table, 0);
    if r == -1 then (-1, -1) else (r, FirstFree(table[r := table[r].(inUse := true)], 0))
  }

  ghost predicate Unnamed(tables: Tables, p: PipeId) {
    NumRefs(tables, PipeEnd(p, true)) == 0 && NumRefs(tables, PipeEnd(p, false)) == 0
  }

  /** A block can only become a pipe while no pipe is there. */
  ghost predicate Sane(tables: Tables, op: Op) {
    match op
    case NewProcess(pid) => pid !in tables && |tables| + 1 < MAX_TABLES
    case PipeCall(_, _, block) => block.Some? ==> Unnamed(tables, block.value)
    case ForkCall(pid, child) => pid in tables && child !in tables && |tables| + 1 < MAX_TABLES
    case ExitCall(pid) => pid in tables
    case _ => true
  }

  /** What a system call answers. */
  function Answer(tables: Tables, op: Op): int {
    match op
    case PipeCall(pid, ok, block) =>
      if !ok then -EINVAL else if pid !in tables then -ENOSYS
      else if block.None? || PipeFds(tables[pid]).1 == -1 then -ENOMEM else 0
    case DupCall(pid, fd) =>
      if pid !in tables then -ENOSYS else if !IsOpen(tables[pid], ToFd(fd)) then -EBADF
      else if FirstFree(tables[pid], 0) == -1 then -ENOMEM else FirstFree(tables[pid], 0)
    case Dup2Call(pid, oldfd, newfd) =>
      if pid !in tables then -ENOSYS
      else if oldfd >= MAX_FDS || newfd >= MAX_FDS || (oldfd != newfd && !IsOpen(tables[pid], oldfd)) then -EBADF
      else newfd
    case CloseCall(pid, fd) =>
      if pid !in tables then -ENOSYS else if !IsOpen(tables[pid], ToFd(fd)) then -EBADF else 0
    case _ => 0
  }

  /** The descriptor tables after a call. */
  ghost function After(tables: Tables, op: Op): Tables {
    if !Sane(tables, op) || Answer(tables, op) < 0 then tables else
    match op
    case NewProcess(pid) => tables[pid := Blank(MAX_FDS)]
    case PipeCall(pid, _, block) =>
      var fds := PipeFds(tables[pid]);
      Set(Set(tables, pid, fds.0, Entry(Some(PipeEnd(block.value, true)), true)), pid, fds.1,
          Entry(Some(PipeEnd(block.value, false)), true))
    case DupCall(pid, fd) => Set(tables, pid, FirstFree(tables[pid], 0), tables[pid][ToFd(fd)])
    case Dup2Call(pid, oldfd, newfd) =>
      if oldfd == newfd || newfd >= |tables[pid]| then tables else Set(tables, pid, newfd, tables[pid][oldfd])
    case ForkCall(pid, child) => tables[child := tables[pid]]
    case CloseCall(pid, fd) => Set(tables, pid, ToFd(fd), Entry(None, false))
    case ExitCall(pid) => tables[pid := Shut(tables[pid])]
  }

  ghost function AfterAll(tables: Tables, ops: seq<Op>): Tables {
    if ops == [] then tables else After(AfterAll(tables, ops[..|ops| - 1]), ops[|ops| - 1])
  }

  /** The tables alone decide which pipes exist and with what counts. */
  lemma PipesOf(tables: Tables, pipes: PipeSet, pipes': PipeSet)
    requires Balanced(tables, pipes) && Balanced(tables, pipes')
    ensures pipes == pipes'
  {
    forall p ensures p in pipes <==> p in pipes' { assert Counted(tables, pipes, p) && Counted(tables, pipes', p); }
    forall p | p in pipes ensures pipes[p] == pipes'[p] {
      assert Counted(tables, pipes, p) && Counted(tables, pipes', p);
    }
  }

  /** Once every entry is closed no pipe is left. */
  lemma AllClosed(tables: Tables, pipes: PipeSet)
    requires Balanced(tables, pipes)
      && forall pid, fd: nat | pid in tables && fd < |tables[pid]| :: !tables[pid][fd].inUse
    ensures pipes == map[]
  {
    forall p ensures p !in pipes { LivesWhileNamed(tables, pipes, p); }
  }

  lemma OnlyLowest(table: seq<Entry>, fd: nat)
    requires IsLowestFree(table, fd)
    ensures FirstFree(table, 0) == fd
  {
    assert !table[fd].inUse;
  }

  /** With at most one entry free there are not two for a pipe. */
  lemma NotTwo(table: seq<Entry>)
    requires forall i, j | 0 <= i < j < |table| :: table[i].inUse || table[j].inUse
    ensures PipeFds(table).1 == -1
  {
    var r := FirstFree(table, 0);
    if r != -1 {
      var rest := table[r := table[r].(inUse := true)];
      assert forall j | 0 <= j < |rest| :: rest[j].inUse;
    }
  }

  /** What `sys_pipe` is known to do is what the specification says. */
  lemma PipeOutcome(tables: Tables, pid: Pid, ok: bool, block: Option<PipeId>, ret: int, rfd: int, wfd: int,
                    tables': Tables)
    requires Sane(tables, PipeCall(pid, ok, block)) && (pid in tables ==> |tables[pid]| == MAX_FDS)
    requires ret == 0 || ret == -EINVAL || ret == -ENOSYS || ret == -ENOMEM
    requires (ret == -EINVAL <==> !ok) && (ret == -ENOSYS <==> ok && pid !in tables)
    requires ret == 0 ==>
      && pid in tables && block.Some? && 0 <= rfd < wfd && IsLowestFree(tables[pid], rfd)
      && IsLowestFree(tables[pid][rfd := tables[pid][rfd].(inUse := true)], wfd)
      && tables' == Set(Set(tables, pid, rfd, Entry(Some(PipeEnd(block.value, true)), true)), pid, wfd,
                        Entry(Some(PipeEnd(block.value, false)), true))
    requires ret == -ENOMEM && block.Some? ==>
      forall i, j | 0 <= i < j < MAX_FDS :: tables[pid][i].inUse || tables[pid][j].inUse
    requires ret != 0 ==> tables' == tables
    ensures ret == Answer(tables, PipeCall(pid, ok, block)) && tables' == After(tables, PipeCall(pid, ok, block))
  {
    hide IsLowestFree, Unnamed, FirstFree;
    if ret == 0 {
      OnlyLowest(tables[pid], rfd);
      OnlyLowest(tables[pid][rfd := tables[pid][rfd].(inUse := true)], wfd);
    } else if ret == -ENOMEM && block.Some? {
      NotTwo(tables[pid]);
    }
  }

  class FileTables {
    var tables: Tables
    var pipes: PipeSet

    ghost predicate Valid()
      reads this
    {
      Balanced(tables, pipes) && |tables| < MAX_TABLES
    }

    constructor ()
      ensures Valid() && tables == map[] && pipes == map[]
    {
      tables, pipes := map[], map[];
      new;
      forall p ensures Counted(tables, pipes, p) {
        assert Refs(tables, PipeEnd(p, true)) == {} && Refs(tables, PipeEnd(p, false)) == {};
      }
    }

    /** `pipe_close` */
    method PipeClose(n: Node)
      requires n.PipeEnd? && n.pipe in pipes && Count(pipes[n.pipe], n.reading) > 0
      modifies this`pipes
      ensures pipes == Closed(old(pipes), n)
    {
      var x := pipes[n.pipe];
      if n.reading {
        x := x.(readers := x.readers - 1);
      } else {
        x := x.(writers := x.writers - 1);
      }
      pipes := pipes[n.pipe := x];
      if x.readers == 0 && x.writers == 0 {
        pipes := pipes - {n.pipe};
      }
      assert pipes == Closed(old(pipes), n);
    }

    /** `pipe_addref` */
    method PipeAddRef(n: Node)
      requires n.PipeEnd? && n.pipe in pipes && Count(pipes[n.pipe], n.reading) < 0xFFFF_FFFF
      modifies this`pipes
      ensures pipes == AddRef(old(pipes), n)
    {
      var x := pipes[n.pipe];
      pipes := pipes[n.pipe := if n.reading then x.(readers := x.readers + 1) else x.(writers := x.writers + 1)];
    }

    /** `fd_alloc`: the lowest entry not in use; its stale contents stay. */
    method FdAlloc(pid: Pid) returns (fd: int)
      requires pid in tables
      modifies this`tables
      ensures fd == FirstFree(old(tables)[pid], 0)
      ensures fd == -1 ==> Full(old(tables)[pid]) && tables == old(tables)
      ensures fd != -1 ==>
        && 0 <= fd && IsLowestFree(old(tables)[pid], fd)
        && tables == Set(old(tables), pid, fd, old(tables)[pid][fd].(inUse := true))
    {
      fd := 0;
      while fd < |tables[pid]|
        invariant 0 <= fd <= |tables[pid]| && tables == old(tables)
        invariant forall i | 0 <= i < fd :: tables[pid][i].inUse
        invariant FirstFree(tables[pid], 0) == FirstFree(tables[pid], fd)
      {
        if !tables[pid][fd].inUse {
          tables := Set(tables, pid, fd, tables[pid][fd].(inUse := true));
          return;
        }
        fd := fd + 1;
      }
      fd := -1;
    }

    /** Closing an entry in use, with its pipe reference if it has one; `e` is what is left in the table. */
    method Release(pid: Pid, fd: nat, e: Entry)
      requires Valid() && pid in tables && fd < MAX_FDS && IsOpen(tables[pid], fd) && !e.inUse
      modifies this
      ensures Valid() && tables == Set(old(tables), pid, fd, e)
    {
      hide Counted, Closed;
      var node := tables[pid][fd].node;
      if node.Some? && node.value.PipeEnd? {
        CloseKeeps(tables, pipes, pid, fd, e, node.value);
        PipeClose(node.value);
      } else {
        OtherKeeps(tables, pipes, pid, fd, e);
      }
      tables := Set(tables, pid, fd, e);
    }

    /** `sys_close` */
    method Close(pid: Pid, fd: u64) returns (ret: int)
      requires Valid()
      modifies this
      ensures Valid() && ret == (if pid !in old(tables) then -ENOSYS
        else if IsOpen(old(tables)[pid], ToFd(fd)) then 0 else -EBADF)
      ensures ret == 0 ==> tables == Set(old(tables), pid, ToFd(fd), Entry(None, false))
      ensures ret != 0 ==> tables == old(tables) && pipes == old(pipes)
      ensures tables == After(old(tables), CloseCall(pid, fd)) && ret == Answer(old(tables), CloseCall(pid, fd))
    {
      hide Counted;
      if pid !in tables { return -ENOSYS; }
      if !IsOpen(tables[pid], ToFd(fd)) { return -EBADF; }
      Release(pid, ToFd(fd), Entry(None, false));
      return 0;
    }

    /** `sys_dup` */
    method Dup(pid: Pid, oldfd: u64) returns (ret: int)
      requires Valid()
      modifies this
      ensures Valid()
      ensures pid !in old(tables) ==> ret == -ENOSYS
      ensures pid in old(tables) && !IsOpen(old(tables)[pid], ToFd(oldfd)) ==> ret == -EBADF
      ensures pid in old(tables) && IsOpen(old(tables)[pid], ToFd(oldfd)) ==>
        (ret == -ENOMEM <==> Full(old(tables)[pid]))
      ensures ret < 0 ==> tables == old(tables) && pipes == old(pipes)
      ensures ret >= 0 ==>
        && pid in old(tables) && IsOpen(old(tables)[pid], ToFd(oldfd)) && IsLowestFree(old(tables)[pid], ret)
        && tables == Set(old(tables), pid, ret, old(tables)[pid][ToFd(oldfd)])
      ensures tables == After(old(tables), DupCall(pid, oldfd)) && ret == Answer(old(tables), DupCall(pid, oldfd))
    {
      hide Counted;
      if pid !in tables { return -ENOSYS; }
      if !IsOpen(tables[pid], ToFd(oldfd)) { return -EBADF; }
      ghost var tables0: Tables := tables;
      var src := tables[pid][ToFd(oldfd)];
      var newfd := FdAlloc(pid);
      if newfd < 0 { return -ENOMEM; }
      tables := Set(tables, pid, newfd, tables[pid][newfd].(node := src.node));
      SetTwice(tables0, pid, newfd, tables0[pid][newfd].(inUse := true), src);
      Acquire(pid, ToFd(oldfd), newfd, tables0);
      return newfd;
    }

    /** The reference taken for an entry copied from `from` to `to`. */
    method Acquire(pid: Pid, from: nat, to: nat, ghost tables0: Tables)
      requires Balanced(tables0, pipes) && |tables0| < MAX_TABLES && pid in tables0 && from < MAX_FDS && to < MAX_FDS
      requires tables0[pid][from].inUse && !tables0[pid][to].inUse
        && tables == Set(tables0, pid, to, tables0[pid][from])
      modifies this`pipes
      ensures Balanced(tables, pipes)
    {
      hide Counted, AddRef;
      var node := tables[pid][to].node;
      if node.Some? && node.value.PipeEnd? {
        NoDangling(tables0, pipes, pid, from, node.value);
        NoOverflow(tables0, pipes, node.value);
        OpenKeeps(tables0, pipes, pid, to, node.value);
        PipeAddRef(node.value);
      } else {
        OtherKeeps(tables0, pipes, pid, to, tables0[pid][from]);
      }
    }

    /** `sys_dup2` */
    method Dup2(pid: Pid, oldfd: u64, newfd: u64) returns (ret: int)
      requires Valid()
      modifies this
      ensures Valid()
      ensures pid !in old(tables) ==> ret == -ENOSYS
      ensures pid in old(tables) && (oldfd >= MAX_FDS || newfd >= MAX_FDS) ==> ret == -EBADF
      ensures pid in old(tables) && oldfd < MAX_FDS && newfd < MAX_FDS ==>
        ret == if oldfd == newfd || old(tables)[pid][oldfd].inUse then newfd else -EBADF
      ensures ret < 0 || oldfd == newfd ==> tables == old(tables) && pipes == old(pipes)
      ensures ret >= 0 && oldfd != newfd ==> tables == Set(old(tables), pid, newfd, old(tables)[pid][oldfd])
      ensures tables == After(old(tables), Dup2Call(pid, oldfd, newfd))
        && ret == Answer(old(tables), Dup2Call(pid, oldfd, newfd))
    {
      hide Counted;
      if pid !in tables { return -ENOSYS; }
      if oldfd >= MAX_FDS || newfd >= MAX_FDS { return -EBADF; }
      if oldfd == newfd { return newfd; }
      if !IsOpen(tables[pid], oldfd) { return -EBADF; }
      var src := tables[pid][oldfd];
      SetTwice(tables, pid, newfd, tables[pid][newfd].(inUse := false), src);
      if tables[pid][newfd].inUse {
        Release(pid, newfd, tables[pid][newfd].(inUse := false));
      }
      ghost var tables0: Tables := tables;
      tables := Set(tables, pid, newfd, src);
      Acquire(pid, oldfd, newfd, tables0);
      return newfd;
    }

    /** `sys_pipe`; `block` is what the allocator hands out, and `pointerOk` whether the result pointer is a user
        address. */
    method MakePipe(pid: Pid, pointerOk: bool, block: Option<PipeId>) returns (ret: int, rfd: int, wfd: int)
      requires Valid() && (block.Some? ==> block.value !in pipes)
      modifies this
      ensures Valid()
      ensures ret == 0 || ret == -EINVAL || ret == -ENOSYS || ret == -ENOMEM
      ensures ret == -EINVAL <==> !pointerOk
      ensures ret == -ENOSYS <==> pointerOk && pid !in old(tables)
      ensures ret == 0 ==>
        && pid in old(tables) && block.Some? && 0 <= rfd < wfd && IsLowestFree(old(tables)[pid], rfd)
        && IsLowestFree(old(tables)[pid][rfd := old(tables)[pid][rfd].(inUse := true)], wfd)
        && tables == Set(Set(old(tables), pid, rfd, Entry(Some(PipeEnd(block.value, true)), true)), pid, wfd,
          Entry(Some(PipeEnd(block.value, false)), true))
      ensures ret == -ENOMEM && block.Some? ==>
        forall i, j | 0 <= i < j < MAX_FDS :: old(tables)[pid][i].inUse || old(tables)[pid][j].inUse
      ensures ret != 0 ==> tables == old(tables) && pipes == old(pipes)
    {
      hide Counted;
      rfd, wfd := -1, -1;
      if !pointerOk { return -EINVAL, rfd, wfd; }
      if pid !in tables { return -ENOSYS, rfd, wfd; }
      if block.None? { return -ENOMEM, rfd, wfd; }
      var p := block.value;
      ghost var tables0: Tables, pipes0: PipeSet := tables, pipes;
      pipes := pipes[p := Pipe(1, 1)];
      rfd := FdAlloc(pid);
      if rfd < 0 {
        CloseBoth(p, pipes0);
        return -ENOMEM, rfd, wfd;
      }
      ghost var tables1 := tables;
      wfd := FdAlloc(pid);
      if wfd < 0 {
        tables := Set(tables, pid, rfd, tables[pid][rfd].(inUse := false));
        SetBack(tables0, pid, rfd, tables0[pid][rfd].(inUse := true));
        CloseBoth(p, pipes0);
        return -ENOMEM, rfd, wfd;
      }
      tables := Set(tables, pid, rfd, tables[pid][rfd].(node := Some(PipeEnd(p, true))));
      tables := Set(tables, pid, wfd, tables[pid][wfd].(node := Some(PipeEnd(p, false))));
      SetPair(tables0, pid, rfd, wfd, Entry(Some(PipeEnd(p, true)), true), Entry(Some(PipeEnd(p, false)), true));
      CreateKeeps(tables0, pipes0, pid, rfd, wfd, p);
      ret := 0;
    }

    /** Undoing a pipe that got no descriptors. */
    method CloseBoth(p: PipeId, ghost pipes0: PipeSet)
      requires p !in pipes0 && pipes == pipes0[p := Pipe(1, 1)]
      modifies this`pipes
      ensures pipes == pipes0
    {
      PipeClose(PipeEnd(p, true));
      PipeClose(PipeEnd(p, false));
    }

    /** A new process starts with an empty table. */
    method NewTable(pid: Pid)
      requires Valid() && pid !in tables && |tables| + 1 < MAX_TABLES
      modifies this
      ensures Valid() && tables == old(tables)[pid := Blank(MAX_FDS)] && pipes == old(pipes)
    {
      BlankKeeps(tables, pipes, pid);
      tables := tables[pid := Blank(MAX_FDS)];
    }

    /** `fd_table_dup`, giving the child of a successful fork its table. */
    method ForkTable(parent: Pid, child: Pid)
      requires Valid() && parent in tables && child !in tables && |tables| + 1 < MAX_TABLES
      modifies this
      ensures Valid() && tables == old(tables)[child := old(tables)[parent]]
    {
      hide Counted, AddRef;
      var dst := tables[parent];
      ghost var view := tables[child := Blank(MAX_FDS)];
      BlankKeeps(tables, pipes, child);
      assert dst[..0] + Blank(MAX_FDS) == Blank(MAX_FDS);
      var i := 0;
      while i < MAX_FDS
        invariant 0 <= i <= MAX_FDS && tables == old(tables) && Balanced(view, pipes)
        invariant view == tables[child := dst[..i] + Blank(MAX_FDS - i)]
      {
        ghost var next := tables[child := dst[..i + 1] + Blank(MAX_FDS - (i + 1))];
        BlankHead(MAX_FDS - i);
        assert (dst[..i] + Blank(MAX_FDS - i))[i := dst[i]] == dst[..i + 1] + Blank(MAX_FDS - (i + 1));
        assert next == Set(view, child, i, dst[i]);
        assert |view| == |tables| + 1;
        CopyRef(parent, child, dst[i], i, view);
        view := next;
        i := i + 1;
      }
      assert dst[..i] + Blank(MAX_FDS - i) == dst;
      assert |view| == |tables| + 1;
      tables := tables[child := dst];
    }

    /** One turn of the loop of `fd_table_dup`. */
    method CopyRef(parent: Pid, child: Pid, e: Entry, i: nat, ghost view: Tables)
      requires Balanced(view, pipes) && |view| < MAX_TABLES && parent in view && child in view && parent != child
      requires i < MAX_FDS && view[parent][i] == e && view[child][i] == Entry(None, false)
      modifies this`pipes
      ensures Balanced(Set(view, child, i, e), pipes)
    {
      hide Counted, AddRef;
      if e.inUse && e.node.Some? && e.node.value.PipeEnd? {
        NoDangling(view, pipes, parent, i, e.node.value);
        NoOverflow(view, pipes, e.node.value);
        OpenKeeps(view, pipes, child, i, e.node.value);
        PipeAddRef(e.node.value);
      } else {
        OtherKeeps(view, pipes, child, i, e);
      }
    }

    /** The descriptor loop of `sys_exit`. */
    method Exit(pid: Pid)
      requires Valid() && pid in tables
      modifies this
      ensures Valid() && tables.Keys == old(tables).Keys
        && (forall q | q in tables && q != pid :: tables[q] == old(tables)[q])
      ensures |tables[pid]| == MAX_FDS
        && forall i | 0 <= i < MAX_FDS :: tables[pid][i] == old(tables)[pid][i].(inUse := false)
      ensures tables == After(old(tables), ExitCall(pid))
    {
      hide Counted;
      var i := 0;
      while i < MAX_FDS
        invariant 0 <= i <= MAX_FDS && Valid() && pid in tables && |tables[pid]| == MAX_FDS
        invariant tables.Keys == old(tables).Keys && forall q | q in tables && q != pid :: tables[q] == old(tables)[q]
        invariant forall j | 0 <= j < i :: tables[pid][j] == old(tables)[pid][j].(inUse := false)
        invariant forall j | i <= j < MAX_FDS :: tables[pid][j] == old(tables)[pid][j]
      {
        if tables[pid][i].inUse {
          Release(pid, i, tables[pid][i].(inUse := false));
        }
        i := i + 1;
      }
      assert tables[pid] == Shut(old(tables)[pid]);
      assert tables == old(tables)[pid := Shut(old(tables)[pid])];
    }

    lemma SaneHere(op: Op)
      requires Valid()
      ensures op.PipeCall? ==> (Sane(tables, op) <==> op.block.Some? ==> op.block.value !in pipes)
      ensures forall pid | pid in tables :: |tables[pid]| == MAX_FDS
    {
      hide NumRefs;
      if op.PipeCall? && op.block.Some? { assert Counted(tables, pipes, op.block.value); }
    }

    method Step(op: Op) returns (ret: int)
      requires Valid()
      modifies this
      ensures Valid() && tables == After(old(tables), op) && (Sane(old(tables), op) ==> ret == Answer(old(tables), op))
    {
      hide Balanced, IsLowestFree, Full, PipeFds, FirstFree, Unnamed;
      SaneHere(op);
      ret := 0;
      match op
      case NewProcess(pid) => if pid !in tables && |tables| + 1 < MAX_TABLES { NewTable(pid); }
      case PipeCall(pid, ok, block) =>
        if block.None? || block.value !in pipes {
          ghost var tables0: Tables := tables;
          var rfd, wfd;
          ret, rfd, wfd := MakePipe(pid, ok, block);
          PipeOutcome(tables0, pid, ok, block, ret, rfd, wfd, tables);
        }
      case DupCall(pid, fd) => ret := Dup(pid, fd);
      case Dup2Call(pid, oldfd, newfd) => ret := Dup2(pid, oldfd, newfd);
      case ForkCall(pid, child) =>
        if pid in tables && child !in tables && |tables| + 1 < MAX_TABLES { ForkTable(pid, child); }
      case CloseCall(pid, fd) => ret := Close(pid, fd);
      case ExitCall(pid) => if pid in tables { Exit(pid); }
    }

    /** After any run of the calls the tables are those the calls describe, the counts are the numbers of
        entries, and a pipe exists exactly while an entry names it. */
    method Run(ops: seq<Op>)
      requires Valid()
      modifies this
      ensures Valid() && tables == AfterAll(old(tables), ops)
      ensures forall p {:trigger Counted(tables, pipes, p)} :: Counted(tables, pipes, p)
    {
      hide After, Counted;
      for i := 0 to |ops|
        invariant Valid() && tables == AfterAll(old(tables), ops[..i])
      {
        var ret := Step(ops[i]);
        assert ops[..i + 1][..i] == ops[..i];
      }
      assert ops[..|ops|] == ops;
    }
  }

  lemma BlankHead(k: nat)
    requires k > 0
    ensures Blank(k) == [Entry(None, false)] + Blank(k - 1)
  {
  }

  lemma SetTwice(tables: Tables, pid: Pid, fd: nat, a: Entry, b: Entry)
    requires pid in tables && fd < |tables[pid]|
    ensures Set(Set(tables, pid, fd, a), pid, fd, b) == Set(tables, pid, fd, b)
  {
    assert tables[pid][fd := a][fd := b] == tables[pid][fd := b];
  }

  lemma SetBack(tables: Tables, pid: Pid, fd: nat, a: Entry)
    requires pid in tables && fd < |tables[pid]|
    ensures Set(Set(tables, pid, fd, a), pid, fd, tables[pid][fd]) == tables
  {
    assert tables[pid][fd := a][fd := tables[pid][fd]] == tables[pid];
  }

  /** Marking two entries used and then filling them is the same as writing both. */
  lemma SetPair(tables: Tables, pid: Pid, a: nat, b: nat, x: Entry, y: Entry)
    requires pid in tables && a < |tables[pid]| && b < |tables[pid]| && a != b
    ensures var t := Set(Set(tables, pid, a, tables[pid][a].(inUse := true)), pid, b, tables[pid][b].(inUse := true));
      Set(Set(t, pid, a, x), pid, b, y) == Set(Set(tables, pid, a, x), pid, b, y)
  {
    var t := tables[pid];
    assert t[a := t[a].(inUse := true)][b := t[b].(inUse := true)][a := x][b := y] == t[a := x][b := y];
  }

  lemma BlankKeeps(tables: Tables, pipes: PipeSet, pid: Pid)
    requires Balanced(tables, pipes) && pid !in tables
    ensures Balanced(tables[pid := Blank(MAX_FDS)], pipes)
  {
    var tables' := tables[pid := Blank(MAX_FDS)];
    forall p ensures Counted(tables', pipes, p) {
      assert Counted(tables, pipes, p);
      assert Refs(tables', PipeEnd(p, true)) == Refs(tables, PipeEnd(p, true));
      assert Refs(tables', PipeEnd(p, false)) == Refs(tables, PipeEnd(p, false));
    }
  }
}
