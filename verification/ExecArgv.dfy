/** Carrying argv across exec: copied out of the old address space, rebuilt on the new user stack. */
module ExecArgv {
  import opened Machine
  import opened Packing

  const MAX_EXEC_ARGS: nat := 32
  const MAX_EXEC_ARG_DATA: nat := 4096
  const USER_ADDR_LIMIT: nat := 0x0000_8000_0000_0000
  const USER_STACK_TOP: nat := 0x0000_7FFF_FFFF_E000
  const USER_STACK_PAGES: nat := 4
  const STACK_BYTES: nat := USER_STACK_PAGES * PAGE_SIZE
  const STACK_BASE: nat := USER_STACK_TOP - STACK_BYTES
  const EINVAL: int := 22
  const E2BIG: int := 7

  /** The bytes of the calling process. */
  type Memory = nat -> u8

  function ByteAt(mem: Memory, a: nat, i: nat): u8 { mem(a + i) }

  /** `user_ptr_valid` */
  predicate UserPtrValid(p: nat, len: nat) {
    var end := (p + len) % 0x1_0000_0000_0000_0000;
    p != 0 && len != 0 && end > p && end <= USER_ADDR_LIMIT
  }

  /** Below the wrap, a valid range is a non-empty one from a non-null address that ends at or below the limit. */
  lemma UserRange(p: nat, len: nat)
    requires p + len < 0x1_0000_0000_0000_0000
    ensures UserPtrValid(p, len) <==> 0 < p && 0 < len && p + len <= 0x8000_0000_0000
  {
  }

  /** The i-th pointer of the array at `argv`. */
  function ArgPtr(mem: Memory, argv: nat, i: nat): nat {
    FromBytes(seq(8, k requires 0 <= k < 8 => ByteAt(mem, argv + 8 * i, k)))
  }

  ghost predicate IsUserString(mem: Memory, a: nat, s: seq<u8>) {
    ByteAt(mem, a, |s|) == 0 && forall i | 0 <= i < |s| :: ByteAt(mem, a, i) == s[i] != 0
  }

  ghost predicate ArgAt(mem: Memory, argv: nat, i: nat, s: seq<u8>) {
    var p := ArgPtr(mem, argv, i);
    p != 0 && UserPtrValid(p, 1) && IsUserString(mem, p, s)
  }

  /** The array at `argv` holds exactly these arguments, each readable, and then a null pointer. */
  ghost predicate HasArgs(mem: Memory, argv: nat, args: seq<seq<u8>>) {
    if argv == 0 then args == []
    else
      && UserPtrValid(argv, 8) && (forall i {:trigger args[i]} | 0 <= i < |args| :: ArgAt(mem, argv, i, args[i]))
      && ArgPtr(mem, argv, |args|) == 0
  }

  ghost predicate Fits(args: seq<seq<u8>>) { |args| <= MAX_EXEC_ARGS && |Strung(args)| <= MAX_EXEC_ARG_DATA }

  /** What has been copied so far is the start of what there is to copy. */
  ghost predicate OnTheWay(mem: Memory, argv: nat, want: seq<seq<u8>>, args: seq<seq<u8>>) {
    HasArgs(mem, argv, want) && Fits(want) ==> args <= want
  }

  ghost predicate StartsWith(mem: Memory, argv: nat, args: seq<seq<u8>>) {
    |args| <= MAX_EXEC_ARGS && forall j {:trigger args[j]} | 0 <= j < |args| :: ArgAt(mem, argv, j, args[j])
  }

  ghost predicate BadPointer(mem: Memory, argv: nat, i: nat) {
    ArgPtr(mem, argv, i) != 0 && !UserPtrValid(ArgPtr(mem, argv, i), 1)
  }

  /** After `args` comes a 33rd argument, or one that does not end in the room left. */
  ghost predicate TooMuch(mem: Memory, argv: nat, args: seq<seq<u8>>) {
    var p := ArgPtr(mem, argv, |args|);
    p != 0 && (|args| == MAX_EXEC_ARGS
      || forall j | 0 <= j < MAX_EXEC_ARG_DATA - |Strung(args)| :: ByteAt(mem, p, j) != 0)
  }

  lemma UserStringUnique(mem: Memory, a: nat, s: seq<u8>, t: seq<u8>)
    requires IsUserString(mem, a, s) && IsUserString(mem, a, t)
    ensures s == t
  {
    assert ByteAt(mem, a, |s|) == 0 && ByteAt(mem, a, |t|) == 0;
    assert |s| == |t|;
  }

  lemma OnTheWayNext(mem: Memory, argv: nat, want: seq<seq<u8>>, args: seq<seq<u8>>)
    requires argv != 0 && OnTheWay(mem, argv, want, args) && HasArgs(mem, argv, want) && Fits(want)
    ensures ArgPtr(mem, argv, |args|) == 0 ==> args == want
    ensures |args| == MAX_EXEC_ARGS ==> args == want
    ensures ArgPtr(mem, argv, |args|) != 0 ==>
      |args| < |want| && ArgAt(mem, argv, |args|, want[|args|]) && |Strung(args)| + |want[|args|]| < MAX_EXEC_ARG_DATA
  {
    hide ArgAt, Strung, ArgPtr;
    if |args| < |want| {
      assert ArgAt(mem, argv, |args|, want[|args|]);
      assert want[..|args|] == args;
      StrungParts(want, |args|);
      assert ArgAt(mem, argv, |args|, want[|args|]) ==> ArgPtr(mem, argv, |args|) != 0 by {
        ArgNotNull(mem, argv, |args|, want[|args|]);
      }
    }
  }

  lemma ArgNotNull(mem: Memory, argv: nat, i: nat, s: seq<u8>)
    ensures ArgAt(mem, argv, i, s) ==> ArgPtr(mem, argv, i) != 0
  {
  }

  /** The kernel buffer after copying `args`. */
  ghost predicate Packed(data: seq<u8>, used: nat, ptrs: seq<nat>, args: seq<seq<u8>>) {
    && |args| == |ptrs| && used == |Strung(args)| <= |data| && data[..used] == Strung(args)
    && (forall i {:trigger ptrs[i]} | 0 <= i < |args| :: ptrs[i] == |Strung(args[..i])| && NoNul(args[i]))
  }

  lemma PackNext(data: seq<u8>, data': seq<u8>, used: nat, used': nat, ptrs: seq<nat>, args: seq<seq<u8>>, s: seq<u8>)
    requires Packed(data, used, ptrs, args) && NoNul(s) && used' == used + |s| + 1 <= |data'|
      && data'[..used] == data[..used]
    requires data'[used..used'] == s + [0]
    ensures Packed(data', used', ptrs + [used], args + [s])
  {
    hide Strung;
    StrungAppend(args, s);
    var ptrs', args' := ptrs + [used], args + [s];
    assert data'[..used'] == data'[..used] + data'[used..used'];
    assert Strung(args) + s + [0] == Strung(args) + (s + [0]);
    forall i | 0 <= i < |args'| ensures ptrs'[i] == |Strung(args'[..i])| && NoNul(args'[i]) {
      if i < |args| {
        assert args'[..i] == args[..i] && ptrs[i] == |Strung(args[..i])|;
      } else {
        assert args'[..i] == args;
      }
    }
  }

  class ExecArgs {
    const data: array<u8>
    var argc: nat
    var ptrs: seq<nat>
    var used: nat
    ghost var args: seq<seq<u8>>

    ghost predicate Valid()
      reads this, data
    {
      data.Length == MAX_EXEC_ARG_DATA && argc == |ptrs| <= MAX_EXEC_ARGS && Packed(data[..], used, ptrs, args)
    }

    constructor ()
      ensures Valid() && fresh(data) && args == []
    {
      data := new u8[MAX_EXEC_ARG_DATA](_ => 0);
      argc, ptrs, used, args := 0, [], 0, [];
    }

    /** The inner loop of `exec_copy_argv`; it fails exactly when no terminator comes before the buffer is full. */
    method CopyString(mem: Memory, ustr: nat) returns (ok: bool, ghost s: seq<u8>)
      requires data.Length == MAX_EXEC_ARG_DATA && used <= MAX_EXEC_ARG_DATA
      modifies this`used, data
      ensures data[..old(used)] == old(data[..used])
      ensures ok ==>
        && IsUserString(mem, ustr, s) && NoNul(s) && used == old(used) + |s| + 1 <= MAX_EXEC_ARG_DATA
        && data[old(used)..used] == s + [0]
      ensures !ok ==> forall j | 0 <= j < MAX_EXEC_ARG_DATA - old(used) :: ByteAt(mem, ustr, j) != 0
    {
      hide ByteAt;
      var start := used;
      while true
        invariant start <= used <= MAX_EXEC_ARG_DATA && data[..start] == old(data[..used])
        invariant forall j | 0 <= j < used - start :: data[start..used][j] == ByteAt(mem, ustr, j) != 0
        decreases MAX_EXEC_ARG_DATA - used
      {
        if used >= MAX_EXEC_ARG_DATA { return false, []; }
        var c := ByteAt(mem, ustr, used - start);
        ghost var before := data[start..used];
        data[used] := c;
        used := used + 1;
        assert data[start..used] == before + [c];
        if c == 0 {
          return true, before;
        }
      }
    }

    /** The body of the argument loop, for a pointer that is not null. */
    method TakeArg(mem: Memory, argv: nat, ghost want: seq<seq<u8>>) returns (ret: int)
      requires Valid() && argv != 0 && argc < MAX_EXEC_ARGS && argc == |args| && ArgPtr(mem, argv, argc) != 0
      requires StartsWith(mem, argv, args) && OnTheWay(mem, argv, want, args)
      modifies this, data
      ensures StartsWith(mem, argv, args) && OnTheWay(mem, argv, want, args)
      ensures ret == 0 || ret == -EINVAL || ret == -E2BIG
      ensures ret == 0 ==> Valid() && argc == |args| == old(argc) + 1
      ensures ret == -EINVAL ==> BadPointer(mem, argv, |args|)
      ensures ret == -E2BIG ==> TooMuch(mem, argv, args)
      ensures HasArgs(mem, argv, want) && Fits(want) ==> ret == 0
    {
      hide Strung, ArgPtr, IsUserString, UserPtrValid, NoNul, TooMuch, HasArgs, Fits;
      if HasArgs(mem, argv, want) && Fits(want) { OnTheWayNext(mem, argv, want, args); }
      var ustr := ArgPtr(mem, argv, argc);
      if !UserPtrValid(ustr, 1) { return -EINVAL; }
      ghost var data0 := data[..];
      var start := used;
      var ok, s := CopyString(mem, ustr);
      if !ok {
        if HasArgs(mem, argv, want) && Fits(want) {
          NoTerminator(mem, argv, |args|, want[|args|], MAX_EXEC_ARG_DATA - start);
        }
        assert TooMuch(mem, argv, args) by { Unended(mem, argv, args, start); }
        return -E2BIG;
      }
      if HasArgs(mem, argv, want) && Fits(want) { SameArg(mem, argv, |args|, s, want[|args|]); }
      PackNext(data0, data[..], start, used, ptrs, args, s);
      ptrs := ptrs + [start];
      argc := argc + 1;
      args := args + [s];
      ret := 0;
    }

    /** `exec_copy_argv`: it accepts exactly the argument arrays that fit, and copies them. */
    method CopyArgv(mem: Memory, argv: u64, ghost want: seq<seq<u8>>) returns (ret: int)
      requires data.Length == MAX_EXEC_ARG_DATA
      modifies this, data
      ensures ret == 0 || ret == -EINVAL || ret == -E2BIG
      ensures ret == 0 ==> Valid() && HasArgs(mem, argv, args) && Fits(args)
      ensures HasArgs(mem, argv, want) && Fits(want) ==> ret == 0 && args == want
      ensures ret == -EINVAL ==>
        argv != 0 && (!UserPtrValid(argv, 8) || (StartsWith(mem, argv, args) && BadPointer(mem, argv, |args|)))
      ensures ret == -E2BIG ==> argv != 0 && StartsWith(mem, argv, args) && TooMuch(mem, argv, args)
    {
      hide Strung, ArgPtr, UserPtrValid, TooMuch, ArgAt, Packed;
      argc, ptrs, used, args := 0, [], 0, [];
      PackedEmpty(data[..]);
      if argv == 0 { return 0; }
      if !UserPtrValid(argv, 8) { return -EINVAL; }
      var i := 0;
      while i < MAX_EXEC_ARGS
        invariant 0 <= i <= MAX_EXEC_ARGS && Valid() && argc == i == |args|
        invariant StartsWith(mem, argv, args) && OnTheWay(mem, argv, want, args)
      {
        if HasArgs(mem, argv, want) && Fits(want) { OnTheWayNext(mem, argv, want, args); }
        var ustr := ArgPtr(mem, argv, i);
        if ustr == 0 { break; }
        ret := TakeArg(mem, argv, want);
        if ret != 0 { return; }
        i := i + 1;
      }
      if HasArgs(mem, argv, want) && Fits(want) { OnTheWayNext(mem, argv, want, args); }
      if argc == MAX_EXEC_ARGS {
        if ArgPtr(mem, argv, MAX_EXEC_ARGS) != 0 {
          assert TooMuch(mem, argv, args) by { OneTooMany(mem, argv, args); }
          return -E2BIG;
        }
      }
      PackedFits(data[..], used, ptrs, args);
      return 0;
    }
  }

  lemma PackedFits(data: seq<u8>, used: nat, ptrs: seq<nat>, args: seq<seq<u8>>)
    requires Packed(data, used, ptrs, args)
    ensures |args| == |ptrs| && |Strung(args)| <= |data|
  {
  }

  lemma Unended(mem: Memory, argv: nat, args: seq<seq<u8>>, used: nat)
    requires ArgPtr(mem, argv, |args|) != 0 && used == |Strung(args)|
    requires forall j | 0 <= j < MAX_EXEC_ARG_DATA - used :: ByteAt(mem, ArgPtr(mem, argv, |args|), j) != 0
    ensures TooMuch(mem, argv, args)
  {
  }

  lemma OneTooMany(mem: Memory, argv: nat, args: seq<seq<u8>>)
    requires ArgPtr(mem, argv, |args|) != 0 && |args| == MAX_EXEC_ARGS
    ensures TooMuch(mem, argv, args)
  {
  }

  lemma PackedEmpty(data: seq<u8>)
    ensures Packed(data, 0, [], [])
  {
  }

  lemma SameArg(mem: Memory, argv: nat, i: nat, s: seq<u8>, t: seq<u8>)
    requires ArgAt(mem, argv, i, t) && IsUserString(mem, ArgPtr(mem, argv, i), s)
    ensures s == t
  {
    UserStringUnique(mem, ArgPtr(mem, argv, i), s, t);
  }

  /** An argument that ends in the room left is not refused. */
  lemma NoTerminator(mem: Memory, argv: nat, i: nat, s: seq<u8>, room: nat)
    requires ArgAt(mem, argv, i, s) && forall j | 0 <= j < room :: ByteAt(mem, ArgPtr(mem, argv, i), j) != 0
    ensures |s| >= room
  {
    assert ByteAt(mem, ArgPtr(mem, argv, i), |s|) == 0;
  }

  // ----- the new stack -----

  /** `strlen` on the kernel buffer. */
  method StrLen(data: array<u8>, at: nat, ghost s: seq<u8>) returns (n: nat)
    requires IsCString(data[..], at, s)
    ensures n == |s|
  {
    n := 0;
    ghost var bytes := data[..];
    while data[at + n] != 0
      invariant n <= |s| && at + |s| < data.Length && data[..] == bytes
      decreases |s| - n
    {
      assert bytes[at + |s|] == 0;
      n := n + 1;
    }
    assert bytes[at + n] == 0;
    StringEnd(bytes, at, s, n);
  }

  lemma StringEnd(bytes: seq<u8>, at: nat, s: seq<u8>, n: nat)
    requires IsCString(bytes, at, s) && n <= |s| && bytes[at + n] == 0
    ensures n == |s|
  {
    if n < |s| { StringByte(bytes, at, s, n); }
  }

  lemma StringByte(bytes: seq<u8>, at: nat, s: seq<u8>, n: nat)
    requires IsCString(bytes, at, s) && n < |s|
    ensures bytes[at + n] == s[n] != 0
  {
  }

  /** `memcpy` */
  method CopyBytes(dst: array<u8>, at: nat, src: array<u8>, from: nat, len: nat)
    requires at + len <= dst.Length && from + len <= src.Length && dst != src
    modifies dst
    ensures dst[at..at + len] == src[from..from + len] && dst[..at] == old(dst[..at])
      && dst[at + len..] == old(dst[at + len..])
  {
    var i := 0;
    while i < len
      invariant 0 <= i <= len && dst[..at] == old(dst[..at]) && dst[at + len..] == old(dst[at + len..])
      invariant dst[at..at + i] == src[from..from + i]
    {
      dst[at + i] := src[from + i];
      assert dst[at..at + (i + 1)] == dst[at..at + i] + [src[from + i]];
      i := i + 1;
    }
  }

  method Store64(dst: array<u8>, at: nat, x: nat)
    requires at + 8 <= dst.Length
    modifies dst
    ensures dst[at..at + 8] == ToBytes(x, 8) && dst[..at] == old(dst[..at]) && dst[at + 8..] == old(dst[at + 8..])
  {
    var bytes := ToBytes(x, 8);
    var i := 0;
    while i < 8
      invariant 0 <= i <= 8 && dst[..at] == old(dst[..at]) && dst[at + 8..] == old(dst[at + 8..])
      invariant dst[at..at + i] == bytes[..i]
    {
      dst[at + i] := bytes[i];
      assert dst[at..at + (i + 1)] == dst[at..at + i] + [bytes[i]];
      i := i + 1;
    }
  }

  // Positions on the stack are offsets from its lowest address, STACK_BASE, which is page aligned.

  /** Where the i-th string ends up: strings fill the top of the stack in order. */
  ghost function OffsetOf(args: seq<seq<u8>>, i: nat): int
    requires i <= |args|
  {
    STACK_BYTES - |Strung(args[i..])|
  }

  ghost function Addrs(args: seq<seq<u8>>): seq<int> {
    seq(|args|, i requires 0 <= i < |args| => STACK_BASE + OffsetOf(args, i))
  }

  lemma PackedFrom(data: seq<u8>, used: nat, ptrs: seq<nat>, args: seq<seq<u8>>, i: nat)
    requires Packed(data, used, ptrs, args) && i < |args|
    ensures NoNul(args[i]) && IsCString(data, ptrs[i], args[i])
      && data[ptrs[i]..ptrs[i] + |args[i]| + 1] == args[i] + [0]
    ensures Strung(args[i..]) == args[i] + [0] + Strung(args[i + 1..]) && |Strung(args[i..])| <= used
  {
    assert ptrs[i] == |Strung(args[..i])| && NoNul(args[i]);
    assert data[0..0 + |Strung(args)|] == data[..used];
    StrungAt(data, 0, args, i);
    assert args[i..][1..] == args[i + 1..];
    CStringSlice(data, ptrs[i], args[i]);
  }

  lemma CStringSlice(bytes: seq<u8>, at: nat, s: seq<u8>)
    requires IsCString(bytes, at, s)
    ensures bytes[at..at + |s| + 1] == s + [0]
  {
    var t := bytes[at..at + |s| + 1];
    forall k | 0 <= k < |t| ensures t[k] == (s + [0])[k] { assert t[k] == bytes[at + k]; }
  }

  /** Puts one string below `sp`. */
  method PushString(a: ExecArgs, stack: array<u8>, i: nat, sp0: nat) returns (sp: nat)
    requires a.Valid() && stack.Length == STACK_BYTES && stack != a.data && i < |a.args|
      && sp0 == OffsetOf(a.args, i + 1)
    requires stack[sp0..] == Strung(a.args[i + 1..])
    modifies stack
    ensures sp == OffsetOf(a.args, i) <= sp0 && stack[sp..] == Strung(a.args[i..])
      && stack[..sp] == old(stack[..])[..sp]
  {
    hide Strung, STACK_BASE;
    PackedFrom(a.data[..], a.used, a.ptrs, a.args, i);
    var len := StrLen(a.data, a.ptrs[i], a.args[i]);
    sp := sp0 - (len + 1);
    CopyBytes(stack, sp, a.data, a.ptrs[i], len + 1);
    assert stack[sp..] == stack[sp..sp + (len + 1)] + stack[sp + (len + 1)..];
    assert stack[..sp] == old(stack[..])[..sp];
  }

  /** Step 1: the strings, last to first. */
  method PushStrings(a: ExecArgs, stack: array<u8>) returns (sp: nat, addrs: seq<nat>)
    requires a.Valid() && stack.Length == STACK_BYTES && stack != a.data
    modifies stack
    ensures sp == STACK_BYTES - a.used && addrs == Addrs(a.args)
    ensures stack[sp..] == Strung(a.args) && stack[..sp] == old(stack[..STACK_BYTES - a.used])
  {
    hide Strung, STACK_BASE, Packed, OffsetOf;
    FewBytes(a);
    sp := STACK_BYTES;
    addrs := [];
    var i := a.argc;
    assert a.args[i..] == [];
    OffsetEnds(a.args);
    while i > 0
      invariant 0 <= i <= a.argc == |a.args| && a.Valid()
      invariant sp == OffsetOf(a.args, i) <= STACK_BYTES && stack[sp..] == Strung(a.args[i..])
        && stack[..sp] == old(stack[..])[..sp]
      invariant |addrs| == a.argc - i
        && forall k {:trigger addrs[k]} | 0 <= k < |addrs| :: addrs[k] == STACK_BASE + OffsetOf(a.args, i + k)
    {
      i := i - 1;
      OffsetMax(a.args, i);
      ghost var before, sp0 := stack[..], sp;
      sp := PushString(a, stack, i, sp);
      assert stack[..sp] == before[..sp0][..sp] == old(stack[..])[..sp];
      addrs := [STACK_BASE + sp] + addrs;
    }
    assert a.args[0..] == a.args;
  }

  lemma OffsetMax(args: seq<seq<u8>>, i: nat)
    requires i <= |args|
    ensures OffsetOf(args, i) <= STACK_BYTES
  {
  }

  lemma OffsetEnds(args: seq<seq<u8>>)
    ensures OffsetOf(args, 0) == STACK_BYTES - |Strung(args)| && OffsetOf(args, |args|) == STACK_BYTES
      && Strung(args[|args|..]) == []
  {
    assert args[0..] == args && args[|args|..] == [];
  }

  lemma FewBytes(a: ExecArgs)
    requires a.Valid()
    ensures a.used <= MAX_EXEC_ARG_DATA && |a.args| == a.argc <= MAX_EXEC_ARGS && a.used == |Strung(a.args)|
  {
  }

  /** Steps 3 and 4: the null word and the pointers below it, last to first. */
  method PushPointers(stack: array<u8>, top: nat, addrs: seq<nat>) returns (sp: nat)
    requires 8 * (|addrs| + 1) <= top <= stack.Length
    modifies stack
    ensures sp == top - 8 * (|addrs| + 1) && stack[sp..top] == Words(addrs + [0])
    ensures stack[top..] == old(stack[top..]) && stack[..sp] == old(stack[..top - 8 * (|addrs| + 1)])
  {
    hide Words, ToBytes;
    sp := top - 8;
    Store64(stack, sp, 0);
    var i := |addrs|;
    assert addrs[i..] + [0] == [0] + [];
    WordsCons(0, []);
    WordsNone();
    assert stack[sp..top] == ToBytes(0, 8);
    while i > 0
      invariant 0 <= i <= |addrs| && sp == top - 8 * (|addrs| + 1 - i)
      invariant stack[sp..top] == Words(addrs[i..] + [0]) && stack[top..] == old(stack[top..])
        && stack[..sp] == old(stack[..])[..sp]
    {
      i := i - 1;
      sp := sp - 8;
      ghost var done, above := stack[sp + 8..top], stack[sp + 8..];
      assert done == above[..top - sp - 8] && old(stack[top..]) == above[top - sp - 8..];
      Store64(stack, sp, addrs[i]);
      assert stack[sp + 8..top] == above[..top - sp - 8] && stack[top..] == above[top - sp - 8..];
      assert addrs[i..] + [0] == [addrs[i]] + (addrs[i + 1..] + [0]);
      WordsCons(addrs[i], addrs[i + 1..] + [0]);
      assert stack[sp..top] == stack[sp..sp + 8] + stack[sp + 8..top];
    }
    assert addrs[0..] == addrs;
  }

  lemma WordsCons(w: nat, ws: seq<nat>)
    ensures Words([w] + ws) == ToBytes(w, 8) + Words(ws)
  {
    assert ([w] + ws)[1..] == ws;
  }

  lemma WordsNone()
    ensures Words([]) == []
  {
  }

  /** The 64-bit word at an offset of the user stack. */
  ghost function WordOn(stack: seq<u8>, at: nat): nat
    requires at + 8 <= |stack|
  {
    FromBytes(stack[at..at + 8])
  }

  /** What the new program finds: `argv[i]` points at the i-th argument, after the last comes a null, and nothing
      overlaps. */
  ghost predicate ArgvOn(stack: seq<u8>, arr: nat, args: seq<seq<u8>>)
    requires |stack| == STACK_BYTES
  {
    && arr % 8 == 0 && arr + 8 * (|args| + 1) <= OffsetOf(args, 0)
    && (forall i {:trigger ArgOn(stack, arr, args, i)} | 0 <= i < |args| :: ArgOn(stack, arr, args, i))
    && WordIs(stack, arr + 8 * |args|, 0)
  }

  ghost predicate WordIs(stack: seq<u8>, at: nat, w: nat) { at + 8 <= |stack| && WordOn(stack, at) == w }

  ghost predicate ArgOn(stack: seq<u8>, arr: nat, args: seq<seq<u8>>, i: nat)
    requires i < |args|
  {
    && OffsetOf(args, i) >= 0 && WordIs(stack, arr + 8 * i, STACK_BASE + OffsetOf(args, i))
    && IsCString(stack, OffsetOf(args, i), args[i])
  }

  /** `exec_setup_user_stack`: every write is inside the 16 KB of the stack, and argv reads back as it was. */
  method SetupStack(a: ExecArgs, stack: array<u8>) returns (rsp: nat, argv: nat, ghost arr: nat)
    requires a.Valid() && stack.Length == STACK_BYTES && stack != a.data
    modifies stack
    ensures ArgvOn(stack[..], arr, a.args) && stack[..arr] == old(stack[..])[..arr]
    ensures STACK_BASE <= rsp <= STACK_BASE + arr && rsp % 16 == 0 && argv == if a.argc > 0 then STACK_BASE + arr else 0
  {
    hide Words, Strung, Packed, OffsetOf, STACK_BASE, ArgOn, WordIs;
    FewBytes(a);
    var sp, addrs := PushStrings(a, stack);
    ghost var strings, written := sp, stack[..];
    sp := sp - sp % 8;
    ghost var top := sp;
    sp := PushPointers(stack, sp, addrs);
    arr := sp;
    assert stack[strings..] == written[strings..] by {
      assert stack[strings..] == stack[top..][strings - top..] && written[strings..] == written[top..][strings - top..];
    }
    assert stack[..arr] == old(stack[..])[..arr] by {
      assert stack[..arr] == written[..arr] == written[..strings][..arr];
    }
    ReadBack(a, stack[..], arr, top, addrs);
    argv := if a.argc > 0 then STACK_BASE + sp else 0;
    sp := sp - sp % 16;
    rsp := STACK_BASE + sp;
    BaseAligned(sp);
  }

  lemma BaseAligned(sp: nat)
    requires sp % 16 == 0
    ensures (STACK_BASE + sp) % 16 == 0
  {
  }

  lemma ReadBack(a: ExecArgs, stack: seq<u8>, arr: nat, top: nat, addrs: seq<nat>)
    requires a.Valid() && |stack| == STACK_BYTES && addrs == Addrs(a.args) && top % 8 == 0
    requires arr + 8 * (|addrs| + 1) == top <= STACK_BYTES - a.used && a.used <= STACK_BYTES
    requires stack[arr..top] == Words(addrs + [0]) && stack[STACK_BYTES - a.used..] == Strung(a.args)
    ensures ArgvOn(stack, arr, a.args)
  {
    hide Words, Strung, STACK_BASE, OffsetOf, Packed, WordIs;
    FewBytes(a);
    OffsetEnds(a.args);
    Aligned8(arr, |addrs| + 1);
    AddrsSmall(a.args, a.used);
    ReadWord(stack, arr, addrs + [0], |addrs|);
    forall i | 0 <= i < |a.args| ensures ArgOn(stack, arr, a.args, i) {
      ReadWord(stack, arr, addrs + [0], i);
      ReadString(a, stack, i);
    }
  }

  lemma AddrsSmall(args: seq<seq<u8>>, used: nat)
    requires used == |Strung(args)| <= STACK_BYTES
    ensures forall i | 0 <= i < |args| :: 0 <= STACK_BASE + OffsetOf(args, i) < 0x1_0000_0000_0000_0000
  {
    forall i | 0 <= i < |args| ensures OffsetOf(args, i) >= 0 { StrungParts(args, i); }
  }

  lemma ReadString(a: ExecArgs, stack: seq<u8>, i: nat)
    requires a.Valid() && |stack| == STACK_BYTES && a.used <= STACK_BYTES
      && stack[STACK_BYTES - a.used..] == Strung(a.args) && i < |a.args|
    ensures OffsetOf(a.args, i) >= 0 && IsCString(stack, OffsetOf(a.args, i), a.args[i])
  {
    hide Strung, STACK_BASE;
    var base := STACK_BYTES - a.used;
    PackedFrom(a.data[..], a.used, a.ptrs, a.args, i);
    assert a.used == |Strung(a.args)| && stack[base..base + |Strung(a.args)|] == stack[base..];
    StrungAt(stack, base, a.args, i);
  }

  lemma ReadWord(stack: seq<u8>, arr: nat, ws: seq<nat>, i: nat)
    requires i < |ws| && ws[i] < 0x1_0000_0000_0000_0000 && arr + 8 * |ws| <= |stack|
      && stack[arr..arr + 8 * |ws|] == Words(ws)
    ensures WordIs(stack, arr + 8 * i, ws[i])
  {
    hide Words, FromBytes, ToBytes, Power256;
    WordAt(ws, i);
    Power8();
    WordRoundTrip(ws[i], 8);
    Slices(stack, arr, arr + 8 * |ws|, 8 * i, 8 * i + 8);
  }

  lemma Slices(s: seq<u8>, lo: nat, hi: nat, a: nat, b: nat)
    requires lo <= hi <= |s| && a <= b <= hi - lo
    ensures s[lo..hi][a..b] == s[lo + a..lo + b]
  {
    var t, u := s[lo..hi][a..b], s[lo + a..lo + b];
    forall k | 0 <= k < |t| ensures t[k] == u[k] { assert t[k] == s[lo..hi][a + k] == s[lo + (a + k)]; }
  }

  lemma Aligned8(arr: nat, n: nat)
    requires (arr + 8 * n) % 8 == 0
    ensures arr % 8 == 0
  {
  }

  /** The argv part of `sys_exec`: what the old program passed is what the new one finds. */
  method CarryArgv(mem: Memory, argv0: u64, stack: array<u8>, ghost want: seq<seq<u8>>)
    returns (ret: int, rsp: nat, argv: nat, ghost arr: nat)
    requires stack.Length == STACK_BYTES
    modifies stack
    ensures ret == 0 || ret == -EINVAL || ret == -E2BIG
    ensures HasArgs(mem, argv0, want) && Fits(want) ==>
      && ret == 0 && ArgvOn(stack[..], arr, want) && argv == (if |want| > 0 then STACK_BASE + arr else 0)
      && STACK_BASE <= rsp <= STACK_BASE + arr && rsp % 16 == 0
    ensures ret != 0 ==> stack[..] == old(stack[..])
  {
    hide HasArgs, Fits, ArgvOn, STACK_BASE, Packed;
    rsp, argv, arr := 0, 0, 0;
    var a := new ExecArgs();
    ret := a.CopyArgv(mem, argv0, want);
    if ret == 0 {
      FewBytes(a);
      rsp, argv, arr := SetupStack(a, stack);
    }
  }
}
