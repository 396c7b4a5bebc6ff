/** A driver and a device exchanging chains over a virtqueue, in every interleaving. */
module VirtqueueRuns {
  import opened Machine
  import opened DescriptorLists
  import opened Virtqueues
  import opened Counters

  datatype Op =
    | Alloc
    | Fill(head: u16, addr: u64, len: u32, flags: u16)
    | Link(head: u16, next: u16, addr: u64, len: u32, flags: u16)
    | Submit(head: u16)
    | Take
    | Return(head: u16, len: u32)
    | Pop
    | Free(head: u16)

  function Ids(used: seq<UsedElem>): seq<int> { seq(|used|, i requires 0 <= i < |used| => used[i].id) }

  /** A chain is in one hand at a time: the driver's, the available ring, the device's, or the used ring. */
  ghost predicate OneHand(keys: set<u16>, idle: set<u16>, pending: seq<u16>, held: set<u16>, unpopped: seq<u16>) {
    && NoDup(pending) && NoDup(unpopped)
    && (forall x :: x in keys <==> x in idle || x in pending || x in held || x in unpopped)
    && (forall x :: x in idle ==> x !in pending && x !in held && x !in unpopped)
    && (forall x :: x in held ==> x !in pending && x !in unpopped)
    && (forall x :: x in pending ==> x !in unpopped)
  }

  /** Whose hands the chains are in, and that no head was lost or invented on the way. */
  ghost predicate HandsOf(keys: set<u16>, idle: set<u16>, submitted: seq<u16>, taken: nat, held: set<u16>,
                          returned: seq<u16>, popped: nat)
  {
    && taken <= |submitted| && popped <= |returned|
    && OneHand(keys, idle, submitted[taken..], held, returned[popped..])
    && multiset(submitted) == multiset(returned) + multiset(held) + multiset(submitted[taken..])
  }

  /** Everything about a queue but the bytes of its tables: the free descriptors in order, the chains,
      and whose hands each chain is in. */
  datatype Chan = Chan(free: seq<u16>, chains: map<u16, seq<u16>>, idle: set<u16>,
                       submitted: seq<u16>, taken: nat, held: set<u16>, returned: seq<u16>, popped: nat)

  /** What each step of the driver or the device does; one it has no right to does nothing. */
  ghost function After(s: Chan, op: Op): Chan {
    match op
    case Alloc =>
      if s.free == [] then s
      else s.(free := s.free[1..], chains := s.chains[s.free[0] := [s.free[0]]], idle := s.idle + {s.free[0]})
    case Fill(_, _, _, _) => s
    case Link(a, b, _, _, _) => if CanLink(s, a, b) then Linked(s, a, b) else s
    case Submit(h) => if h in s.idle then s.(idle := s.idle - {h}, submitted := s.submitted + [h]) else s
    case Take =>
      if s.taken < |s.submitted| then s.(taken := s.taken + 1, held := s.held + {s.submitted[s.taken]}) else s
    case Return(h, _) => if h in s.held then s.(held := s.held - {h}, returned := s.returned + [h]) else s
    case Pop =>
      if s.popped < |s.returned| then s.(popped := s.popped + 1, idle := s.idle + {s.returned[s.popped]}) else s
    case Free(h) => if h in s.idle && h in s.chains then Freed(s, h) else s
  }

  ghost predicate CanLink(s: Chan, a: u16, b: u16) {
    a in s.idle && b in s.idle && a != b && a in s.chains && b in s.chains
  }

  ghost function Linked(s: Chan, a: u16, b: u16): Chan
    requires a in s.chains && b in s.chains
  {
    s.(chains := (s.chains - {b})[a := s.chains[a] + s.chains[b]], idle := s.idle - {b})
  }

  ghost function Freed(s: Chan, h: u16): Chan
    requires h in s.chains
  {
    s.(free := Reversed(s.chains[h]) + s.free, chains := s.chains - {h}, idle := s.idle - {h})
  }

  ghost function AfterAll(s: Chan, ops: seq<Op>): Chan {
    if ops == [] then s else After(AfterAll(s, ops[..|ops| - 1]), ops[|ops| - 1])
  }

  ghost predicate Sound(s: Chan) {
    HandsOf(s.chains.Keys, s.idle, s.submitted, s.taken, s.held, s.returned, s.popped)
  }

  /** Whose hands a head is in. */
  datatype Hand = NoChain | Driver | Offered | Device | Answered

  ghost function HandOf(s: Chan, h: u16): Hand
    requires s.taken <= |s.submitted| && s.popped <= |s.returned|
  {
    if h in s.idle then Driver
    else if h in s.submitted[s.taken..] then Offered
    else if h in s.held then Device
    else if h in s.returned[s.popped..] then Answered
    else NoChain
  }

  /** Head `h` goes from one hand to another and every other head stays where it is. */
  ghost predicate Moves(s: Chan, s': Chan, h: u16, from: Hand, to: Hand)
    requires s.taken <= |s.submitted| && s.popped <= |s.returned|
  {
    && s'.taken <= |s'.submitted| && s'.popped <= |s'.returned|
    && HandOf(s, h) == from && HandOf(s', h) == to && forall x :: x != h ==> HandOf(s', x) == HandOf(s, x)
  }

  lemma MovesOut(s: Chan, h: u16)
    requires Sound(s) && h in s.idle
    ensures Moves(s, After(s, Submit(h)), h, Driver, Offered)
  {
    var s' := After(s, Submit(h));
    assert s'.submitted[s'.taken..] == s.submitted[s.taken..] + [h];
  }

  lemma MovesToDevice(s: Chan)
    requires Sound(s) && s.taken < |s.submitted|
    ensures Moves(s, After(s, Take), s.submitted[s.taken], Offered, Device)
  {
    var h := s.submitted[s.taken];
    assert s.submitted[s.taken..] == [h] + s.submitted[s.taken + 1..];
  }

  lemma MovesBack(s: Chan, h: u16, len: u32)
    requires Sound(s) && h in s.held
    ensures Moves(s, After(s, Return(h, len)), h, Device, Answered)
  {
    var s' := After(s, Return(h, len));
    assert s'.returned[s'.popped..] == s.returned[s.popped..] + [h];
  }

  lemma MovesHome(s: Chan)
    requires Sound(s) && s.popped < |s.returned|
    ensures Moves(s, After(s, Pop), s.returned[s.popped], Answered, Driver)
  {
    var h := s.returned[s.popped];
    assert s.returned[s.popped..] == [h] + s.returned[s.popped + 1..];
  }

  /** Allocation gives the driver the first free descriptor as a chain of its own. */
  lemma AllocMoves(s: Chan)
    requires Sound(s) && s.free != [] && s.free[0] !in s.chains
    ensures var s' := After(s, Alloc);
      && Moves(s, s', s.free[0], NoChain, Driver) && s.free == [s.free[0]] + s'.free
      && s'.chains == s.chains[s.free[0] := [s.free[0]]]
  {
  }

  /** Freeing gives back every descriptor of the chain. */
  lemma FreeMoves(s: Chan, h: u16)
    requires Sound(s) && h in s.idle
    ensures var s' := After(s, Op.Free(h));
      && h in s.chains && Moves(s, s', h, Driver, NoChain) && s'.chains == s.chains - {h}
      && |s'.free| == |s.free| + |s.chains[h]| && forall x :: x in s'.free <==> x in s.free || x in s.chains[h]
  {
    ReversedIn(s.chains[h], h);
    forall x: u16 ensures x in Reversed(s.chains[h]) <==> x in s.chains[h] { ReversedIn(s.chains[h], x); }
  }

  /** Linking appends one chain to another. */
  lemma LinkMoves(s: Chan, a: u16, b: u16, addr: u64, len: u32, flags: u16)
    requires Sound(s) && a in s.idle && b in s.idle && a != b
    ensures var s' := After(s, Link(a, b, addr, len, flags));
      && a in s.chains && b in s.chains && Moves(s, s', b, Driver, NoChain) && s'.free == s.free
      && a in s'.chains && s'.chains[a] == s.chains[a] + s.chains[b] && b !in s'.chains
      && forall x :: x in s.chains && x != a && x != b ==> x in s'.chains && s'.chains[x] == s.chains[x]
  {
  }

  class Channel {
    const vq: Virtqueue
    /** Chains the driver has allocated and may submit or free. */
    var idle: set<u16>
    /** The device: how far it has read the available ring, and the chains it is working on. */
    var seen: u16
    var held: set<u16>
    ghost var submitted: seq<u16>
    ghost var taken: nat
    ghost var returned: seq<u16>
    ghost var popped: nat

    ghost function State(): Chan
      reads this, vq.descs
    {
      Chan(vq.descs.free, vq.descs.chains, idle, submitted, taken, held, returned, popped)
    }

    ghost predicate Valid()
      reads this, vq, vq.avail, vq.used, vq.descs, vq.descs.desc
    {
      && vq.Shape() && vq.descs.Valid()
      && RingOf(vq.avail[..], vq.availIdx, seen, submitted, taken, vq.size, 0x1_0000)
      && RingOf(Ids(vq.used[..]), vq.usedIdx, vq.lastUsed, returned, popped, vq.size, 0x1_0000)
      && Sound(State())
    }

    constructor (size: nat)
      requires 0 < size < 0x1_0000 && 0x1_0000 % size == 0
      ensures Valid() && fresh(vq) && fresh(vq.avail) && fresh(vq.used) && fresh(vq.descs) && fresh(vq.descs.desc)
      ensures submitted == [] && idle == {} && held == {} && vq.descs.chains == map[]
    {
      vq := new Virtqueue(size);
      idle, seen, held := {}, 0, {};
      submitted, taken, returned, popped := [], 0, [], 0;
    }

    method AllocChain()
      requires Valid()
      modifies this`idle, vq.descs, vq.descs.desc
      ensures Valid() && State() == After(old(State()), Alloc)
    {
      hide Descriptors.Valid, RingOf, HandsOf;
      ghost var keys := vq.descs.chains.Keys;
      var idx := vq.descs.AllocDesc();
      if idx != NONE {
        NewHead(keys, idle, submitted, taken, held, returned, popped, idx);
        assert vq.descs.chains.Keys == keys + {idx};
        idle := idle + {idx};
      }
    }

    /** The driver writes the last descriptor of a chain it holds. */
    method FillTail(head: u16, addr: u64, len: u32, flags: u16)
      requires Valid() && head in idle
      modifies vq.descs.desc
      ensures Valid() && State() == old(State()) && head in vq.descs.chains && vq.descs.chains[head] != []
      ensures var last := vq.descs.chains[head][|vq.descs.chains[head]| - 1];
        last < vq.size && vq.descs.desc[..] == old(vq.descs.desc[..])[last := Desc(addr, len, flags, NONE)]
    {
      hide Descriptors.Valid, RingOf;
      var last := vq.descs.TailOf(head);
      vq.descs.Finish(head, last, addr, len, flags);
    }

    /** The driver writes the last descriptor of one chain it holds to lead on to another. */
    method LinkChains(a: u16, b: u16, addr: u64, len: u32, flags: u16)
      requires Valid() && a in idle && b in idle && a != b
      modifies this`idle, vq.descs, vq.descs.desc
      ensures Valid() && CanLink(old(State()), a, b) && State() == Linked(old(State()), a, b)
        && old(vq.descs.chains)[a] != []
      ensures var last := old(vq.descs.chains)[a][|old(vq.descs.chains)[a]| - 1];
        last < vq.size && vq.descs.desc[..] == old(vq.descs.desc[..])[last := Desc(addr, len, flags, b)]
    {
      hide Descriptors.Valid, RingOf, HandsOf;
      ghost var keys := vq.descs.chains.Keys;
      DropHead(keys, idle, submitted, taken, held, returned, popped, a);
      DropHead(keys, idle, submitted, taken, held, returned, popped, b);
      var last := vq.descs.TailOf(a);
      vq.descs.Join(a, last, b, addr, len, flags);
      assert vq.descs.chains.Keys == keys - {b};
      idle := idle - {b};
    }

    method SubmitChain(head: u16)
      requires Valid() && head in idle
      modifies this`idle, this`submitted, vq, vq.avail
      ensures Valid() && State() == After(old(State()), Submit(head))
    {
      hide Descriptors.Valid, RingOf, HandsOf;
      KeysSmall();
      GiveHead(vq.descs.chains.Keys, idle, submitted, taken, held, returned, popped, head, vq.size);
      RingPush(vq.avail[..], vq.availIdx, seen, submitted, taken, vq.size, 0x1_0000, head);
      idle := idle - {head};
      vq.Submit(head);
      submitted := submitted + [head];
    }

    /** The device takes the next available chain, if there is one. */
    method DeviceTake()
      requires Valid()
      modifies this`seen, this`held, this`taken
      ensures Valid() && State() == After(old(State()), Take)
    {
      hide Descriptors.Valid, RingOf, HandsOf;
      Bounds();
      RingPop(vq.avail[..], vq.availIdx, seen, submitted, taken, vq.size, 0x1_0000);
      if seen == vq.availIdx { return; }
      var head := vq.avail[seen % vq.size];
      TakeHead(vq.descs.chains.Keys, idle, submitted, taken, held, returned, popped);
      held := held + {head};
      seen := (seen + 1) % 0x1_0000;
      taken := taken + 1;
    }

    lemma Bounds()
      requires Sound(State())
      ensures taken <= |submitted| && popped <= |returned|
    {
    }

    /** The device returns a chain it holds. */
    method DeviceReturn(head: u16, len: u32)
      requires Valid() && head in held
      modifies this`held, this`returned, vq, vq.used
      ensures Valid() && State() == After(old(State()), Return(head, len))
    {
      hide Descriptors.Valid, RingOf, HandsOf;
      KeysSmall();
      ReturnHead(vq.descs.chains.Keys, idle, submitted, taken, held, returned, popped, head, vq.size);
      RingPush(Ids(vq.used[..]), vq.usedIdx, vq.lastUsed, returned, popped, vq.size, 0x1_0000, head);
      ghost var slot, ids := vq.usedIdx % vq.size, Ids(vq.used[..]);
      vq.used[vq.usedIdx % vq.size] := UsedElem(head, len);
      assert Ids(vq.used[..]) == ids[slot := head];
      vq.usedIdx := (vq.usedIdx + 1) % 0x1_0000;
      held := held - {head};
      returned := returned + [head];
    }

    /** The driver takes back the oldest returned chain, if there is one. */
    method PopChain() returns (head: Option<u16>)
      requires Valid()
      modifies this`idle, this`popped, vq`lastUsed
      ensures Valid() && State() == After(old(State()), Pop)
      ensures head == if old(popped) < |old(returned)| then Some(old(returned)[old(popped)]) else None
    {
      hide Descriptors.Valid, RingOf, HandsOf;
      Bounds();
      RingPop(Ids(vq.used[..]), vq.usedIdx, vq.lastUsed, returned, popped, vq.size, 0x1_0000);
      var any := vq.HasUsed();
      if !any { return None; }
      PopHead(vq.descs.chains.Keys, idle, submitted, taken, held, returned, popped);
      var h, len := vq.PopUsed();
      assert h == returned[popped];
      head := Some(h);
      idle := idle + {h};
      popped := popped + 1;
    }

    method FreeIdle(head: u16)
      requires Valid() && head in idle
      modifies this`idle, vq.descs, vq.descs.desc
      ensures Valid() && head in old(vq.descs.chains) && State() == Freed(old(State()), head)
    {
      hide Descriptors.Valid, RingOf, HandsOf;
      ghost var keys := vq.descs.chains.Keys;
      DropHead(keys, idle, submitted, taken, held, returned, popped, head);
      vq.descs.FreeChain(head);
      assert vq.descs.chains.Keys == keys - {head};
      idle := idle - {head};
    }

    lemma KeysSmall()
      requires vq.Shape() && vq.descs.Valid()
      ensures forall h | h in vq.descs.chains.Keys :: h < vq.size
    {
      hide Lists;
      var q := vq.descs;
      forall h | h in q.chains.Keys ensures h < vq.size {
        HeadHome(q.desc[..], q.freeHead, q.free, q.chains, q.home, h);
      }
    }

    method Step(op: Op)
      requires Valid()
      modifies this, vq, vq.avail, vq.used, vq.descs, vq.descs.desc
      ensures Valid() && State() == After(old(State()), op)
    {
      hide RingOf, HandsOf, Descriptors.Valid;
      HeadsKnown(State());
      match op
      case Alloc => AllocChain();
      case Fill(head, addr, len, flags) => if head in idle { FillTail(head, addr, len, flags); }
      case Link(a, b, addr, len, flags) => if a in idle && b in idle && a != b { LinkChains(a, b, addr, len, flags); }
      case Submit(head) => if head in idle { SubmitChain(head); }
      case Take => DeviceTake();
      case Return(head, len) => if head in held { DeviceReturn(head, len); }
      case Pop => var head := PopChain();
      case Free(head) => if head in idle { FreeIdle(head); }
    }

    /** Any interleaving of driver and device does what its steps say, with the rings and the descriptor
        table in step, over any number of counter wraps. */
    method Run(ops: seq<Op>)
      requires Valid()
      modifies this, vq, vq.avail, vq.used, vq.descs, vq.descs.desc
      ensures Valid() && State() == AfterAll(old(State()), ops)
    {
      hide RingOf, HandsOf, Descriptors.Valid, After, Sound, Channel.Valid;
      for i := 0 to |ops|
        invariant Valid() && State() == AfterAll(old(State()), ops[..i])
      {
        Step(ops[i]);
        assert ops[..i + 1][..i] == ops[..i];
      }
      assert ops[..|ops|] == ops;
    }

    /** Every submitted head is popped, or is in exactly one hand still. */
    lemma EachOnce(head: u16)
      requires Valid()
      ensures multiset(submitted)[head] == multiset(returned[..popped])[head] + (if InFlight(head) then 1 else 0)
      ensures InFlight(head) ==> head in vq.descs.chains && head !in idle
    {
      hide RingOf, Descriptors.Valid;
      FlightCount(vq.descs.chains.Keys, idle, submitted, taken, held, returned, popped, head);
    }

    ghost predicate InFlight(head: u16)
      reads this
    {
      popped <= |returned| && taken <= |submitted|
        && (head in submitted[taken..] || head in held || head in returned[popped..])
    }
  }

  lemma HeadsKnown(s: Chan)
    requires Sound(s)
    ensures forall h :: h in s.idle ==> h in s.chains
  {
  }

  /** Distinct chains number at most the table size, so the rings have room for all of them. */
  lemma Room(keys: set<u16>, line: seq<u16>, x: u16, size: nat)
    requires NoDup(line) && x !in line && x in keys && size <= 0x1_0000
    requires (forall i | i in line :: i in keys) && forall i | i in keys :: i < size
    ensures |line| < size
  {
    var s := set i | i in line;
    NoDupBound(line, s);
    BelowSize(size);
    SubsetSize(s + {x}, Below(size));
  }

  lemma NewHead(keys: set<u16>, idle: set<u16>, submitted: seq<u16>, taken: nat, held: set<u16>, returned: seq<u16>,
                popped: nat, x: u16)
    requires HandsOf(keys, idle, submitted, taken, held, returned, popped) && x !in keys
    ensures HandsOf(keys + {x}, idle + {x}, submitted, taken, held, returned, popped)
  {
  }

  lemma DropHead(keys: set<u16>, idle: set<u16>, submitted: seq<u16>, taken: nat, held: set<u16>, returned: seq<u16>,
                 popped: nat, x: u16)
    requires HandsOf(keys, idle, submitted, taken, held, returned, popped) && x in idle
    ensures x in keys && HandsOf(keys - {x}, idle - {x}, submitted, taken, held, returned, popped)
  {
  }

  lemma GiveHead(keys: set<u16>, idle: set<u16>, submitted: seq<u16>, taken: nat, held: set<u16>, returned: seq<u16>,
                 popped: nat, x: u16, size: nat)
    requires HandsOf(keys, idle, submitted, taken, held, returned, popped) && x in idle
      && (forall i | i in keys :: i < size) && size <= 0x1_0000
    ensures |submitted| < taken + size && HandsOf(keys, idle - {x}, submitted + [x], taken, held, returned, popped)
  {
    Room(keys, submitted[taken..], x, size);
    assert (submitted + [x])[taken..] == submitted[taken..] + [x];
  }

  lemma ReturnHead(keys: set<u16>, idle: set<u16>, submitted: seq<u16>, taken: nat, held: set<u16>,
                   returned: seq<u16>, popped: nat, x: u16, size: nat)
    requires HandsOf(keys, idle, submitted, taken, held, returned, popped) && x in held
      && (forall i | i in keys :: i < size) && size <= 0x1_0000
    ensures |returned| < popped + size && HandsOf(keys, idle, submitted, taken, held - {x}, returned + [x], popped)
  {
    Room(keys, returned[popped..], x, size);
    assert (returned + [x])[popped..] == returned[popped..] + [x];
  }

  lemma TakeHead(keys: set<u16>, idle: set<u16>, submitted: seq<u16>, taken: nat, held: set<u16>, returned: seq<u16>,
                 popped: nat)
    requires HandsOf(keys, idle, submitted, taken, held, returned, popped) && taken < |submitted|
    ensures HandsOf(keys, idle, submitted, taken + 1, held + {submitted[taken]}, returned, popped)
  {
    var x, rest := submitted[taken], submitted[taken + 1..];
    assert submitted[taken..] == [x] + rest;
    assert x in submitted[taken..];
    assert multiset(held + {x}) == multiset(held) + multiset{x};
  }

  lemma PopHead(keys: set<u16>, idle: set<u16>, submitted: seq<u16>, taken: nat, held: set<u16>, returned: seq<u16>,
                popped: nat)
    requires HandsOf(keys, idle, submitted, taken, held, returned, popped) && popped < |returned|
    ensures HandsOf(keys, idle + {returned[popped]}, submitted, taken, held, returned, popped + 1)
  {
    var x, rest := returned[popped], returned[popped + 1..];
    assert returned[popped..] == [x] + rest;
    assert x in returned[popped..];
  }

  lemma {:induction false} OnceEach(s: seq<u16>, x: u16)
    requires NoDup(s)
    ensures multiset(s)[x] == if x in s then 1 else 0
  {
    if s != [] {
      assert s == [s[0]] + s[1..];
      OnceEach(s[1..], x);
    }
  }

  lemma FlightCount(keys: set<u16>, idle: set<u16>, submitted: seq<u16>, taken: nat, held: set<u16>,
                    returned: seq<u16>, popped: nat, x: u16)
    requires HandsOf(keys, idle, submitted, taken, held, returned, popped)
    ensures var flying := x in submitted[taken..] || x in held || x in returned[popped..];
      && multiset(submitted)[x] == multiset(returned[..popped])[x] + (if flying then 1 else 0)
      && (flying ==> x in keys && x !in idle)
  {
    assert returned == returned[..popped] + returned[popped..];
    OnceEach(submitted[taken..], x);
    OnceEach(returned[popped..], x);
  }
}
