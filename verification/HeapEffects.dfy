/** What each heap call does to the set of allocated blocks, said without the functions that compute it. */
module HeapEffects {
  import opened Machine
  import opened HeapList
  import opened HeapSpec

  /** Sizes are served in units of 16 bytes. */
  function Units(size: nat): nat { (size + 15) / 16 * 16 }

  /** A block that serves a request: at least as large, and by less than another block would need. */
  predicate Serves(b: Blk, ptr: nat, size: nat) {
    !b.free && b.addr + 48 == ptr && size <= b.size && Units(size) <= b.size < Units(size) + 64
  }

  /** The request was met by one new block. */
  ghost predicate Adds(l: seq<Blk>, l': seq<Blk>, ptr: nat, size: nat) {
    exists b :: b !in Live(l) && Live(l') == Live(l) + {b} && Serves(b, ptr, size)
  }

  /** The block at `ptr` is allocated no longer; all others are. */
  ghost predicate Drops(l: seq<Blk>, l': seq<Blk>, ptr: nat) {
    exists b :: b in Live(l) && b.addr + 48 == ptr && Live(l') == Live(l) - {b}
  }

  /** The block at `ptr` gave way to one at `ret`. */
  ghost predicate Replaces(l: seq<Blk>, l': seq<Blk>, ptr: nat, ret: nat, size: nat) {
    exists b, c :: b in Live(l) && b.addr + 48 == ptr && Live(l') == Live(l) - {b} + {c} && Serves(c, ret, size)
  }

  /** Some free block holds the request; the first in address order is the one used, and nothing is mapped. */
  ghost predicate FirstIsUsed(s: HeapState, o: Outcome, size: nat) {
    (exists b :: b in s.list && b.free && b.size >= Units(size)) ==>
      && o.state.end == s.end && o.state.supply == s.supply
      && (exists b :: b in s.list && b.free && b.size >= Units(size) && b.addr + 48 == o.ret)
      && forall b :: b in s.list && b.free && b.size >= Units(size) ==> o.ret <= b.addr + 48
  }

  /** What a call does. */
  ghost predicate Did(s: HeapState, c: Call, o: Outcome) {
    match c
    case Malloc(size, _) => Allocated(s, o, size)
    case Release(ptr) => if ptr == 0 then o.state == s else Drops(s.list, o.state.list, ptr)
    case Realloc(ptr, size) =>
      if ptr == 0 then Allocated(s, o, size)
      else if size == 0 then o.ret == 0 && Drops(s.list, o.state.list, ptr)
      else if o.ret == 0 then Live(o.state.list) == Live(s.list) && !StaysPut(s.list, ptr, size) && UsedUp(s, o, size)
      else Replaces(s.list, o.state.list, ptr, o.ret, size) && (o.ret == ptr <==> StaysPut(s.list, ptr, size))
  }

  ghost predicate Allocated(s: HeapState, o: Outcome, size: nat) {
    if size == 0 then o == Outcome(s, 0)
    else if o.ret == 0 then Live(o.state.list) == Live(s.list) && UsedUp(s, o, size)
    else Adds(s.list, o.state.list, o.ret, size) && FirstIsUsed(s, o, size) && GrowsLeast(s, o, size)
  }

  /** A refusal: no free block holds the request, and no further page is to be had. */
  ghost predicate UsedUp(s: HeapState, o: Outcome, size: nat) {
    && (forall b :: b in s.list && b.free ==> b.size < Units(size))
    && (o.state.supply == 0 || o.state.end == HEAP_MAX)
  }

  /** The block can stay: it is large enough, or with the free block after it. */
  ghost predicate StaysPut(l: seq<Blk>, ptr: nat, size: nat) {
    exists i :: 0 <= i < |l| && l[i].addr + 48 == ptr && EnoughAt(l, i, Units(size))
  }

  ghost predicate EnoughAt(l: seq<Blk>, i: nat, n: nat)
    requires i < |l|
  {
    l[i].size >= n || (i + 1 < |l| && l[i + 1].free && l[i].size + 48 + l[i + 1].size >= n)
  }

  /** When no free block holds the request, whole pages are mapped: as many as the request and a spare header
      need beyond the free end of the heap, and no more. */
  ghost predicate GrowsLeast(s: HeapState, o: Outcome, size: nat) {
    (forall b :: b in s.list && b.free ==> b.size < Units(size)) && |s.list| > 0 ==>
      var last := s.list[|s.list| - 1];
      var need := if last.free then Units(size) + 48 - last.size else Units(size) + 96;
      var grown := o.state.end - s.end;
      grown % 4096 == 0 && need <= grown < need + 4096 && o.state.supply == s.supply - grown / 4096
  }

  lemma UnitsUp(size: nat)
    ensures AlignUp(size) == Units(size) >= size
  {
  }

  lemma MallocDid(s: HeapState, size: nat)
    requires Shaped(s)
    ensures |s.list| > 0 && s.end <= HEAP_MAX && Allocated(s, AfterMalloc(s, size), size)
  {
    MallocKeeps(s, size);
    UnitsUp(size);
    var o := AfterMalloc(s, size);
    if size != 0 {
      NoFitGrows(s, size);
      if o.ret == 0 {
        NoneLarge(s.list, AlignUp(size));
      } else {
        assert Adds(s.list, o.state.list, o.ret, size) by {
          hide Live, Shaped, Keeps, AfterMalloc;
          var b :| IsNew(s.list, o.state.list, b) && b.Ptr() == o.ret && Snug(b.size, AlignUp(size));
        }
        FirstUsed(s, size);
      }
    }
  }

  lemma NoFitGrows(s: HeapState, size: nat)
    requires Shaped(s) && size > 0 && |s.list| > 0 && s.end <= HEAP_MAX
    ensures var o := AfterMalloc(s, size);
      && (o.ret == 0 ==> o.state.supply == 0 || o.state.end == HEAP_MAX)
      && (o.ret != 0 ==> GrowsLeast(s, o, size))
  {
    UnitsUp(size);
    hide Layout, NoHeadRun, Allocate, Extend, Units, AlignUp;
    var n := AlignUp(size);
    var i := FitIndex(s.list, n, 0);
    if i == |s.list| {
      GrowsByAPage(s.list, n);
      PageCount(Need(s.list[|s.list| - 1], n), PagesFor(s.list, n));
      RoomEnds(s);
      PointerIsNot(s, n);
    } else {
      assert s.list[i] in s.list;
    }
  }

  lemma PageCount(need: int, pages: int)
    requires pages == (need + PAGE_SIZE - 1) / PAGE_SIZE
    ensures need <= pages * PAGE_SIZE < need + PAGE_SIZE
  {
  }

  lemma RoomEnds(s: HeapState)
    requires Shaped(s)
    ensures Room(s) == s.supply || s.end + Room(s) * PAGE_SIZE == HEAP_MAX
  {
    hide Layout, NoHeadRun;
    assert HEAP_MAX % PAGE_SIZE == 0;
  }

  lemma PointerIsNot(s: HeapState, n: nat)
    requires Shaped(s) && |s.list| > 0 && FitIndex(s.list, n, 0) == |s.list|
    ensures AfterGrow(s, n).ret == 0 ==> PagesFor(s.list, n) > Room(s)
  {
    hide Layout, NoHeadRun, Allocate, PagesFor, Room;
  }

  lemma NoneLarge(l: seq<Blk>, size: nat)
    requires NoFit(l, size)
    ensures forall b :: b in l && b.free ==> b.size < size
  {
    forall b | b in l && b.free ensures b.size < size {
      var k :| 0 <= k < |l| && l[k] == b;
      assert !Fits(l[k], size);
    }
  }

  lemma FirstUsed(s: HeapState, size: nat)
    requires Shaped(s) && size > 0 && |s.list| > 0 && s.end <= HEAP_MAX
    ensures FirstIsUsed(s, AfterMalloc(s, size), size)
  {
    UnitsUp(size);
    LayoutOrdered(s.list, s.end);
    hide Layout, AfterGrow, Allocate, Units, AlignUp, NoHeadRun;
    var i := FitIndex(s.list, AlignUp(size), 0);
    if b :| b in s.list && b.free && b.size >= Units(size) {
      forall c | c in s.list && c.free && c.size >= Units(size) ensures i < |s.list| && s.list[i].addr <= c.addr {
        var k :| 0 <= k < |s.list| && s.list[k] == c;
        assert Fits(s.list[k], AlignUp(size));
        assert i <= k;
        if i < k { Earlier(s.list, i, k); }
      }
      assert s.list[i] in s.list;
    }
  }

  lemma FreeDid(s: HeapState, ptr: nat)
    requires Shaped(s) && ptr != 0 && ptr in Ptrs(s.list)
    ensures Drops(s.list, AfterFree(s, ptr).list, ptr)
  {
    HeldBlock(s, ptr);
    var i := BlockAt(s.list, ptr, 0);
    FreeKeeps(s.list, i, s.end);
    hide Layout, NoHeadRun, Free, Tight;
    assert s.list[i] in Live(s.list);
  }

  lemma StillHeld(s: HeapState, o: Outcome, ptr: nat)
    requires ptr in Ptrs(s.list) && Live(s.list) <= Live(o.state.list)
    ensures ptr in Ptrs(o.state.list)
  {
    var b :| b in Live(s.list) && b.Ptr() == ptr;
  }

  lemma MoveDid(s: HeapState, ptr: nat, size: nat)
    requires Shaped(s) && ptr != 0 && ptr in Ptrs(s.list) && size > 0
    ensures |s.list| > 0 && s.end <= HEAP_MAX
    ensures var o := AfterMove(s, ptr, AlignUp(size));
      if o.ret == 0 then Live(o.state.list) == Live(s.list) && UsedUp(s, o, size)
      else Replaces(s.list, o.state.list, ptr, o.ret, size) && o.ret != ptr
  {
    hide Units, Shaped, Live, AfterMalloc, AfterFree, FirstIsUsed, Keeps, NewBlock, NoFit, PagesFor, Room, Ptrs,
      AlignUp, Serves;
    UnitsUp(size);
    UnitsTwice(size);
    var n := AlignUp(size);
    MallocKeeps(s, n);
    MallocDid(s, n);
    assert n > 0;
    var o := AfterMalloc(s, n);
    if o.ret != 0 {
      KeptShape(s, o, n);
      var c :| c !in Live(s.list) && Live(o.state.list) == Live(s.list) + {c} && Serves(c, o.ret, n);
      StillHeld(s, o, ptr);
      FreeDid(o.state, ptr);
      var b :| b in Live(o.state.list) && b.addr + 48 == ptr
        && Live(AfterFree(o.state, ptr).list) == Live(o.state.list) - {b};
      OneAtAddress(s, o.state, ptr, b, c);
      assert Live(s.list) + {c} - {b} == Live(s.list) - {b} + {c};
      ServesAlso(c, o.ret, size);
      ServedAt(c, o.ret, n);
    }
  }

  lemma ServedAt(c: Blk, ptr: nat, size: nat)
    requires Serves(c, ptr, size)
    ensures c.addr + 48 == ptr
  {
  }

  lemma ServesAlso(c: Blk, ptr: nat, size: nat)
    requires Serves(c, ptr, AlignUp(size))
    ensures Serves(c, ptr, size)
  {
    UnitsUp(size);
    UnitsTwice(size);
  }

  lemma UnitsTwice(size: nat)
    ensures Units(Units(size)) == Units(size)
  {
    var k := (size + 15) / 16;
    assert (k * 16 + 15) / 16 == k;
  }

  lemma KeptShape(s: HeapState, o: Outcome, size: nat)
    requires Keeps(s, o, size)
    ensures Shaped(o.state)
  {
  }

  /** The old block is still the one at `ptr`, and it is not the new one. */
  lemma OneAtAddress(s: HeapState, s': HeapState, ptr: nat, b: Blk, c: Blk)
    requires Shaped(s') && ptr in Ptrs(s.list) && Live(s'.list) == Live(s.list) + {c} && c !in Live(s.list)
    requires b in Live(s'.list) && b.addr + 48 == ptr
    ensures b in Live(s.list) && b != c && b.addr != c.addr
  {
    var m :| 0 <= m < |s'.list| && s'.list[m] == c;
    var a :| a in Live(s.list) && a.Ptr() == ptr;
    var i :| 0 <= i < |s'.list| && s'.list[i] == a;
    var j :| 0 <= j < |s'.list| && s'.list[j] == b;
    LayoutOrdered(s'.list, s'.end);
    hide Layout;
    SamePlace(s'.list, i, j);
    SamePlace(s'.list, m, j);
  }

  lemma SamePlace(l: seq<Blk>, i: nat, j: nat)
    requires Ordered(l) && i < |l| && j < |l|
    ensures l[i].addr == l[j].addr ==> i == j
  {
  }

  lemma ReallocDid(s: HeapState, ptr: nat, size: nat)
    requires Shaped(s) && (ptr == 0 || ptr in Ptrs(s.list))
    ensures |s.list| > 0 && s.end <= HEAP_MAX && Did(s, Realloc(ptr, size), AfterRealloc(s, ptr, size))
  {
    hide Shaped, Live, AfterMalloc, AfterFree, AfterMove, Allocated, Drops, Replaces, Split, Widen, AlignUp, Units,
      Ptrs, Layout,
         StaysPut, UsedUp, StaysByWidening;
    MallocDid(s, size);
    if ptr != 0 {
      assert Layout(s.list, s.end) by { ShapedLayout(s); }
      HeldBlock(s, ptr);
      FreeDid(s, ptr);
      if size != 0 {
        UnitsUp(size);
        MoveDid(s, ptr, size);
        ResizedDid(s, ptr, size, BlockAt(s.list, ptr, 0));
        StaysWhen(s, ptr, size, BlockAt(s.list, ptr, 0));
      }
    }
  }

  lemma StaysWhen(s: HeapState, ptr: nat, size: nat, i: nat)
    requires Layout(s.list, s.end) && i == BlockAt(s.list, ptr, 0) < |s.list|
    ensures StaysPut(s.list, ptr, size) <==> s.list[i].size >= Units(size) || StaysByWidening(s.list, i, Units(size))
  {
    LayoutOrdered(s.list, s.end);
    hide Layout, Units;
    assert EnoughAt(s.list, i, Units(size)) <==>
      s.list[i].size >= Units(size) || StaysByWidening(s.list, i, Units(size));
    forall j | 0 <= j < |s.list| && s.list[j].addr + 48 == ptr ensures j == i { SamePlace(s.list, i, j); }
  }

  lemma ShapedLayout(s: HeapState)
    requires Shaped(s)
    ensures Layout(s.list, s.end)
  {
  }

  lemma ResizedDid(s: HeapState, ptr: nat, size: nat, i: nat)
    requires Shaped(s) && ptr != 0 && size > 0 && i == BlockAt(s.list, ptr, 0) < |s.list| && !s.list[i].free
    ensures var n := Units(size);
      && (s.list[i].size >= n ==> Replaces(s.list, Split(s.list, i, n), ptr, ptr, size))
      && (s.list[i].size < n && StaysByWidening(s.list, i, n) ==> Replaces(s.list, Widen(s.list, i, n), ptr, ptr, size))
  {
    UnitsUp(size);
    AlignUpIsAligned(size);
    var n := Units(size);
    hide Layout, NoHeadRun, Tight, Split, Widen, Live, Units;
    assert s.list[i] in Live(s.list) by { LiveMember(s.list, i); }
    if s.list[i].size >= n {
      ShrinkKeeps(s.list, i, n, s.end);
      var c := Split(s.list, i, n)[i];
      assert c.addr == s.list[i].addr by { SameAddr(s.list, Split(s.list, i, n), i); }
      assert Serves(c, ptr, size);
    } else if StaysByWidening(s.list, i, n) {
      WidenKeeps(s.list, i, n, s.end);
      var c := Widen(s.list, i, n)[i];
      assert c.addr == s.list[i].addr by { SameAddr(s.list, Widen(s.list, i, n), i); }
      assert Serves(c, ptr, size);
    }
  }

  lemma LiveMember(l: seq<Blk>, i: nat)
    requires i < |l| && !l[i].free
    ensures l[i] in Live(l)
  {
  }

  lemma SameAddr(l: seq<Blk>, r: seq<Blk>, i: nat)
    requires OnlyAt(l, r, i)
    ensures r[i].addr == l[i].addr
  {
  }

  /** Every call by a caller who passes null or a pointer it holds does what `Did` says. */
  lemma EveryCallDid(s: HeapState, c: Call)
    requires Shaped(s) && Proper(s, c)
    ensures |s.list| > 0 && s.end <= HEAP_MAX && Did(s, c, AfterCall(s, c))
  {
    hide Shaped, AfterMalloc, AfterRealloc, Allocated, Drops, Ptrs;
    match c
    case Malloc(size, _) => MallocDid(s, size);
    case Release(ptr) =>
      MallocDid(s, 0);
      if ptr != 0 { FreeDid(s, ptr); }
    case Realloc(ptr, size) => ReallocDid(s, ptr, size);
  }
}
