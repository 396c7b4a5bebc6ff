/** What the heap calls do, as functions of the block list, the mapped end and the pages still available. */
module HeapSpec {
  import opened Machine
  import opened HeapList

  datatype HeapState = HeapState(list: seq<Blk>, end: nat, supply: nat)

  /** The state after a call, and the address it returns. */
  datatype Outcome = Outcome(state: HeapState, ret: nat)

  datatype Call = Malloc(size: nat, zero: bool) | Release(ptr: nat) | Realloc(ptr: nat, size: nat)

  /** Requests above this would wrap `size_t` on the way to a page count. */
  const MAX_REQUEST: nat := U64_MAX - 8192

  predicate Fits(b: Blk, size: nat) { b.free && b.size >= size }

  ghost predicate NoFit(l: seq<Blk>, size: nat) { forall k :: 0 <= k < |l| ==> !Fits(l[k], size) }

  ghost predicate FirstFit(l: seq<Blk>, size: nat, i: nat) {
    i < |l| && Fits(l[i], size) && forall k :: 0 <= k < i ==> !Fits(l[k], size)
  }

  /** The first block from `i` on that fits, or the length of the list. */
  function FitIndex(l: seq<Blk>, size: nat, i: nat): (r: nat)
    requires i <= |l|
    ensures i <= r <= |l| && (r < |l| ==> Fits(l[r], size)) && forall k :: i <= k < r ==> !Fits(l[k], size)
    decreases |l| - i
  {
    if i == |l| || Fits(l[i], size) then i else FitIndex(l, size, i + 1)
  }

  /** The block whose payload starts at `ptr`, or the length of the list. */
  function BlockAt(l: seq<Blk>, ptr: nat, i: nat): (r: nat)
    requires i <= |l|
    ensures i <= r <= |l| && (r < |l| ==> l[r].Ptr() == ptr) && forall k :: i <= k < r ==> l[k].Ptr() != ptr
    decreases |l| - i
  {
    if i == |l| || l[i].Ptr() == ptr then i else BlockAt(l, ptr, i + 1)
  }

  /** The bytes `heap_grow_for` asks for. */
  function Need(last: Blk, size: nat): int {
    if last.free then size - last.size + HEADER else size + 2 * HEADER
  }

  function PagesFor(l: seq<Blk>, size: nat): int
    requires |l| > 0
  {
    (Need(l[|l| - 1], size) + PAGE_SIZE - 1) / PAGE_SIZE
  }

  /** How many more pages can be mapped. */
  function Room(s: HeapState): nat
    requires s.end <= HEAP_MAX
  {
    Min(s.supply, (HEAP_MAX - s.end) / PAGE_SIZE)
  }

  ghost predicate Shaped(s: HeapState) {
    HEAP_START < s.end <= HEAP_MAX && s.end % PAGE_SIZE == 0 && Layout(s.list, s.end) && NoHeadRun(s.list)
  }

  lemma GrowsByAPage(l: seq<Blk>, size: nat)
    requires |l| > 0 && NoFit(l, size)
    ensures Need(l[|l| - 1], size) > HEADER && PagesFor(l, size) >= 1
  {
    assert !Fits(l[|l| - 1], size);
  }

  /** `heap_grow_for` and what `kmalloc` does with its block. */
  function AfterGrow(s: HeapState, need: nat): Outcome
    requires |s.list| > 0 && s.end <= HEAP_MAX && FitIndex(s.list, need, 0) == |s.list|
  {
    GrowsByAPage(s.list, need);
    var pages := PagesFor(s.list, need);
    var grown := Min(pages, Room(s));
    var s' := s.(end := s.end + grown * PAGE_SIZE, supply := s.supply - grown);
    if pages > Room(s) then Outcome(s', 0)
    else
      var l := Extend(s.list, s.end, grown * PAGE_SIZE);
      Outcome(s'.(list := Allocate(l, |l| - 1, need)), l[|l| - 1].Ptr())
  }

  /** `kmalloc` */
  function AfterMalloc(s: HeapState, size: nat): Outcome
    requires |s.list| > 0 && s.end <= HEAP_MAX
  {
    if size == 0 then Outcome(s, 0)
    else
      var need := AlignUp(size);
      var i := FitIndex(s.list, need, 0);
      if i < |s.list| then Outcome(s.(list := Allocate(s.list, i, need)), s.list[i].Ptr()) else AfterGrow(s, need)
  }

  /** `kfree` */
  function AfterFree(s: HeapState, ptr: nat): HeapState {
    var i := BlockAt(s.list, ptr, 0);
    if ptr == 0 || i == |s.list| || s.list[i].free then s else s.(list := Free(s.list, i))
  }

  predicate StaysByWidening(l: seq<Blk>, i: nat, size: nat)
    requires i < |l|
  {
    i + 1 < |l| && l[i + 1].free && l[i].size + HEADER + l[i + 1].size >= size
  }

  /** `krealloc` */
  function AfterRealloc(s: HeapState, ptr: nat, newSize: nat): Outcome
    requires |s.list| > 0 && s.end <= HEAP_MAX
  {
    var i, size := BlockAt(s.list, ptr, 0), AlignUp(newSize);
    if ptr == 0 then AfterMalloc(s, newSize)
    else if newSize == 0 || i == |s.list| then Outcome(AfterFree(s, ptr), 0)
    else if s.list[i].size >= size then Outcome(s.(list := Split(s.list, i, size)), ptr)
    else if StaysByWidening(s.list, i, size) then Outcome(s.(list := Widen(s.list, i, size)), ptr)
    else AfterMove(s, ptr, size)
  }

  /** `krealloc` when the block cannot stay where it is. */
  function AfterMove(s: HeapState, ptr: nat, size: nat): Outcome
    requires |s.list| > 0 && s.end <= HEAP_MAX
  {
    var o := AfterMalloc(s, size);
    if o.ret == 0 then o else Outcome(AfterFree(o.state, ptr), o.ret)
  }

  function AfterCall(s: HeapState, c: Call): Outcome
    requires |s.list| > 0 && s.end <= HEAP_MAX
  {
    match c
    case Malloc(size, zero) => AfterMalloc(s, size)
    case Release(ptr) => Outcome(AfterFree(s, ptr), 0)
    case Realloc(ptr, size) => AfterRealloc(s, ptr, size)
  }

  /** The pointers callers hold. */
  ghost function Ptrs(l: seq<Blk>): set<nat> {
    set b | b in Live(l) :: b.Ptr()
  }

  /** A caller passes null or a pointer it holds, and a size that does not wrap. */
  ghost predicate Proper(s: HeapState, c: Call) {
    match c
    case Malloc(size, zero) => size <= MAX_REQUEST
    case Release(ptr) => ptr == 0 || ptr in Ptrs(s.list)
    case Realloc(ptr, size) => (ptr == 0 || ptr in Ptrs(s.list)) && size <= MAX_REQUEST - ALIGN
  }

  /** The call asked for memory and got none. */
  predicate Refused(s: HeapState, c: Call)
    requires |s.list| > 0 && s.end <= HEAP_MAX
  {
    !c.Release? && c.size != 0 && AfterCall(s, c).ret == 0
  }

  // ----- each call keeps the heap in shape -----

  lemma GrownShape(s: HeapState, grown: nat)
    requires Shaped(s) && grown <= Room(s)
    ensures s.end + grown * PAGE_SIZE <= HEAP_MAX && (s.end + grown * PAGE_SIZE) % PAGE_SIZE == 0
      && (grown * PAGE_SIZE) % PAGE_SIZE == 0
  {
  }

  lemma AlignUpIsAligned(n: nat)
    ensures AlignUp(n) % ALIGN == 0 && n <= AlignUp(n) < n + ALIGN
  {
  }

  lemma LayoutGrows(l: seq<Blk>, end: nat, end': nat)
    requires Layout(l, end) && end <= end'
    ensures Layout(l, end')
  {
    assert forall k :: 0 <= k < |l| ==> l[k].Inside(end);
    assert forall k :: 0 <= k < |l| ==> l[k].Inside(end');
  }

  /** The grown list ends in a free block that holds the request, and no earlier block does. */
  lemma ExtendFits(l: seq<Blk>, oldEnd: nat, grown: nat, size: nat)
    requires |l| > 0 && NoFit(l, size) && Need(l[|l| - 1], size) <= grown
    ensures grown >= HEADER
    ensures var r := Extend(l, oldEnd, grown);
      |r| > 0 && Fits(r[|r| - 1], size) && forall k :: 0 <= k < |r| - 1 ==> !Fits(r[k], size)
  {
    assert !Fits(l[|l| - 1], size);
  }

  lemma PagesSuffice(need: int, pages: int)
    requires pages == (need + PAGE_SIZE - 1) / PAGE_SIZE
    ensures need <= pages * PAGE_SIZE
  {
  }

  lemma GrowKeeps(s: HeapState, size: nat)
    requires Shaped(s) && NoFit(s.list, size) && size % ALIGN == 0 && |s.list| > 0 && PagesFor(s.list, size) <= Room(s)
    ensures var grown := PagesFor(s.list, size) * PAGE_SIZE;
      && grown >= HEADER
      && (var l := Extend(s.list, s.end, grown);
          && Layout(l, s.end + grown) && NoHeadRun(l) && (Tight(s.list, s.end) ==> Tight(l, s.end + grown))
            && Live(l) == Live(s.list)
          && |l| > 0 && FirstFit(l, size, |l| - 1))
  {
    hide Layout, Tight, NoHeadRun, Live, Extend;
    NotEmpty(s.list, s.end);
    var pages := PagesFor(s.list, size);
    var grown := pages * PAGE_SIZE;
    GrowsByAPage(s.list, size);
    PagesSuffice(Need(s.list[|s.list| - 1], size), pages);
    GrownShape(s, pages);
    ExtendKeeps(s.list, s.end, grown);
    ExtendFits(s.list, s.end, grown, size);
  }

  lemma NotEmpty(l: seq<Blk>, end: nat)
    requires Layout(l, end)
    ensures |l| > 0 && l[0].addr == HEAP_START
  {
  }

  /** One more allocated block than before, at `ptr`, with room for `size`. */
  ghost predicate NewBlock(l0: seq<Blk>, l: seq<Blk>, ptr: nat, size: nat) {
    exists b :: IsNew(l0, l, b) && b.Ptr() == ptr && Snug(b.size, size)
  }

  ghost predicate IsNew(l0: seq<Blk>, l: seq<Blk>, b: Blk) { !b.free && b !in Live(l0) && Live(l) == Live(l0) + {b} }

  /** The heap stays in shape, and without gaps unless a request was refused. */
  ghost predicate Keeps(s: HeapState, o: Outcome, size: nat) {
    && Shaped(o.state) && |o.state.list| > 0
    && (Tight(s.list, s.end) && (size == 0 || o.ret != 0) ==> Tight(o.state.list, o.state.end))
  }

  lemma AfterGrowKeeps(s: HeapState, need: nat)
    requires Shaped(s) && |s.list| > 0 && FitIndex(s.list, need, 0) == |s.list| && need % ALIGN == 0 && need > 0
    ensures var o := AfterGrow(s, need);
      && Keeps(s, o, need) && (o.ret == 0 <==> PagesFor(s.list, need) > Room(s))
      && (o.ret == 0 ==> o.state.list == s.list) && (o.ret != 0 ==> NewBlock(s.list, o.state.list, o.ret, need))
  {
    hide Layout, Tight, NoHeadRun, Live, Extend, Allocate, NewBlock, FitIndex;
    GrowsByAPage(s.list, need);
    var pages := PagesFor(s.list, need);
    GrownShape(s, Min(pages, Room(s)));
    hide PagesFor, Room;
    if pages <= Room(s) {
      GrowKeeps(s, need);
      var l := Extend(s.list, s.end, pages * PAGE_SIZE);
      AllocatedNew(l, |l| - 1, need, s.end + pages * PAGE_SIZE);
      NotEmpty(Allocate(l, |l| - 1, need), s.end + pages * PAGE_SIZE);
      SameNew(s.list, l, Allocate(l, |l| - 1, need), l[|l| - 1].Ptr(), need);
    } else {
      LayoutGrows(s.list, s.end, s.end + Room(s) * PAGE_SIZE);
    }
  }

  lemma SameNew(l0: seq<Blk>, l1: seq<Blk>, l: seq<Blk>, ptr: nat, size: nat)
    requires Live(l0) == Live(l1) && NewBlock(l1, l, ptr, size)
    ensures NewBlock(l0, l, ptr, size)
  {
    hide Live;
    var b :| IsNew(l1, l, b) && b.Ptr() == ptr && Snug(b.size, size);
    assert IsNew(l0, l, b);
  }

  lemma MallocKeeps(s: HeapState, size: nat)
    requires Shaped(s)
    ensures |s.list| > 0 && s.end <= HEAP_MAX
    ensures var o := AfterMalloc(s, size);
      && Keeps(s, o, size) && (o.ret == 0 ==> o.state.list == s.list)
      && (o.ret != 0 ==> NewBlock(s.list, o.state.list, o.ret, AlignUp(size)))
      && (o.ret == 0 <==> size == 0 || (NoFit(s.list, AlignUp(size)) && PagesFor(s.list, AlignUp(size)) > Room(s)))
  {
    hide Layout, Tight, NoHeadRun, Live, Extend, Allocate, AlignUp, AfterGrow, NewBlock, PagesFor, Room;
    NotEmpty(s.list, s.end);
    if size != 0 {
      var need := AlignUp(size);
      AlignUpIsAligned(size);
      var i := FitIndex(s.list, need, 0);
      if i < |s.list| {
        AllocatedNew(s.list, i, need, s.end);
        NotEmpty(Allocate(s.list, i, need), s.end);
      } else {
        AfterGrowKeeps(s, need);
      }
    }
  }

  lemma AllocatedNew(l: seq<Blk>, i: nat, size: nat, end: nat)
    requires Layout(l, end) && NoHeadRun(l) && i < |l| && l[i].free && l[i].size >= size && size % ALIGN == 0
    ensures var r := Allocate(l, i, size);
      && Layout(r, end) && NoHeadRun(r) && (Tight(l, end) ==> Tight(r, end)) && l[i].Ptr() != 0
      && NewBlock(l, r, l[i].Ptr(), size)
  {
    AllocateKeeps(l, i, size, end);
    hide Layout, Tight, NoHeadRun, Live, Allocate, OnlyAt;
    var r := Allocate(l, i, size);
    assert r[i].addr == l[i].addr by { AllocatedAddr(l, i, size); }
    assert IsNew(l, r, r[i]);
  }

  lemma AllocatedAddr(l: seq<Blk>, i: nat, size: nat)
    requires i < |l|
    ensures i < |Allocate(l, i, size)| && Allocate(l, i, size)[i].addr == l[i].addr
  {
  }

  lemma FreeStateKeeps(s: HeapState, ptr: nat)
    requires Shaped(s)
    ensures var s' := AfterFree(s, ptr);
      && Shaped(s') && s'.end == s.end && (Tight(s.list, s.end) ==> Tight(s'.list, s'.end)) && |s'.list| > 0
  {
    hide Layout, Tight, NoHeadRun, Live, Free;
    NotEmpty(s.list, s.end);
    var i := BlockAt(s.list, ptr, 0);
    if ptr != 0 && i < |s.list| && !s.list[i].free { FreeKeeps(s.list, i, s.end); }
    NotEmpty(AfterFree(s, ptr).list, s.end);
  }

  lemma MoveKeeps(s: HeapState, ptr: nat, size: nat)
    requires Shaped(s)
    ensures |s.list| > 0 && s.end <= HEAP_MAX && Keeps(s, AfterMove(s, ptr, size), size)
  {
    hide Layout, Tight, NoHeadRun, Live, AfterMalloc, AfterFree, NewBlock, NoFit, PagesFor, Room;
    MallocKeeps(s, size);
    FreeStateKeeps(AfterMalloc(s, size).state, ptr);
  }

  lemma ReallocKeeps(s: HeapState, ptr: nat, size: nat)
    requires Shaped(s) && (ptr == 0 || ptr in Ptrs(s.list))
    ensures |s.list| > 0 && s.end <= HEAP_MAX && Keeps(s, AfterRealloc(s, ptr, size), size)
  {
    hide Layout, Tight, NoHeadRun, Live, AfterMalloc, AfterFree, Split, Widen, AlignUp, Ptrs, NewBlock, AfterMove,
         NoFit, PagesFor, Room;
    NotEmpty(s.list, s.end);
    var i, n := BlockAt(s.list, ptr, 0), AlignUp(size);
    AlignUpIsAligned(size);
    if ptr == 0 {
      MallocKeeps(s, size);
    } else {
      HeldBlock(s, ptr);
      FreeStateKeeps(s, ptr);
      if size != 0 {
        if s.list[i].size >= n {
          ShrinkKeeps(s.list, i, n, s.end);
          NotEmpty(Split(s.list, i, n), s.end);
        } else if StaysByWidening(s.list, i, n) {
          WidenKeeps(s.list, i, n, s.end);
          NotEmpty(Widen(s.list, i, n), s.end);
        } else {
          MoveKeeps(s, ptr, n);
        }
      }
    }
  }

  /** A pointer a caller holds is the payload of exactly one allocated block. */
  lemma HeldBlock(s: HeapState, ptr: nat)
    requires Layout(s.list, s.end) && ptr in Ptrs(s.list)
    ensures var i := BlockAt(s.list, ptr, 0); i < |s.list| && s.list[i].Ptr() == ptr && !s.list[i].free
  {
    var b :| b in Live(s.list) && b.Ptr() == ptr;
    var k :| 0 <= k < |s.list| && s.list[k] == b;
    BlockIs(s.list, s.end, k);
  }

  lemma BlockIs(l: seq<Blk>, end: nat, k: nat)
    requires Layout(l, end) && k < |l|
    ensures BlockAt(l, l[k].Ptr(), 0) == k
  {
    LayoutOrdered(l, end);
    hide Layout;
    var i := BlockAt(l, l[k].Ptr(), 0);
    assert i <= k;
    if i < k { Earlier(l, i, k); }
  }

  lemma Earlier(l: seq<Blk>, i: nat, k: nat)
    requires Ordered(l) && i < k < |l|
    ensures l[i].Ptr() < l[k].Ptr()
  {
  }

  // ----- whole runs -----

  ghost predicate ProperRun(s: HeapState, calls: seq<Call>)
    requires Shaped(s)
    decreases |calls|
  {
    calls == [] ||
    (Proper(s, calls[0]) && (CallKeeps(s, calls[0]); ProperRun(AfterCall(s, calls[0]).state, calls[1..])))
  }

  ghost function AfterRun(s: HeapState, calls: seq<Call>): HeapState
    requires Shaped(s) && ProperRun(s, calls)
    decreases |calls|
  {
    if calls == [] then s else CallKeeps(s, calls[0]); AfterRun(AfterCall(s, calls[0]).state, calls[1..])
  }

  /** Some call of the run asked for memory and got none. */
  ghost predicate AnyRefused(s: HeapState, calls: seq<Call>)
    requires Shaped(s) && ProperRun(s, calls)
    decreases |calls|
  {
    calls != [] &&
    (CallKeeps(s, calls[0]); Refused(s, calls[0]) || AnyRefused(AfterCall(s, calls[0]).state, calls[1..]))
  }

  lemma CallKeeps(s: HeapState, c: Call)
    requires Shaped(s) && Proper(s, c)
    ensures |s.list| > 0 && s.end <= HEAP_MAX && Shaped(AfterCall(s, c).state)
    ensures Tight(s.list, s.end) && !Refused(s, c) ==> Tight(AfterCall(s, c).state.list, AfterCall(s, c).state.end)
  {
    hide Layout, Tight, NoHeadRun, Live, AfterMalloc, AfterFree, AfterRealloc, Ptrs, NewBlock, NoFit;
    NotEmpty(s.list, s.end);
    match c
    case Malloc(size, zero) => MallocKeeps(s, size);
    case Release(ptr) => FreeStateKeeps(s, ptr);
    case Realloc(ptr, size) => ReallocKeeps(s, ptr, size);
  }

  /** Any run of calls in which no request was refused leaves the heap without gaps, and once nothing is
      allocated any more, whatever the order of the frees, one free block over all it has mapped. */
  lemma {:induction false} EveryRun(s: HeapState, calls: seq<Call>)
    requires Shaped(s) && ProperRun(s, calls)
    ensures Shaped(AfterRun(s, calls))
    ensures Tight(s.list, s.end) && !AnyRefused(s, calls) ==>
      var s' := AfterRun(s, calls);
      Tight(s'.list, s'.end) && (Live(s'.list) == {} ==>
        s'.list == [Blk(HEAP_START, s'.end - HEAP_START - HEADER, true)])
    decreases |calls|
  {
    hide AfterCall, Shaped, Tight, Proper, Refused, Live;
    if calls == [] {
      if Tight(s.list, s.end) && Live(s.list) == {} { OneBlock(s); }
    } else {
      CallKeeps(s, calls[0]);
      EveryRun(AfterCall(s, calls[0]).state, calls[1..]);
    }
  }

  lemma OneBlock(s: HeapState)
    requires Shaped(s) && Tight(s.list, s.end) && Live(s.list) == {}
    ensures s.end >= HEAP_START + HEADER && s.list == [Blk(HEAP_START, s.end - HEAP_START - HEADER, true)]
  {
    assert s.list[0].Inside(s.end);
    AllFreeIsOneBlock(s.list, s.end);
  }

  // ----- allocations a run does not name -----

  predicate Mentions(c: Call, ptr: nat) { !c.Malloc? && c.ptr == ptr }

  /** The allocated blocks that a call does not name. */
  ghost function Unnamed(l: seq<Blk>, c: Call): set<Blk> {
    set b | b in Live(l) && !Mentions(c, b.Ptr())
  }

  /** The allocated blocks that no call of a run names. */
  ghost function Bystanders(l: seq<Blk>, calls: seq<Call>): set<Blk> {
    set b | b in Live(l) && forall c | c in calls :: !Mentions(c, b.Ptr())
  }

  lemma MallocAdds(s: HeapState, size: nat)
    requires Shaped(s)
    ensures |s.list| > 0 && s.end <= HEAP_MAX && Live(s.list) <= Live(AfterMalloc(s, size).state.list)
  {
    MallocKeeps(s, size);
    hide Live, AfterMalloc, Shaped, Keeps, NoFit, PagesFor, Room, AlignUp;
    var o := AfterMalloc(s, size);
    if o.ret != 0 {
      var b :| IsNew(s.list, o.state.list, b) && b.Ptr() == o.ret;
    }
  }

  lemma FreeLeaves(s: HeapState, ptr: nat)
    requires Shaped(s)
    ensures var i := BlockAt(s.list, ptr, 0);
      Live(s.list) - (if i < |s.list| then {s.list[i]} else {}) <= Live(AfterFree(s, ptr).list)
  {
    var i := BlockAt(s.list, ptr, 0);
    if ptr != 0 && i < |s.list| && !s.list[i].free { FreeKeeps(s.list, i, s.end); }
  }

  /** A call takes no allocation away but the one it names. */
  lemma OthersStay(s: HeapState, c: Call)
    requires Shaped(s) && Proper(s, c)
    ensures |s.list| > 0 && s.end <= HEAP_MAX && Unnamed(s.list, c) <= Live(AfterCall(s, c).state.list)
  {
    hide Layout, Tight, NoHeadRun, Live, AfterMalloc, AfterFree, Split, Widen, AlignUp, Ptrs, NewBlock, NoFit,
         PagesFor, Room;
    NotEmpty(s.list, s.end);
    match c
    case Malloc(size, zero) =>
      MallocAdds(s, size);
    case Release(ptr) =>
      FreeLeaves(s, ptr);
    case Realloc(ptr, size) =>
      if ptr == 0 {
        MallocAdds(s, size);
      } else {
        HeldBlock(s, ptr);
        FreeLeaves(s, ptr);
        if size != 0 { ReallocStays(s, ptr, AlignUp(size)) by { AlignUpIsAligned(size); } }
      }
  }

  lemma ReallocStays(s: HeapState, ptr: nat, n: nat)
    requires Shaped(s) && ptr != 0 && |s.list| > 0 && n % ALIGN == 0
    requires var i := BlockAt(s.list, ptr, 0); i < |s.list| && !s.list[i].free
    ensures var i := BlockAt(s.list, ptr, 0);
      && (s.list[i].size >= n ==> Live(s.list) - {s.list[i]} <= Live(Split(s.list, i, n)))
      && (s.list[i].size < n && StaysByWidening(s.list, i, n) ==>
        Live(s.list) - {s.list[i]} <= Live(Widen(s.list, i, n)))
      && Live(s.list) - {s.list[i]} <= Live(AfterMove(s, ptr, n).state.list)
  {
    hide Layout, Tight, NoHeadRun, Live, AfterMalloc, AfterFree, Split, Widen, OnlyAt, BlockAt, NewBlock, NoFit,
         PagesFor, Room;
    var i := BlockAt(s.list, ptr, 0);
    if s.list[i].size >= n {
      ShrinkKeeps(s.list, i, n, s.end);
    } else if StaysByWidening(s.list, i, n) {
      WidenKeeps(s.list, i, n, s.end);
    }
    MoveStays(s, ptr, n);
  }

  lemma MoveStays(s: HeapState, ptr: nat, n: nat)
    requires Shaped(s) && ptr != 0 && |s.list| > 0
    requires var i := BlockAt(s.list, ptr, 0); i < |s.list| && !s.list[i].free
    ensures Live(s.list) - {s.list[BlockAt(s.list, ptr, 0)]} <= Live(AfterMove(s, ptr, n).state.list)
  {
    var i := BlockAt(s.list, ptr, 0);
    var o := AfterMalloc(s, n);
    MallocAdds(s, n);
    MallocKeeps(s, n);
    FreeLeaves(o.state, ptr);
    assert s.list[i] in Live(s.list);
    hide AfterMalloc, AfterFree, NewBlock, NoFit, PagesFor, Room, Tight, NoHeadRun;
    var k :| 0 <= k < |o.state.list| && o.state.list[k] == s.list[i];
    BlockIs(o.state.list, o.state.end, k);
  }
}
