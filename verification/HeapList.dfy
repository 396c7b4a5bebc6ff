/** The kernel heap as a list of blocks in address order. */
module HeapList {
  import opened Machine

  const HEAP_START: nat := 0xFFFF_FFFF_C000_0000
  const HEAP_SIZE_MAX: nat := 512 * 1024 * 1024
  const HEAP_MAX: nat := HEAP_START + HEAP_SIZE_MAX
  const HEADER: nat := 48                     // sizeof(BlockHeader), aligned up
  const ALIGN: nat := 16
  const INIT_PAGES: nat := 4

  datatype Blk = Blk(addr: nat, size: nat, free: bool)
  {
    function End(): nat { addr + HEADER + size }
    function Ptr(): nat { addr + HEADER }
    predicate Aligned() { addr % ALIGN == 0 && size % ALIGN == 0 }
    predicate Inside(end: nat) { Aligned() && HEAP_START <= addr && End() <= end }
  }

  function AlignUp(n: nat): nat { (n + ALIGN - 1) / ALIGN * ALIGN }

  /** Blocks are in address order, 16-aligned, disjoint, and end inside the mapped range. */
  ghost predicate Layout(l: seq<Blk>, end: nat) {
    && |l| > 0 && l[0].addr == HEAP_START
    && (forall i :: 0 <= i < |l| ==> l[i].Inside(end))
    && Ordered(l)
  }

  ghost predicate Ordered(l: seq<Blk>) {
    forall i, j :: 0 <= i < j < |l| ==> l[i].End() <= l[j].addr
  }

  /** No gaps: headers and payloads together are exactly the mapped range. */
  ghost predicate Tight(l: seq<Blk>, end: nat) {
    && |l| > 0 && l[|l| - 1].End() == end
    && forall i :: 0 <= i < |l| - 1 ==> l[i].End() == l[i + 1].addr
  }

  /** A run of two or more free blocks never starts the list, so an allocated block precedes it. */
  predicate NoHeadRun(l: seq<Blk>) {
    !(|l| >= 2 && l[0].free && l[1].free)
  }

  ghost function Live(l: seq<Blk>): set<Blk> {
    set b | b in l && !b.free
  }

  function Bytes(l: seq<Blk>): nat {
    if l == [] then 0 else Bytes(l[..|l| - 1]) + HEADER + l[|l| - 1].size
  }

  /** Headers plus sizes sum to the mapped size. */
  lemma {:induction false} TightSum(l: seq<Blk>, end: nat)
    requires Tight(l, end) && l[0].addr == HEAP_START
    ensures HEAP_START + Bytes(l) == end
  {
    if |l| == 1 {
      assert l[..0] == [];
    } else {
      TightSum(l[..|l| - 1], l[|l| - 1].addr);
    }
  }

  /** Once nothing is allocated, the list is one free block over the whole mapped heap. */
  lemma AllFreeIsOneBlock(l: seq<Blk>, end: nat)
    requires Layout(l, end) && Tight(l, end) && NoHeadRun(l) && Live(l) == {}
    ensures l == [Blk(HEAP_START, end - HEAP_START - HEADER, true)]
  {
    assert forall i :: 0 <= i < |l| ==> (l[i].free || l[i] in Live(l));
  }

  // ----- splitting and merging -----

  predicate CanSplit(b: Blk, size: nat) { b.size >= size + HEADER + ALIGN }

  /** Room enough, and not room for another block besides. */
  predicate Snug(n: nat, size: nat) { size <= n < size + HEADER + ALIGN }

  function Split(l: seq<Blk>, i: nat, size: nat): seq<Blk>
    requires i < |l|
  {
    if CanSplit(l[i], size) then
      l[..i] + [l[i].(size := size), Blk(l[i].addr + HEADER + size, l[i].size - size - HEADER, true)] + l[i + 1..]
    else l
  }

  /** Block `i` takes in the block after it. */
  function Absorb(l: seq<Blk>, i: nat): seq<Blk>
    requires i + 1 < |l|
  {
    l[..i] + [l[i].(size := l[i].size + HEADER + l[i + 1].size)] + l[i + 2..]
  }

  function SetFree(l: seq<Blk>, i: nat, free: bool): seq<Blk>
    requires i < |l|
  {
    l[i := l[i].(free := free)]
  }

  /** `coalesce_forward`: block `i` takes in all the free blocks that follow it. */
  function Coalesce(l: seq<Blk>, i: nat): (r: seq<Blk>)
    requires i < |l|
    ensures i < |r| && r[..i] == l[..i] && r[i].addr == l[i].addr && r[i].free == l[i].free && r[i].size >= l[i].size
    ensures i + 1 < |r| ==> !r[i + 1].free
    decreases |l|
  {
    if i + 1 < |l| && l[i + 1].free then Coalesce(Absorb(l, i), i) else l
  }

  lemma SplitLayout(l: seq<Blk>, i: nat, size: nat, end: nat)
    requires Layout(l, end) && i < |l| && size % ALIGN == 0
    ensures Layout(Split(l, i, size), end)
  {
    var r := Split(l, i, size);
    if CanSplit(l[i], size) {
      hide Blk.Aligned;
      assert l[i].Inside(end);
      AlignedSplit(l[i], size);
      assert r == l[..i] + [r[i], r[i + 1]] + l[i + 1..];
      forall x | 0 <= x < |r| ensures r[x].Inside(end) {
        assert x < i ==> r[x] == l[x];
        assert x > i + 1 ==> r[x] == l[x - 1];
      }
      forall x, y | 0 <= x < y < |r| ensures r[x].End() <= r[y].addr { SplitOrder(l, i, size, x, y); }
    }
  }

  lemma AlignedSplit(b: Blk, size: nat)
    requires b.Aligned() && CanSplit(b, size) && size % ALIGN == 0
    ensures b.(size := size).Aligned()
    ensures Blk(b.addr + HEADER + size, b.size - size - HEADER, true).Aligned()
  {
  }

  lemma SplitOrder(l: seq<Blk>, i: nat, size: nat, x: nat, y: nat)
    requires Ordered(l) && i < |l| && CanSplit(l[i], size) && x < y < |Split(l, i, size)|
    ensures Split(l, i, size)[x].End() <= Split(l, i, size)[y].addr
  {
    var r := Split(l, i, size);
    assert x < i ==> r[x] == l[x];
    assert x > i + 1 ==> r[x] == l[x - 1];
    assert y < i ==> r[y] == l[y];
    assert y > i + 1 ==> r[y] == l[y - 1];
  }

  lemma AbsorbLayout(l: seq<Blk>, i: nat, end: nat)
    requires Layout(l, end) && i + 1 < |l|
    ensures Layout(Absorb(l, i), end)
  {
    hide Blk.Aligned;
    var r := Absorb(l, i);
    assert l[i].Inside(end) && l[i + 1].Inside(end) && l[i].End() <= l[i + 1].addr;
    AlignedSum(l[i], l[i + 1]);
    forall x | 0 <= x < |r| ensures r[x].Inside(end) {
      assert x < i ==> r[x] == l[x];
      assert x > i ==> r[x] == l[x + 1];
    }
    forall x, y | 0 <= x < y < |r| ensures r[x].End() <= r[y].addr { AbsorbOrder(l, i, x, y); }
  }

  lemma AbsorbOrder(l: seq<Blk>, i: nat, x: nat, y: nat)
    requires Ordered(l) && i + 1 < |l| && x < y < |Absorb(l, i)|
    ensures Absorb(l, i)[x].End() <= Absorb(l, i)[y].addr
  {
    var r := Absorb(l, i);
    assert l[i].End() <= l[i + 1].addr;
    assert x < i ==> r[x] == l[x];
    assert x > i ==> r[x] == l[x + 1];
    assert y < i ==> r[y] == l[y];
    assert y > i ==> r[y] == l[y + 1];
  }

  lemma SplitTight(l: seq<Blk>, i: nat, size: nat, end: nat)
    requires Tight(l, end) && i < |l|
    ensures Tight(Split(l, i, size), end)
  {
    var r := Split(l, i, size);
    if CanSplit(l[i], size) {
      forall x | 0 <= x < |r| - 1 ensures r[x].End() == r[x + 1].addr {
        if x < i { assert r[x] == l[x] && r[x + 1].addr == l[x + 1].addr; }
        if x == i + 1 { assert r[x + 1] == l[i + 1] && l[i].End() == l[i + 1].addr; }
        if x > i + 1 { assert r[x] == l[x - 1] && r[x + 1] == l[x]; }
      }
    }
  }

  lemma AbsorbTight(l: seq<Blk>, i: nat, end: nat)
    requires Tight(l, end) && i + 1 < |l|
    ensures Tight(Absorb(l, i), end)
  {
    var r := Absorb(l, i);
    forall x | 0 <= x < |r| - 1 ensures r[x].End() == r[x + 1].addr {
      if x < i { assert r[x] == l[x] && r[x + 1].addr == l[x + 1].addr; }
      if x == i { assert r[x + 1] == l[i + 2]; }
      if x > i { assert r[x] == l[x + 1] && r[x + 1] == l[x + 2]; }
    }
  }

  lemma AlignedSum(b: Blk, c: Blk)
    requires b.Aligned() && c.Aligned()
    ensures b.(size := b.size + HEADER + c.size).Aligned()
  {
  }

  lemma {:induction false} CoalesceLayout(l: seq<Blk>, i: nat, end: nat)
    requires Layout(l, end) && i < |l|
    ensures Layout(Coalesce(l, i), end)
    ensures Tight(l, end) ==> Tight(Coalesce(l, i), end)
    decreases |l|
  {
    if i + 1 < |l| && l[i + 1].free {
      AbsorbLayout(l, i, end);
      if Tight(l, end) { AbsorbTight(l, i, end); }
      CoalesceLayout(Absorb(l, i), i, end);
    }
  }

  // ----- what happens to the allocated blocks -----

  /** From `l` to `r`, the allocated blocks are the same apart from block `i`. */
  ghost predicate OnlyAt(l: seq<Blk>, r: seq<Blk>, i: nat) {
    && i < |l| && i < |r| && r[i].addr == l[i].addr
    && forall b: Blk :: !b.free ==> (b in r <==> (b in l && b != l[i]) || b == r[i])
  }

  lemma OnlyAtTrans(l: seq<Blk>, r: seq<Blk>, t: seq<Blk>, i: nat)
    requires OnlyAt(l, r, i) && OnlyAt(r, t, i) && Ordered(l)
    ensures OnlyAt(l, t, i)
  {
    forall b: Blk | !b.free && b in l && b != l[i] ensures b != r[i] {
      var j :| 0 <= j < |l| && l[j] == b;
    }
  }

  lemma SplitLive(l: seq<Blk>, i: nat, size: nat)
    requires Ordered(l) && i < |l|
    ensures OnlyAt(l, Split(l, i, size), i)
  {
    var r := Split(l, i, size);
    if CanSplit(l[i], size) {
      InParts(l[..i], [l[i]], l[i + 1..], l);
      InParts(l[..i], [r[i], r[i + 1]], l[i + 1..], r);
      Once(l, i);
    }
  }

  lemma AbsorbLive(l: seq<Blk>, i: nat)
    requires Ordered(l) && i + 1 < |l| && l[i + 1].free
    ensures OnlyAt(l, Absorb(l, i), i)
  {
    var r := Absorb(l, i);
    InParts(l[..i], [l[i], l[i + 1]], l[i + 2..], l);
    InParts(l[..i], [r[i]], l[i + 2..], r);
    Once(l, i);
    assert l[i + 1..] == [l[i + 1]] + l[i + 2..];
  }

  lemma SetFreeLive(l: seq<Blk>, i: nat, free: bool)
    requires Ordered(l) && i < |l|
    ensures OnlyAt(l, SetFree(l, i, free), i)
  {
    var r := SetFree(l, i, free);
    InParts(l[..i], [l[i]], l[i + 1..], l);
    InParts(l[..i], [r[i]], l[i + 1..], r);
    Once(l, i);
  }

  lemma InParts(a: seq<Blk>, b: seq<Blk>, c: seq<Blk>, l: seq<Blk>)
    requires l == a + b + c
    ensures forall x :: x in l <==> x in a || x in b || x in c
  {
  }

  /** A block occurs once in the list. */
  lemma Once(l: seq<Blk>, i: nat)
    requires Ordered(l) && i < |l|
    ensures l[i] !in l[..i] && l[i] !in l[i + 1..]
  {
  }

  lemma {:induction false} CoalesceLive(l: seq<Blk>, i: nat, end: nat)
    requires Layout(l, end) && i < |l|
    ensures OnlyAt(l, Coalesce(l, i), i)
    decreases |l|
  {
    if i + 1 < |l| && l[i + 1].free {
      AbsorbLayout(l, i, end);
      AbsorbLive(l, i);
      CoalesceLive(Absorb(l, i), i, end);
      OnlyAtTrans(l, Absorb(l, i), Coalesce(l, i), i);
    }
  }

  // ----- the operations of the heap, on the list -----

  /** `block_allocate` on free block `i`. */
  function Allocate(l: seq<Blk>, i: nat, size: nat): seq<Blk>
    requires i < |l|
  {
    SetFree(Split(l, i, size), i, false)
  }

  /** `kfree` of allocated block `i`. */
  function Free(l: seq<Blk>, i: nat): seq<Blk>
    requires i < |l|
  {
    var m := Coalesce(SetFree(l, i, true), i);
    if i > 0 && m[i - 1].free then Coalesce(m, i - 1) else m
  }

  /** `krealloc` growing block `i` over the free blocks after it. */
  function Widen(l: seq<Blk>, i: nat, size: nat): seq<Blk>
    requires i < |l|
  {
    Split(SetFree(Coalesce(l, i), i, false), i, size)
  }

  /** `heap_grow_for` after `grown` more bytes were mapped at `oldEnd`. */
  function Extend(l: seq<Blk>, oldEnd: nat, grown: nat): seq<Blk>
    requires |l| > 0 && grown >= HEADER
  {
    var last := l[|l| - 1];
    if last.free then l[|l| - 1 := last.(size := last.size + grown)] else l + [Blk(oldEnd, grown - HEADER, true)]
  }

  lemma SetFreeLayout(l: seq<Blk>, i: nat, free: bool, end: nat)
    requires Layout(l, end) && i < |l|
    ensures Layout(SetFree(l, i, free), end)
    ensures Tight(l, end) ==> Tight(SetFree(l, i, free), end)
  {
    hide Blk.Aligned;
    var r := SetFree(l, i, free);
    assert forall k :: 0 <= k < |l| ==> r[k].addr == l[k].addr && r[k].size == l[k].size;
    assert r[i].Aligned() by { assert l[i].Aligned(); SameAligned(l[i], free); }
  }

  lemma SameAligned(b: Blk, free: bool)
    requires b.Aligned()
    ensures b.(free := free).Aligned()
  {
  }

  lemma AllocateKeeps(l: seq<Blk>, i: nat, size: nat, end: nat)
    requires Layout(l, end) && NoHeadRun(l) && i < |l| && l[i].free && l[i].size >= size && size % ALIGN == 0
    ensures var r := Allocate(l, i, size);
      && Layout(r, end) && NoHeadRun(r) && (Tight(l, end) ==> Tight(r, end))
      && OnlyAt(l, r, i) && !r[i].free && Snug(r[i].size, size) && r[..i] == l[..i]
      && Live(r) == Live(l) + {r[i]} && r[i] !in Live(l)
  {
    hide Layout, Tight, Ordered;
    var m := Split(l, i, size);
    SplitLayout(l, i, size, end);
    if Tight(l, end) { SplitTight(l, i, size, end); }
    SetFreeLayout(m, i, false, end);
    LayoutOrdered(l, end); LayoutOrdered(m, end);
    SplitLive(l, i, size);
    SetFreeLive(m, i, false);
    OnlyAtTrans(l, m, Allocate(l, i, size), i);
    NewAtFree(l, i, Allocate(l, i, size)[i]);
  }

  lemma LayoutOrdered(l: seq<Blk>, end: nat)
    requires Layout(l, end)
    ensures Ordered(l)
  {
  }

  /** No allocated block sits at the address of a free one. */
  lemma NewAtFree(l: seq<Blk>, i: nat, b: Blk)
    requires Ordered(l) && i < |l| && l[i].free && b.addr == l[i].addr
    ensures b !in Live(l)
  {
  }

  lemma OnlyAtLive(l: seq<Blk>, r: seq<Blk>, i: nat)
    requires OnlyAt(l, r, i)
    ensures Live(r) == Live(l) - {l[i]} + (if r[i].free then {} else {r[i]})
  {
  }

  /** `kfree` keeps the layout and the head rule, and takes exactly its block from the allocated ones. */
  lemma FreeKeeps(l: seq<Blk>, i: nat, end: nat)
    requires Layout(l, end) && NoHeadRun(l) && i < |l| && !l[i].free
    ensures var r := Free(l, i);
      && Layout(r, end) && NoHeadRun(r) && (Tight(l, end) ==> Tight(r, end))
      && Live(r) == Live(l) - {l[i]}
  {
    hide Layout, Tight, Ordered, Coalesce, NoHeadRun, Live, OnlyAt;
    var f := SetFree(l, i, true);
    var m := Coalesce(f, i);
    SetFreeLayout(l, i, true, end);
    CoalesceLayout(f, i, end);
    LayoutOrdered(l, end); LayoutOrdered(f, end);
    SetFreeLive(l, i, true);
    CoalesceLive(f, i, end);
    OnlyAtTrans(l, f, m, i);
    OnlyAtLive(l, m, i);
    FreeHead(l, i);
    if i > 0 && m[i - 1].free {
      CoalesceLayout(m, i - 1, end);
      CoalesceLive(m, i - 1, end);
      OnlyAtLive(m, Coalesce(m, i - 1), i - 1);
      assert m[i - 1] !in Live(m) by { FreeIsNotLive(m, i - 1); }
    }
  }

  lemma FreeIsNotLive(l: seq<Blk>, i: nat)
    requires i < |l| && l[i].free
    ensures l[i] !in Live(l)
  {
  }

  lemma FreeHead(l: seq<Blk>, i: nat)
    requires NoHeadRun(l) && i < |l| && !l[i].free
    ensures NoHeadRun(Free(l, i))
  {
    hide Coalesce;
    var f := SetFree(l, i, true);
    var m := Coalesce(f, i);
    assert forall k :: 0 <= k < i ==> m[..i][k] == m[k] && f[..i][k] == f[k] == l[k];
    if i > 0 && m[i - 1].free {
      var r := Coalesce(m, i - 1);
      assert forall k :: 0 <= k < i - 1 ==> r[..i - 1][k] == r[k] && m[..i - 1][k] == m[k];
    }
  }

  /** `krealloc` in place: the block keeps its address, the other allocated blocks stay. */
  lemma ShrinkKeeps(l: seq<Blk>, i: nat, size: nat, end: nat)
    requires Layout(l, end) && NoHeadRun(l) && i < |l| && !l[i].free && l[i].size >= size && size % ALIGN == 0
    ensures var r := Split(l, i, size);
      && Layout(r, end) && NoHeadRun(r) && (Tight(l, end) ==> Tight(r, end))
      && OnlyAt(l, r, i) && !r[i].free && Snug(r[i].size, size)
      && Live(r) == Live(l) - {l[i]} + {r[i]}
  {
    hide Layout, Tight, Ordered, Live, OnlyAt;
    SplitLayout(l, i, size, end);
    if Tight(l, end) { SplitTight(l, i, size, end); }
    LayoutOrdered(l, end);
    SplitLive(l, i, size);
    OnlyAtLive(l, Split(l, i, size), i);
  }

  lemma WidenKeeps(l: seq<Blk>, i: nat, size: nat, end: nat)
    requires Layout(l, end) && NoHeadRun(l) && i + 1 < |l| && !l[i].free && l[i + 1].free && size % ALIGN == 0
    requires l[i].size + HEADER + l[i + 1].size >= size
    ensures var r := Widen(l, i, size);
      && Layout(r, end) && NoHeadRun(r) && (Tight(l, end) ==> Tight(r, end))
      && OnlyAt(l, r, i) && !r[i].free && Snug(r[i].size, size)
      && Live(r) == Live(l) - {l[i]} + {r[i]}
  {
    hide Layout, Tight, Ordered, Live, OnlyAt, Split;
    var m := Coalesce(l, i);
    assert m[i].size >= size by { assert m == Coalesce(Absorb(l, i), i); }
    CoalesceLayout(l, i, end);
    LayoutOrdered(l, end);
    CoalesceLive(l, i, end);
    WidenHead(l, i);
    assert SetFree(m, i, false) == m;
    ShrinkKeeps(m, i, size, end);
    OnlyAtTrans(l, m, Split(m, i, size), i);
    OnlyAtLive(l, Split(m, i, size), i);
  }

  lemma WidenHead(l: seq<Blk>, i: nat)
    requires NoHeadRun(l) && i < |l| && !l[i].free
    ensures NoHeadRun(Coalesce(l, i))
  {
    hide Coalesce;
    var m := Coalesce(l, i);
    assert forall k :: 0 <= k < i ==> m[..i][k] == m[k] && l[..i][k] == l[k];
  }

  /** Growing adds memory to the last block or a free block after it; the allocated blocks stay. */
  lemma ExtendKeeps(l: seq<Blk>, oldEnd: nat, grown: nat)
    requires Layout(l, oldEnd) && NoHeadRun(l) && grown % PAGE_SIZE == 0 && grown > 0 && oldEnd % PAGE_SIZE == 0
    ensures var r := Extend(l, oldEnd, grown);
      && Layout(r, oldEnd + grown) && NoHeadRun(r) && (Tight(l, oldEnd) ==> Tight(r, oldEnd + grown))
      && Live(r) == Live(l) && r[|r| - 1].free
  {
    ExtendLive(l, oldEnd, grown);
    hide Blk.Aligned, Live, Layout, Tight;
    assert |l| > 0 && l[|l| - 1].Inside(oldEnd) by { LastInside(l, oldEnd); }
    PageAligned(l[|l| - 1], oldEnd, grown);
    if l[|l| - 1].free { LastGrows(l, oldEnd, grown); } else { BlockAdded(l, oldEnd, grown); }
  }

  lemma LastInside(l: seq<Blk>, end: nat)
    requires Layout(l, end)
    ensures |l| > 0 && l[|l| - 1].Inside(end)
  {
  }

  lemma LastGrows(l: seq<Blk>, oldEnd: nat, grown: nat)
    requires Layout(l, oldEnd) && l[|l| - 1].(size := l[|l| - 1].size + grown).Aligned()
    ensures var last := l[|l| - 1]; var r := l[|l| - 1 := last.(size := last.size + grown)];
      Layout(r, oldEnd + grown) && (Tight(l, oldEnd) ==> Tight(r, oldEnd + grown))
  {
    hide Blk.Aligned;
    var last := l[|l| - 1];
    var r := l[|l| - 1 := last.(size := last.size + grown)];
    assert last.Inside(oldEnd);
    forall k | 0 <= k < |r| ensures r[k].Inside(oldEnd + grown) {
      if k < |l| - 1 {
        assert r[k] == l[k] && l[k].Inside(oldEnd);
      }
    }
    assert Ordered(r) by {
      forall i, j | 0 <= i < j < |r| ensures r[i].End() <= r[j].addr { assert r[i] == l[i] && r[j].addr == l[j].addr; }
    }
  }

  lemma BlockAdded(l: seq<Blk>, oldEnd: nat, grown: nat)
    requires Layout(l, oldEnd) && grown >= HEADER && Blk(oldEnd, grown - HEADER, true).Aligned()
    ensures var r := l + [Blk(oldEnd, grown - HEADER, true)];
      Layout(r, oldEnd + grown) && (Tight(l, oldEnd) ==> Tight(r, oldEnd + grown))
  {
    hide Blk.Aligned;
    var r := l + [Blk(oldEnd, grown - HEADER, true)];
    assert l[0].Inside(oldEnd);
    forall k | 0 <= k < |r| ensures r[k].Inside(oldEnd + grown) {
      if k < |l| {
        assert r[k] == l[k] && l[k].Inside(oldEnd);
      }
    }
    assert Ordered(r) by {
      forall i, j | 0 <= i < j < |r| ensures r[i].End() <= r[j].addr {
        assert r[i] == l[i] && l[i].Inside(oldEnd) && (j < |l| ==> r[j] == l[j]);
      }
    }
  }

  lemma PageAligned(b: Blk, oldEnd: nat, grown: nat)
    requires b.Aligned() && grown % PAGE_SIZE == 0 && oldEnd % PAGE_SIZE == 0 && grown >= HEADER
    ensures b.(size := b.size + grown).Aligned() && Blk(oldEnd, grown - HEADER, true).Aligned()
  {
    PageIsAligned(grown); PageIsAligned(oldEnd);
    AddAligned(b.size, grown);
    AddAligned(grown - HEADER, HEADER);
  }

  lemma PageIsAligned(n: nat)
    requires n % PAGE_SIZE == 0
    ensures n % ALIGN == 0
  {
    assert n == 16 * (256 * (n / 4096));
  }

  lemma AddAligned(x: nat, y: nat)
    requires y % ALIGN == 0
    ensures (x + y) % ALIGN == x % ALIGN
  {
  }

  lemma ExtendLive(l: seq<Blk>, oldEnd: nat, grown: nat)
    requires |l| > 0 && grown >= HEADER
    ensures Live(Extend(l, oldEnd, grown)) == Live(l)
  {
    var r := Extend(l, oldEnd, grown);
    if l[|l| - 1].free {
      InParts(l[..|l| - 1], [l[|l| - 1]], [], l);
      InParts(l[..|l| - 1], [r[|l| - 1]], [], r);
    } else {
      InParts(l, [r[|l|]], [], r);
    }
  }
}
