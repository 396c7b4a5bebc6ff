/** Bits of an unsigned word, counted from the least significant end. */
module Bits {
  import opened Machine

  function Pow2(n: nat): (r: nat)
    ensures r > 0
  {
    if n == 0 then 1 else 2 * Pow2(n - 1)
  }

  /** `(w >> i) & 1` */
  predicate Bit(w: nat, i: nat) {
    if i == 0 then w % 2 == 1 else Bit(w / 2, i - 1)
  }

  /** `w | (1 << i)` */
  function WithBit(w: nat, i: nat): nat {
    if i == 0 then w - w % 2 + 1 else 2 * WithBit(w / 2, i - 1) + w % 2
  }

  /** `w & ~(1 << i)` */
  function WithoutBit(w: nat, i: nat): nat {
    if i == 0 then w - w % 2 else 2 * WithoutBit(w / 2, i - 1) + w % 2
  }

  lemma {:induction false} WithBitBit(w: nat, i: nat, j: nat)
    ensures Bit(WithBit(w, i), j) <==> (i == j || Bit(w, j))
  {
    if i > 0 && j > 0 {
      WithBitBit(w / 2, i - 1, j - 1);
      assert WithBit(w, i) / 2 == WithBit(w / 2, i - 1);
    } else if i == 0 && j > 0 {
      assert WithBit(w, i) / 2 == w / 2;
    }
  }

  lemma {:induction false} WithoutBitBit(w: nat, i: nat, j: nat)
    ensures Bit(WithoutBit(w, i), j) <==> (i != j && Bit(w, j))
  {
    if i > 0 && j > 0 {
      WithoutBitBit(w / 2, i - 1, j - 1);
      assert WithoutBit(w, i) / 2 == WithoutBit(w / 2, i - 1);
    } else if i == 0 && j > 0 {
      assert WithoutBit(w, i) / 2 == w / 2;
    }
  }

  /** Setting or clearing a bit inside the word keeps the word's width. */
  lemma {:induction false} BitOpsKeepWidth(w: nat, i: nat, n: nat)
    requires i < n && w < Pow2(n)
    ensures WithBit(w, i) < Pow2(n) && WithoutBit(w, i) < Pow2(n)
  {
    if i > 0 {
      BitOpsKeepWidth(w / 2, i - 1, n - 1);
    } else if n > 1 {
      assert Pow2(n) == 2 * Pow2(n - 1);
    }
  }

  /** The word with all `n` low bits set is `2^n - 1`. */
  lemma {:induction false} OnesHaveEveryBit(n: nat, i: nat)
    requires i < n
    ensures Bit(Pow2(n) - 1, i)
  {
    if i > 0 {
      OnesHaveEveryBit(n - 1, i - 1);
      assert (Pow2(n) - 1) / 2 == Pow2(n - 1) - 1;
    }
  }

  lemma Pow2Of64()
    ensures Pow2(64) == U64_MAX + 1
  {
    assert Pow2(8) == 0x100;
    assert Pow2(16) == 0x1_0000;
    assert Pow2(24) == 0x100_0000;
    assert Pow2(32) == 0x1_0000_0000;
    assert Pow2(40) == 0x100_0000_0000;
    assert Pow2(48) == 0x1_0000_0000_0000;
    assert Pow2(56) == 0x100_0000_0000_0000;
  }
}

/** The page bitmap as a value: page `p` is bit `p % 64` of word `p / 64`. */
module Bitmaps {
  import opened Machine
  import opened Bits

  predicate Test(bm: seq<u64>, p: nat)
    requires p / 64 < |bm|
  {
    Bit(bm[p / 64], p % 64)
  }

  ghost function FreePages(bm: seq<u64>, total: nat): (free: set<nat>)
    requires total <= 64 * |bm|
  {
    set p | 0 <= p < total && !Test(bm, p)
  }

  function SetWord(w: u64, i: nat): (r: u64)
    requires i < 64
    ensures forall j: nat :: Bit(r, j) <==> (i == j || Bit(w, j))
  {
    Pow2Of64(); BitOpsKeepWidth(w, i, 64);
    assert forall j: nat :: Bit(WithBit(w, i), j) <==> (i == j || Bit(w, j)) by {
      forall j: nat { WithBitBit(w, i, j); }
    }
    WithBit(w, i)
  }

  function ClearWord(w: u64, i: nat): (r: u64)
    requires i < 64
    ensures forall j: nat :: Bit(r, j) <==> (i != j && Bit(w, j))
  {
    Pow2Of64(); BitOpsKeepWidth(w, i, 64);
    assert forall j: nat :: Bit(WithoutBit(w, i), j) <==> (i != j && Bit(w, j)) by {
      forall j: nat { WithoutBitBit(w, i, j); }
    }
    WithoutBit(w, i)
  }

  lemma FullWord(i: nat)
    requires i < 64
    ensures Bit(U64_MAX, i)
  {
    Pow2Of64(); OnesHaveEveryBit(64, i);
  }

  ghost predicate IsRun(free: set<nat>, start: nat, count: nat) {
    forall p :: start <= p < start + count ==> p in free
  }

  ghost function WithoutRun(free: set<nat>, start: nat, count: nat): set<nat> {
    set p | p in free && !(start <= p < start + count)
  }

  lemma TakeFromRun(free: set<nat>, start: nat, i: nat)
    requires start + i in free
    ensures start + i in WithoutRun(free, start, i)
    ensures WithoutRun(free, start, i + 1) == WithoutRun(free, start, i) - {start + i}
  {
  }

  lemma {:induction false} RunSize(free: set<nat>, start: nat, count: nat)
    requires IsRun(free, start, count)
    ensures |free| >= count
  {
    if count > 0 {
      RunSize(free - {start}, start + 1, count - 1);
    }
  }
}

/** The physical page allocator: one bit per page, set when the page is taken. */
module PhysicalPages {
  import opened Machine
  import opened Bitmaps
  import opened Bits

  /** A memory map entry; only `usable` ones hold allocatable pages. */
  datatype Region = Region(base: u64, length: u64, usable: bool)
  {
    function Top(): nat { base + length }
    function StartPage(): nat { (base + PAGE_SIZE - 1) / PAGE_SIZE }
    function EndPage(): nat { Top() / PAGE_SIZE }
    predicate Holds(p: nat) { usable && StartPage() <= p < EndPage() }
  }

  /** What the boot loader promises: no wrap-around, and usable regions do not overlap. */
  ghost predicate GoodMap(regions: seq<Region>) {
    && (forall i :: 0 <= i < |regions| ==> regions[i].Top() <= U64_MAX - PAGE_SIZE)
    && (forall i, j :: 0 <= i < j < |regions| && regions[i].usable && regions[j].usable ==>
          regions[i].Top() <= regions[j].base || regions[j].Top() <= regions[i].base)
  }

  ghost predicate UsablePage(regions: seq<Region>, p: nat) {
    exists i :: 0 <= i < |regions| && regions[i].Holds(p)
  }

  ghost predicate IsHighest(regions: seq<Region>, h: nat) {
    && (forall i :: 0 <= i < |regions| ==> regions[i].Top() <= h)
    && (h == 0 || exists i :: 0 <= i < |regions| && regions[i].Top() == h)
  }

  function PageAlignUp(x: nat): nat { (x + PAGE_SIZE - 1) / PAGE_SIZE * PAGE_SIZE }
  function BitmapBytes(pages: nat): nat { (pages + 63) / 64 * 8 }
  function BitmapPages(pages: nat): nat { (BitmapBytes(pages) + PAGE_SIZE - 1) / PAGE_SIZE }

  predicate Fits(r: Region, size: nat) {
    r.usable && r.length >= size && PageAlignUp(r.base) + size <= r.Top()
  }

  /** `addr` is the aligned start of the first region with room for `size` bytes, or 0. */
  ghost predicate IsBitmapHome(regions: seq<Region>, size: nat, addr: nat) {
    || (addr == 0 && forall i :: 0 <= i < |regions| ==> !Fits(regions[i], size))
    || (exists i :: 0 <= i < |regions| && Fits(regions[i], size) && addr == PageAlignUp(regions[i].base)
          && forall j :: 0 <= j < i ==> !Fits(regions[j], size))
  }

  class Pmm {
    const bitmap: array<u64>
    const totalPages: nat
    var freePages: nat
    /** The pages whose bit is clear. */
    ghost var free: set<nat>

    /** The bitmap, the counter and the abstract set agree. */
    ghost predicate Counted()
      reads this, bitmap
    {
      Tracks() && freePages == |free| && forall p :: p in free ==> p < totalPages
    }

    /** The abstract set is the set of pages whose bit is clear. */
    ghost predicate Tracks()
      reads this, bitmap
    {
      64 * bitmap.Length >= totalPages && free == FreePages(bitmap[..], totalPages)
    }

    ghost predicate Valid()
      reads this, bitmap
    {
      Counted() && 0 !in free
    }

    constructor AllTaken(total: nat)
      ensures Valid() && fresh(bitmap) && free == {} && totalPages == total && bitmap.Length == (total + 63) / 64
    {
      totalPages := total;
      freePages := 0;
      free := {};
      bitmap := new u64[(total + 63) / 64](_ => U64_MAX);
      new;
      forall p | 0 <= p < total ensures Test(bitmap[..], p) { FullWord(p % 64); }
      assert FreePages(bitmap[..], total) == {};
    }

    /** `pmm_bitmap_set` on a free page, with the counter. */
    method Take(p: nat)
      requires Counted() && p in free
      modifies this, bitmap
      ensures Counted() && free == old(free) - {p}
    {
      bitmap[p / 64] := SetWord(bitmap[p / 64], p % 64);
      freePages := freePages - 1;
      free := free - {p};
      assert forall q | 0 <= q < totalPages :: Test(bitmap[..], q) <==> (q == p || old(Test(bitmap[..], q)));
    }

    /** `pmm_bitmap_clear` on a taken page, with the counter. */
    method Release(p: nat)
      requires Counted() && p < totalPages && p !in free
      modifies this, bitmap
      ensures Counted() && free == old(free) + {p}
    {
      bitmap[p / 64] := ClearWord(bitmap[p / 64], p % 64);
      freePages := freePages + 1;
      free := free + {p};
      assert forall q | 0 <= q < totalPages :: Test(bitmap[..], q) <==> (q != p && old(Test(bitmap[..], q)));
    }

    /** One turn of the third pass of `pmm_init`: every page of a usable region becomes free. */
    method FreeRegion(r: Region)
      requires r.usable && Counted() && r.EndPage() <= totalPages
      requires forall p :: p in free ==> !r.Holds(p)
      modifies this, bitmap
      ensures Counted()
      ensures forall p :: p in free <==> p in old(free) || r.Holds(p)
    {
      hide Tracks;
      var p, end := r.StartPage(), r.EndPage();
      ghost var before := free;
      while p < end
        invariant Counted() && r.StartPage() <= p
        invariant forall q :: q in free <==> q in before || (r.Holds(q) && q < p)
      {
        assert r.Holds(p) && p !in free;
        Release(p);
        p := p + 1;
      }
    }

    method FreeUsable(regions: seq<Region>)
      requires GoodMap(regions) && Counted() && free == {}
      requires forall i :: 0 <= i < |regions| ==> regions[i].EndPage() <= totalPages
      modifies this, bitmap
      ensures Counted()
      ensures forall p :: p in free <==> UsablePage(regions, p)
    {
      hide Tracks;
      for i := 0 to |regions|
        invariant Counted()
        invariant forall p :: p in free <==> UsablePage(regions[..i], p)
      {
        UsableStep(regions, i);
        if regions[i].usable { FreeRegion(regions[i]); }
      }
      assert regions[..|regions|] == regions;
    }

    /** The end of `pmm_init`: page 0 and the pages under the bitmap are taken back. */
    method ReserveBitmap(home: nat)
      requires Counted()
      modifies this, bitmap
      ensures Valid()
      ensures forall p :: p in free <==>
        p in old(free) && p != 0 && !(home / PAGE_SIZE <= p < home / PAGE_SIZE + BitmapPages(totalPages))
    {
      hide Pmm.Tracks, BitmapPages;
      if totalPages > 0 {
        var taken := IsTaken(0);
        if !taken { Take(0); }
      }
      var start := home / PAGE_SIZE;
      var p := 0;
      while p < BitmapPages(totalPages)
        invariant 0 <= p <= BitmapPages(totalPages) && Valid()
        invariant forall q :: q in free <==> q in old(free) && q != 0 && !(start <= q < start + p)
      {
        var page := start + p;
        if page < totalPages {
          var taken := IsTaken(page);
          if !taken { Take(page); }
        }
        p := p + 1;
      }
    }

    /** `pmm_bitmap_test` */
    method IsTaken(p: nat) returns (taken: bool)
      requires Counted() && p < totalPages
      ensures taken <==> p !in free
    {
      taken := Bit(bitmap[p / 64], p % 64);
      assert taken == Test(bitmap[..], p);
    }

    /** The lowest free page, or `totalPages`. */
    method FindFirstFree() returns (page: nat)
      requires Valid()
      ensures page <= totalPages
      ensures forall p :: p in free ==> page <= p
      ensures page < totalPages ==> page in free
    {
      var qwords := bitmap.Length;
      var q := 0;
      while q < qwords
        invariant 0 <= q <= qwords
        invariant forall p :: p in free ==> 64 * q <= p
      {
        if bitmap[q] != U64_MAX {
          var b := 0;
          while b < 64
            invariant 0 <= b <= 64
            invariant forall p :: p in free ==> 64 * q + b <= p
          {
            page := 64 * q + b;
            if page >= totalPages { return totalPages; }
            assert page / 64 == q && page % 64 == b;
            if !Bit(bitmap[q], b) { return; }
            b := b + 1;
          }
        } else {
          forall p | p in free ensures 64 * (q + 1) <= p { FullWord(p % 64); }
        }
        q := q + 1;
      }
      page := totalPages;
    }

    /** The start of the lowest run of `count` free pages, or `totalPages`. */
    method FindContiguous(count: nat) returns (start: nat)
      requires Valid() && count > 0
      ensures start <= totalPages
      ensures start < totalPages ==> IsRun(free, start, count)
      ensures forall s: nat :: s < start ==> !IsRun(free, s, count)
      ensures start == totalPages ==> forall s: nat :: !IsRun(free, s, count)
    {
      var runStart, runLength := 0, 0;
      var i := 0;
      while i < totalPages
        invariant 0 <= i <= totalPages && runLength < count
        invariant runLength > 0 ==> runStart + runLength == i
        invariant IsRun(free, i - runLength, runLength) && runLength <= i
        invariant forall s: nat :: s < i - runLength ==> !IsRun(free, s, count)
      {
        if !Bit(bitmap[i / 64], i % 64) {
          assert !Test(bitmap[..], i);
          if runLength == 0 { runStart := i; }
          runLength := runLength + 1;
          if runLength >= count { return runStart; }
        } else {
          assert Test(bitmap[..], i) && i !in free;
          runLength := 0;
        }
        i := i + 1;
      }
      start := totalPages;
      forall s: nat ensures !IsRun(free, s, count) {
        assert IsRun(free, s, count) ==> s + count - 1 in free;
      }
    }

    /** `pmm_alloc_page`: the lowest free page, 0 exactly when there is none. */
    method AllocPage() returns (addr: nat)
      requires Valid()
      modifies this, bitmap
      ensures Valid()
      ensures addr == 0 <==> old(free) == {}
      ensures addr % PAGE_SIZE == 0 && addr / PAGE_SIZE < Max(totalPages, 1)
      ensures addr != 0 ==> addr / PAGE_SIZE in old(free) && forall p :: p in old(free) ==> addr / PAGE_SIZE <= p
      ensures free == if addr == 0 then old(free) else old(free) - {addr / PAGE_SIZE}
    {
      hide Tracks;
      addr := 0;
      if freePages == 0 { return; }
      var page := FindFirstFree();
      if page < totalPages {
        Take(page);
        addr := page * PAGE_SIZE;
      }
    }

    /** `pmm_free_page`: page 0, pages out of range and free pages are left alone. */
    method FreePage(addr: nat)
      requires Valid()
      modifies this, bitmap
      ensures Valid()
      ensures free == if 0 < addr / PAGE_SIZE < totalPages then old(free) + {addr / PAGE_SIZE} else old(free)
    {
      var page := addr / PAGE_SIZE;
      if page == 0 || page >= totalPages { return; }
      if Bit(bitmap[page / 64], page % 64) {
        assert Test(bitmap[..], page);
        Release(page);
      } else {
        assert !Test(bitmap[..], page);
      }
    }

    /** `pmm_alloc_contiguous`: the lowest run, 0 exactly when no run of that length exists. */
    method AllocContiguous(count: nat) returns (addr: nat)
      requires Valid()
      modifies this, bitmap
      ensures Valid()
      ensures addr % PAGE_SIZE == 0
      ensures addr == 0 <==> count == 0 || forall s: nat :: !IsRun(old(free), s, count)
      ensures addr == 0 ==> free == old(free)
      ensures addr != 0 ==>
        var s := addr / PAGE_SIZE;
        && IsRun(old(free), s, count)
        && (forall t: nat :: t < s ==> !IsRun(old(free), t, count))
        && free == WithoutRun(old(free), s, count)
    {
      hide Tracks;
      if count == 0 { return 0; }
      if freePages < count {
        forall s: nat ensures !IsRun(free, s, count) {
          if IsRun(free, s, count) { RunSize(free, s, count); }
        }
        return 0;
      }
      var start := FindContiguous(count);
      if start >= totalPages { return 0; }
      assert start in free;
      ghost var before := free;
      var i := 0;
      while i < count
        invariant 0 <= i <= count && Valid() && IsRun(before, start, count)
        invariant free == WithoutRun(before, start, i)
      {
        TakeFromRun(before, start, i);
        Take(start + i);
        i := i + 1;
      }
      addr := start * PAGE_SIZE;
    }
  }

  /** Two usable regions never hold the same page. */
  lemma OneRegionPerPage(regions: seq<Region>, i: nat, j: nat, p: nat)
    requires GoodMap(regions) && i < j < |regions|
    ensures !(regions[i].Holds(p) && regions[j].Holds(p))
  {
    if regions[i].Holds(p) && regions[j].Holds(p) {
      PageInside(regions[i], p); PageInside(regions[j], p);
    }
  }

  lemma UsableStep(regions: seq<Region>, i: nat)
    requires GoodMap(regions) && i < |regions|
    ensures forall p :: UsablePage(regions[..i], p) ==> !regions[i].Holds(p)
    ensures forall p :: UsablePage(regions[..i + 1], p) <==> UsablePage(regions[..i], p) || regions[i].Holds(p)
  {
    forall p | UsablePage(regions[..i], p) ensures !regions[i].Holds(p) {
      var k :| 0 <= k < i && regions[..i][k].Holds(p);
      OneRegionPerPage(regions, k, i, p);
    }
    forall p ensures UsablePage(regions[..i + 1], p) <==> UsablePage(regions[..i], p) || regions[i].Holds(p) {
      assert regions[..i + 1][i] == regions[i];
      assert forall k :: 0 <= k < i ==> regions[..i + 1][k] == regions[..i][k];
    }
  }

  /** A usable region holds a page exactly when all of the page's bytes are in it. */
  lemma PageInside(r: Region, p: nat)
    ensures r.Holds(p) <==> r.usable && r.base <= p * PAGE_SIZE && (p + 1) * PAGE_SIZE <= r.base + r.length
  {
  }

  /** Every byte of the page is usable memory. */
  ghost predicate WholePageUsable(regions: seq<Region>, p: nat) {
    exists i :: 0 <= i < |regions| && regions[i].usable
      && regions[i].base <= p * 4096 && (p + 1) * 4096 <= regions[i].base + regions[i].length
  }

  /** Some of the `n` bytes from `home` on are in the page. */
  predicate Touches(home: nat, n: nat, p: nat) { n > 0 && p * 4096 < home + n && home < (p + 1) * 4096 }

  lemma UsableIs(regions: seq<Region>, p: nat)
    ensures UsablePage(regions, p) <==> WholePageUsable(regions, p)
  {
    forall i | 0 <= i < |regions|
      ensures regions[i].Holds(p) <==>
        regions[i].usable && regions[i].base <= p * 4096 && (p + 1) * 4096 <= regions[i].base + regions[i].length
    {
      PageInside(regions[i], p);
    }
  }

  lemma UnderBitmap(home: nat, words: nat, p: nat)
    requires home % PAGE_SIZE == 0
    ensures Touches(home, 8 * words, p) <==>
      home / PAGE_SIZE <= p < home / PAGE_SIZE + (8 * words + PAGE_SIZE - 1) / PAGE_SIZE
  {
  }

  /** The bitmap has a bit for every page, eight bytes a word and no word too many. */
  lemma BitmapSize(total: nat)
    ensures var words := (total + 63) / 64; BitmapBytes(total) == 8 * words && total <= 64 * words < total + 64
  {
  }

  /** The bitmap's bytes lie in usable memory, from the start of a page. */
  ghost predicate RoomAt(regions: seq<Region>, home: nat, n: nat) {
    && home % 4096 == 0
    && exists i :: 0 <= i < |regions| && regions[i].usable && regions[i].base <= home
         && home + n <= regions[i].base + regions[i].length
  }

  lemma AlignsUp(x: nat)
    ensures PageAlignUp(x) % 4096 == 0 && x <= PageAlignUp(x) < x + 4096
  {
  }

  lemma HomeHasRoom(regions: seq<Region>, size: nat, home: nat)
    requires IsBitmapHome(regions, size, home) && home != 0
    ensures RoomAt(regions, home, size)
  {
    var i :| 0 <= i < |regions| && Fits(regions[i], size) && home == PageAlignUp(regions[i].base);
    AlignsUp(regions[i].base);
  }

  lemma BootPages(regions: seq<Region>, total: nat, home: nat, p: nat)
    requires home % PAGE_SIZE == 0
    ensures FreeAtBoot(regions, total, home, p) <==>
      p != 0 && WholePageUsable(regions, p) && !Touches(home, 8 * ((total + 63) / 64), p)
  {
    UsableIs(regions, p);
    BitmapSize(total);
    UnderBitmap(home, (total + 63) / 64, p);
  }

  /** The pages free after boot: usable, not page 0 and not under the bitmap itself. */
  ghost predicate FreeAtBoot(regions: seq<Region>, total: nat, home: nat, p: nat) {
    UsablePage(regions, p) && p != 0 && !(home / PAGE_SIZE <= p < home / PAGE_SIZE + BitmapPages(total))
  }

  method HighestAddress(regions: seq<Region>) returns (h: nat)
    ensures IsHighest(regions, h)
  {
    h := 0;
    for i := 0 to |regions|
      invariant IsHighest(regions[..i], h)
    {
      assert regions[..i + 1] == regions[..i] + [regions[i]];
      if regions[i].Top() > h { h := regions[i].Top(); }
    }
    assert regions[..|regions|] == regions;
  }

  method FindBitmapRegion(regions: seq<Region>, size: nat) returns (addr: nat)
    ensures IsBitmapHome(regions, size, addr)
  {
    for i := 0 to |regions|
      invariant forall j :: 0 <= j < i ==> !Fits(regions[j], size)
    {
      if Fits(regions[i], size) { return PageAlignUp(regions[i].base); }
    }
    addr := 0;
  }

  ghost predicate IsFirstFit(regions: seq<Region>, size: nat, i: nat) {
    i < |regions| && Fits(regions[i], size) && forall j :: 0 <= j < i ==> !Fits(regions[j], size)
  }

  lemma OneFirstFit(regions: seq<Region>, size: nat, i: nat, j: nat)
    requires IsFirstFit(regions, size, i) && IsFirstFit(regions, size, j)
    ensures i == j
  {
  }

  /** The search answers 0 both when nothing fits and when the first fit starts at address 0. */
  lemma HomeIsZero(regions: seq<Region>, size: nat, addr: nat)
    requires IsBitmapHome(regions, size, addr)
    ensures addr == 0 <==> !exists i: nat :: IsFirstFit(regions, size, i) && regions[i].base != 0
  {
    forall b: nat ensures PageAlignUp(b) == 0 <==> b == 0 {}
    if i: nat :| IsFirstFit(regions, size, i) {
      forall j: nat | IsFirstFit(regions, size, j) ensures j == i { OneFirstFit(regions, size, i, j); }
      assert addr == PageAlignUp(regions[i].base);
    }
  }

  /** Room enough is not enough: with one usable region, of 256 MiB from address 0, start-up still panics. */
  lemma RoomAtZeroIsNotUsed(addr: nat)
    requires IsBitmapHome([Region(0, 0x1000_0000, true)], BitmapBytes(0x1_0000), addr)
    ensures GoodMap([Region(0, 0x1000_0000, true)]) && IsHighest([Region(0, 0x1000_0000, true)], 0x1000_0000)
    ensures Fits(Region(0, 0x1000_0000, true), BitmapBytes(0x1_0000)) && addr == 0
  {
    var regions := [Region(0, 0x1000_0000, true)];
    assert regions[0].Top() == 0x1000_0000;
    HomeIsZero(regions, BitmapBytes(0x1_0000), addr);
  }

  /** `pmm_init`; `None` is the kernel panic: no usable region can hold the bitmap, or the first that can
      starts at address 0. */
  method Init(regions: seq<Region>) returns (r: Option<Pmm>, ghost total: nat, ghost home: nat)
    requires GoodMap(regions)
    ensures exists h: nat :: IsHighest(regions, h) && total == h / PAGE_SIZE
    ensures IsBitmapHome(regions, BitmapBytes(total), home)
    ensures r.None? <==> home == 0
    ensures r.None? <==> !exists i: nat :: IsFirstFit(regions, BitmapBytes(total), i) && regions[i].base != 0
    ensures r.Some? ==> r.value.Valid() && r.value.totalPages == total
    ensures r.Some? ==> forall p :: p in r.value.free <==> FreeAtBoot(regions, total, home, p)
    ensures r.Some? ==> total <= 64 * r.value.bitmap.Length < total + 64
    ensures r.Some? ==> RoomAt(regions, home, 8 * r.value.bitmap.Length)
    ensures r.Some? ==> forall p :: p in r.value.free <==>
      p != 0 && WholePageUsable(regions, p) && !Touches(home, 8 * r.value.bitmap.Length, p)
  {
    hide Pmm.Tracks;
    var highest := HighestAddress(regions);
    var pages := highest / PAGE_SIZE;
    total := pages;
    var bitmapPhys := FindBitmapRegion(regions, BitmapBytes(pages));
    home := bitmapPhys;
    HomeIsZero(regions, BitmapBytes(total), home);
    if bitmapPhys == 0 { return None, total, home; }

    var pmm := new Pmm.AllTaken(pages);
    pmm.FreeUsable(regions);
    pmm.ReserveBitmap(bitmapPhys);
    r := Some(pmm);
    BitmapSize(total);
    HomeHasRoom(regions, BitmapBytes(total), home);
    forall p: nat
      ensures FreeAtBoot(regions, total, home, p) <==>
        p != 0 && WholePageUsable(regions, p) && !Touches(home, 8 * pmm.bitmap.Length, p)
    {
      BootPages(regions, total, home, p);
    }
  }
}
