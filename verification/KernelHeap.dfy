/** `kmalloc`, `kfree` and `krealloc` over the bytes of the heap. */
module KernelHeap {
  import opened Machine
  import opened Packing
  import opened HeapList
  import opened HeapHeaders
  import opened HeapBytes
  import opened HeapSpec
  import opened HeapEffects

  const POISON: u8 := 0xCC

  /** Part-way through `coalesce_forward`: `l0` has become `l`, `m0` has become `m`. */
  ghost predicate Coalescing(l0: seq<Blk>, l: seq<Blk>, i: nat, m0: seq<u8>, m: seq<u8>) {
    && OnlyAt(l0, l, i) && l[i].size >= l0[i].size && Coalesce(l, i) == Coalesce(l0, i)
    && SameOn(Live(l0) + {l0[i]}, m0, m)
  }

  ghost predicate AllBytes(m: seq<u8>, addr: nat, n: nat, v: u8) {
    Inside(m, addr, n) && forall o: nat | addr <= HEAP_START + o < addr + n :: m[o] == v
  }

  class Heap {
    /** The bytes of the heap's address range, headers included; the mapped part is below `end`. */
    const mem: array<u8>
    var end: nat
    /** Pages the page allocator can still give. */
    var supply: nat
    /** The headers that memory holds, and the list they spell. */
    ghost var hdr: Headers
    ghost var list: seq<Blk>

    ghost function State(): HeapState
      reads this
    {
      HeapState(list, end, supply)
    }

    /** Memory holds the headers of the list. */
    ghost predicate Linked()
      reads this, mem
    {
      && mem.Length == HEAP_SIZE_MAX && end <= HEAP_MAX
      && Layout(list, end) && Repr(hdr, list) && Stored(mem[..], hdr)
    }

    ghost predicate Valid()
      reads this, mem
    {
      Linked() && Shaped(State())
    }

    /** `kmalloc_init`, given the four initial pages. */
    constructor (bytes: array<u8>, supply: nat)
      requires bytes.Length == HEAP_SIZE_MAX
      modifies bytes
      ensures Valid() && mem == bytes && Tight(list, end) && Live(list) == {} && this.supply == supply
    {
      mem := bytes;
      end := HEAP_START + INIT_PAGES * PAGE_SIZE;
      this.supply := supply;
      hdr := map[];
      list := [Blk(HEAP_START, INIT_PAGES * PAGE_SIZE - HEADER, true)];
      new;
      assert list[0].Aligned();
      NewHeader(HEAP_START, INIT_PAGES * PAGE_SIZE - HEADER, 0, 0);
      assert HeaderOk(hdr, list, 0);
    }

    // ----- fields of headers in memory -----

    /** Stores a little-endian word. */
    method Write(addr: nat, n: nat, x: nat)
      requires mem.Length == HEAP_SIZE_MAX && Inside(mem[..], addr, n) && x < Power256(n)
      modifies mem
      ensures Word(mem[..], addr, n) == x && SameOutside(addr, addr + n, old(mem[..]), mem[..])
    {
      var bytes := ToBytes(x, n);
      forall k | 0 <= k < n { mem[addr - HEAP_START + k] := bytes[k]; }
      assert Slice(mem[..], addr, n) == bytes;
      WordRoundTrip(x, n);
    }

    /** Reads a word of a header. */
    method Read(addr: nat, n: nat) returns (x: nat)
      requires mem.Length == HEAP_SIZE_MAX && Inside(mem[..], addr, n)
      ensures x == Word(mem[..], addr, n)
    {
      x := FromBytes(mem[addr - HEAP_START..addr - HEAP_START + n]);
      assert mem[addr - HEAP_START..addr - HEAP_START + n] == Slice(mem[..], addr, n);
    }

    /** Reads the header at `a`; the canary that the callers test is intact. */
    method Load(a: nat) returns (h: Header)
      requires mem.Length == HEAP_SIZE_MAX && a in hdr && Stored(mem[..], hdr)
      ensures h == hdr[a]
    {
      hide Word;
      assert StoredAt(mem[..], hdr, a);
      var magic := Read(a, 8);
      assert magic == BLOCK_MAGIC;
      var size := Read(a + 8, 8);
      var free := Read(a + 16, 4);
      var next := Read(a + 24, 8);
      var prev := Read(a + 32, 8);
      h := Header(size, free != 0, next, prev);
    }

    /** The headers in memory may be written one at a time without touching each other. */
    ghost predicate Writable()
      reads this, mem
    {
      mem.Length == HEAP_SIZE_MAX && Stored(mem[..], hdr) && Spaced(hdr.Keys)
    }

    method SetSize(a: nat, x: nat)
      requires Writable() && a in hdr && x <= U64_MAX
      modifies mem, this`hdr
      ensures Writable() && hdr == old(hdr)[a := old(hdr)[a].(size := x)]
        && SameOutside(a, a + HEADER, old(mem[..]), mem[..])
    {
      hide Decode, Word, SameOutside, Power256;
      Power8();
      ghost var m0, h0 := mem[..], hdr;
      assert StoredAt(m0, hdr, a);
      Write(a + 8, 8, x);
      SizeWritten(m0, mem[..], a, x);
      hdr := hdr[a := hdr[a].(size := x)];
      Rewritten(m0, mem[..], h0, hdr, a);
    }

    method SetFlag(a: nat, free: bool)
      requires Writable() && a in hdr
      modifies mem, this`hdr
      ensures Writable() && hdr == old(hdr)[a := old(hdr)[a].(free := free)]
        && SameOutside(a, a + HEADER, old(mem[..]), mem[..])
    {
      hide Decode, Word, SameOutside;
      ghost var m0, h0 := mem[..], hdr;
      assert StoredAt(m0, hdr, a);
      assert Power256(4) > 1 by { assert Power256(2) > 1; }
      Write(a + 16, 4, if free then 1 else 0);
      FreeWritten(m0, mem[..], a, free);
      hdr := hdr[a := hdr[a].(free := free)];
      Rewritten(m0, mem[..], h0, hdr, a);
    }

    method SetNext(a: nat, x: nat)
      requires Writable() && a in hdr && x <= U64_MAX
      modifies mem, this`hdr
      ensures Writable() && hdr == old(hdr)[a := old(hdr)[a].(next := x)]
        && SameOutside(a, a + HEADER, old(mem[..]), mem[..])
    {
      hide Decode, Word, SameOutside, Power256;
      Power8();
      ghost var m0, h0 := mem[..], hdr;
      assert StoredAt(m0, hdr, a);
      Write(a + 24, 8, x);
      NextWritten(m0, mem[..], a, x);
      hdr := hdr[a := hdr[a].(next := x)];
      Rewritten(m0, mem[..], h0, hdr, a);
    }

    method SetPrev(a: nat, x: nat)
      requires Writable() && a in hdr && x <= U64_MAX
      modifies mem, this`hdr
      ensures Writable() && hdr == old(hdr)[a := old(hdr)[a].(prev := x)]
        && SameOutside(a, a + HEADER, old(mem[..]), mem[..])
    {
      hide Decode, Word, SameOutside, Power256;
      Power8();
      ghost var m0, h0 := mem[..], hdr;
      assert StoredAt(m0, hdr, a);
      Write(a + 32, 8, x);
      PrevWritten(m0, mem[..], a, x);
      hdr := hdr[a := hdr[a].(prev := x)];
      Rewritten(m0, mem[..], h0, hdr, a);
    }

    /** The five stores that make a new free block's header. */
    method NewHeader(a: nat, size: nat, next: nat, prev: nat)
      requires Writable() && a !in hdr && Spaced(hdr.Keys + {a}) && Inside(mem[..], a, HEADER)
      requires size <= U64_MAX && next <= U64_MAX && prev <= U64_MAX
      modifies mem, this`hdr
      ensures Writable() && hdr == old(hdr)[a := Header(size, true, next, prev)]
        && SameOutside(a, a + HEADER, old(mem[..]), mem[..])
    {
      ghost var m0, h0 := mem[..], hdr;
      WriteHeader(a, size, next, prev);
      hide Decode, Word, SameOutside;
      hdr := hdr[a := Header(size, true, next, prev)];
      assert hdr.Keys == h0.Keys + {a};
      StoredElsewhere(m0, mem[..], h0, hdr, a);
    }

    method WriteHeader(a: nat, size: nat, next: nat, prev: nat)
      requires mem.Length == HEAP_SIZE_MAX && Inside(mem[..], a, HEADER) && size <= U64_MAX && next <= U64_MAX
        && prev <= U64_MAX
      modifies mem
      ensures Decode(mem[..], a) == Some(Header(size, true, next, prev))
        && SameOutside(a, a + HEADER, old(mem[..]), mem[..])
    {
      hide Word, SameOutside;
      Power8();
      assert Power256(4) > 1 by { assert Power256(2) > 1; }
      hide Power256;
      ghost var m0 := mem[..];
      Write(a, 8, BLOCK_MAGIC);
      ghost var m1 := mem[..];
      Write(a + 8, 8, size);
      ghost var m2 := mem[..];
      Write(a + 16, 4, 1);
      ghost var m3 := mem[..];
      Write(a + 24, 8, next);
      ghost var m4 := mem[..];
      Write(a + 32, 8, prev);
      ghost var m5 := mem[..];
      WordKept(m1, m2, a + 8, a + 16, a, 8);
      Widened(m0, m1, a, a + 8, a, a + HEADER);
      Widened(m1, m2, a + 8, a + 16, a, a + HEADER);
      OutsideTrans(m0, m1, m2, a, a + HEADER);
      WordKept(m2, m3, a + 16, a + 20, a, 8);
      WordKept(m2, m3, a + 16, a + 20, a + 8, 8);
      Widened(m2, m3, a + 16, a + 20, a, a + HEADER);
      OutsideTrans(m0, m2, m3, a, a + HEADER);
      WordKept(m3, m4, a + 24, a + 32, a, 8);
      WordKept(m3, m4, a + 24, a + 32, a + 8, 8);
      WordKept(m3, m4, a + 24, a + 32, a + 16, 4);
      Widened(m3, m4, a + 24, a + 32, a, a + HEADER);
      OutsideTrans(m0, m3, m4, a, a + HEADER);
      WordKept(m4, m5, a + 32, a + 40, a, 8);
      WordKept(m4, m5, a + 32, a + 40, a + 8, 8);
      WordKept(m4, m5, a + 32, a + 40, a + 16, 4);
      WordKept(m4, m5, a + 32, a + 40, a + 24, 8);
      Widened(m4, m5, a + 32, a + 40, a, a + HEADER);
      OutsideTrans(m0, m4, m5, a, a + HEADER);
    }

    /** `memset` */
    method Fill(addr: nat, n: nat, v: u8)
      requires mem.Length == HEAP_SIZE_MAX && HEAP_START <= addr && addr + n <= HEAP_MAX
      modifies mem
      ensures SameOutside(addr, addr + n, old(mem[..]), mem[..])
      ensures AllBytes(mem[..], addr, n, v)
    {
      forall o | addr - HEAP_START <= o < addr - HEAP_START + n { mem[o] := v; }
    }

    /** A header is poisoned and is no header any more. */
    method Drop(a: nat)
      requires Writable() && a in hdr
      modifies mem, this`hdr
      ensures Writable() && hdr == old(hdr) - {a} && SameOutside(a, a + HEADER, old(mem[..]), mem[..])
      ensures AllBytes(mem[..], a, HEADER, POISON)
    {
      hide Decode, SameOutside;
      ghost var m0, h0 := mem[..], hdr;
      assert StoredAt(m0, hdr, a);
      Fill(a, HEADER, POISON);
      hdr := hdr - {a};
      assert h0.Keys + {a} == h0.Keys;
      StoredElsewhere(m0, mem[..], h0, hdr, a);
    }

    // ----- blocks -----

    /** The stores of `split_block`. */
    method WriteSplit(block: nat, size: nat)
      requires Writable() && block in hdr && CanSplit(Blk(block, hdr[block].size, true), size)
        && hdr[block].next != block
      requires hdr[block].next != 0 ==> hdr[block].next in hdr
      requires var rest := block + HEADER + size;
        rest !in hdr && Spaced(hdr.Keys + {rest}) && Inside(mem[..], rest, HEADER)
      requires hdr[block].size <= HEAP_SIZE_MAX && hdr[block].next <= HEAP_MAX
      modifies this`hdr, mem
      ensures Writable() && hdr == SplitHeaders(old(hdr), block, size) && HeadersOnly(hdr.Keys, old(mem[..]), mem[..])
    {
      hide Stored, Spaced, HeadersOnly, SameOutside;
      ghost var h0, m0 := hdr, mem[..];
      var b := Load(block);
      var rest := block + HEADER + size;
      ghost var keys := hdr.Keys + {rest};
      NoHeaderYet(keys, m0);
      NewHeader(rest, b.size - size - HEADER, b.next, block);
      HeaderWritten(keys, rest, m0, m0, mem[..]);
      ghost var m1 := mem[..];
      if b.next != 0 {
        SetPrev(b.next, rest);
        HeaderWritten(keys, b.next, m0, m1, mem[..]);
      }
      ghost var m2 := mem[..];
      SetNext(block, rest);
      HeaderWritten(keys, block, m0, m2, mem[..]);
      ghost var m3 := mem[..];
      SetSize(block, size);
      HeaderWritten(keys, block, m0, m3, mem[..]);
      assert hdr.Keys == keys;
    }

    /** `split_block`: only headers are written, the new one among them. */
    method SplitBlock(block: nat, size: nat, ghost i: nat)
      requires Linked() && i < |list| && list[i].addr == block && size % ALIGN == 0
      modifies this`hdr, this`list, mem
      ensures Linked() && list == Split(old(list), i, size) && HeadersOnly(hdr.Keys, old(mem[..]), mem[..])
    {
      hide Layout, Repr, Stored, Spaced, HeadersOnly, Split, Inside, SplitHeaders;
      LayoutOrdered(list, end); LayoutPositive(list, end);
      Reads(hdr, list, i);
      var b := Load(block);
      if b.size < size + HEADER + ALIGN {
        NoHeaderYet(hdr.Keys, mem[..]);
        NoSplit(list, i, size);
        return;
      }
      SplitRepr(hdr, list, i, size);
      SplitLayout(list, i, size, end);
      SplitRoom(hdr, list, i, size, end, mem[..]);
      WriteSplit(block, size);
      list := Split(list, i, size);
    }

    /** Marks a block allocated or free. */
    method MarkBlock(block: nat, free: bool, ghost i: nat)
      requires Linked() && i < |list| && list[i].addr == block
      modifies this`hdr, this`list, mem
      ensures Linked() && list == SetFree(old(list), i, free) && HeadersOnly(hdr.Keys, old(mem[..]), mem[..])
    {
      hide Layout, Repr, Stored, Spaced, HeadersOnly, SameOutside;
      ghost var m0 := mem[..];
      Reads(hdr, list, i);
      HeadersSpaced(hdr, list, end);
      SetFreeRepr(hdr, list, i, free, end);
      SetFreeLayout(list, i, free, end);
      NoHeaderYet(hdr.Keys, m0);
      SetFlag(block, free);
      assert hdr.Keys == old(hdr).Keys;
      HeaderWritten(hdr.Keys, block, m0, m0, mem[..]);
      list := SetFree(list, i, free);
    }

    /** The stores of one turn of `coalesce_forward`. */
    method WriteAbsorb(block: nat)
      requires Writable() && block in hdr && hdr[block].next in hdr && hdr[block].next != block
      requires hdr[hdr[block].next].next != 0 ==> hdr[hdr[block].next].next in hdr
      requires hdr[hdr[block].next].next != hdr[block].next && hdr[hdr[block].next].next <= HEAP_MAX
      requires block <= HEAP_MAX && hdr[block].size + HEADER + hdr[hdr[block].next].size <= HEAP_MAX
      modifies this`hdr, mem
      ensures Writable() && hdr == AbsorbHeaders(old(hdr), block) && HeadersOnly(old(hdr).Keys, old(mem[..]), mem[..])
      ensures hdr.Keys <= old(hdr).Keys && AllBytes(mem[..], old(hdr[block].next), HEADER, POISON)
    {
      hide Stored, Spaced, HeadersOnly, SameOutside;
      ghost var m0, keys := mem[..], hdr.Keys;
      NoHeaderYet(keys, m0);
      var b := Load(block);
      var absorbed := b.next;
      var a := Load(absorbed);
      SetSize(block, b.size + HEADER + a.size);
      HeaderWritten(keys, block, m0, m0, mem[..]);
      ghost var m1 := mem[..];
      assert hdr.Keys == keys;
      SetNext(block, a.next);
      HeaderWritten(keys, block, m0, m1, mem[..]);
      ghost var m2 := mem[..];
      assert hdr.Keys == keys;
      if a.next != 0 {
        SetPrev(a.next, block);
        HeaderWritten(keys, a.next, m0, m2, mem[..]);
      }
      ghost var m3 := mem[..];
      assert hdr.Keys == keys;
      Drop(absorbed);
      HeaderWritten(keys, absorbed, m0, m3, mem[..]);
    }

    /** One turn of the loop of `coalesce_forward`. */
    method AbsorbBlock(block: nat, ghost i: nat)
      requires Linked() && i + 1 < |list| && list[i].addr == block
      modifies this`hdr, this`list, mem
      ensures Linked() && list == Absorb(old(list), i) && HeadersOnly(old(hdr).Keys, old(mem[..]), mem[..])
      ensures hdr.Keys <= old(hdr).Keys && AllBytes(mem[..], old(list)[i + 1].addr, HEADER, POISON)
    {
      hide Layout, Repr, Stored, Spaced, HeadersOnly, Absorb, AbsorbHeaders, AllBytes;
      Reads(hdr, list, i);
      LayoutPositive(list, end); LayoutOrdered(list, end);
      AbsorbRepr(hdr, list, i);
      AbsorbLayout(list, i, end);
      AbsorbRoom(hdr, list, i, end);
      WriteAbsorb(block);
      list := Absorb(list, i);
    }

    /** `coalesce_forward`: bytes of allocated blocks, and of block `i` itself, stay as they are. */
    method CoalesceForward(block: nat, ghost i: nat)
      requires Linked() && i < |list| && list[i].addr == block
      modifies this`hdr, this`list, mem
      ensures Linked() && list == Coalesce(old(list), i)
      ensures SameOn(Live(old(list)) + {old(list)[i]}, old(mem[..]), mem[..])
      ensures hdr.Keys <= old(hdr).Keys && HeadersOnly(old(hdr).Keys, old(mem[..]), mem[..])
    {
      hide Layout, Repr, Stored, HeadersOnly, Coalescing, Coalesce, SameOn, Live, Absorb, AllBytes;
      ghost var l0, m0 := list, mem[..];
      NoHeaderYet(hdr.Keys, m0);
      StartCoalesce(l0, i, m0);
      LayoutOrdered(l0, end);
      Reads(hdr, list, i);
      var b := Load(block);
      var more := false;
      if b.next != 0 {
        var n := Load(b.next);
        more := n.free;
      }
      while more
        invariant Linked() && i < |list| && list[i].addr == block && HeaderOk(hdr, list, i)
        invariant more <==> i + 1 < |list| && list[i + 1].free
        invariant Coalescing(l0, list, i, m0, mem[..])
        invariant hdr.Keys <= old(hdr).Keys && HeadersOnly(old(hdr).Keys, m0, mem[..])
        decreases |list|
      {
        ghost var l, h, m := list, hdr, mem[..];
        AbsorbAt(l, i);
        AbsorbBlock(block, i);
        HeadersTrans(old(hdr).Keys, h.Keys, m0, m, mem[..]);
        CoalesceStep(l0, l, h, i, end, m0, m, mem[..]);
        LayoutPositive(list, end);
        Reads(hdr, list, i);
        b := Load(block);
        more := false;
        if b.next != 0 {
          var n := Load(b.next);
          more := n.free;
        }
      }
      EndCoalesce(l0, list, i, m0, mem[..]);
    }

    // ----- growing -----

    /** `heap_grow`: all the pages or, on failure, all there is room for. */
    method Grow(minBytes: nat) returns (ok: bool)
      requires end <= HEAP_MAX && end % PAGE_SIZE == 0
      modifies this`end, this`supply
      ensures end <= HEAP_MAX && end % PAGE_SIZE == 0
      ensures var pages, room := (minBytes + PAGE_SIZE - 1) / PAGE_SIZE, old(Room(State()));
        && ok == (pages <= room)
        && end == old(end) + Min(pages, room) * PAGE_SIZE && supply == old(supply) - Min(pages, room)
    {
      var pages := (minBytes + PAGE_SIZE - 1) / PAGE_SIZE;
      var i := 0;
      while i < pages
        invariant 0 <= i <= pages && end <= HEAP_MAX && i <= old(Room(State()))
        invariant end == old(end) + i * PAGE_SIZE && supply == old(supply) - i
      {
        StopsAtRoom(old(end), old(supply), i);
        if end >= HEAP_MAX { return false; }
        if supply == 0 { return false; }
        supply := supply - 1;
        end := end + PAGE_SIZE;
        i := i + 1;
      }
      ok := true;
    }

    /** The loop of `heap_grow_for` that finds the last block. */
    method LastBlock() returns (block: nat)
      requires Linked()
      ensures |list| > 0 && block == list[|list| - 1].addr && HeaderOk(hdr, list, |list| - 1)
    {
      hide Layout, Repr, Stored;
      LayoutPositive(list, end);
      NotEmpty(list, end);
      block := HEAP_START;
      ghost var i := 0;
      Reads(hdr, list, 0);
      var b := Load(block);
      while b.next != 0
        invariant 0 <= i < |list| && block == list[i].addr && HeaderOk(hdr, list, i) && b == hdr[block]
        decreases |list| - i
      {
        Reads(hdr, list, i);
        block := b.next;
        i := i + 1;
        b := Load(block);
      }
      Reads(hdr, list, i);
    }

    /** The stores of `heap_grow_for`. */
    method WriteExtend(block: nat, oldEnd: nat, grown: nat) returns (last: nat)
      requires Writable() && block in hdr && grown >= HEADER && block <= HEAP_MAX && grown <= HEAP_SIZE_MAX
        && hdr[block].size <= HEAP_SIZE_MAX
      requires !hdr[block].free ==>
        oldEnd !in hdr && Spaced(hdr.Keys + {oldEnd}) && Inside(mem[..], oldEnd, HEADER) && oldEnd <= HEAP_MAX
      modifies this`hdr, mem
      ensures Writable() && hdr == ExtendHeaders(old(hdr), block, oldEnd, grown)
        && HeadersOnly(hdr.Keys, old(mem[..]), mem[..])
      ensures last == if old(hdr)[block].free then block else oldEnd
    {
      hide Stored, Spaced, HeadersOnly, SameOutside;
      ghost var m0 := mem[..];
      var b := Load(block);
      if b.free {
        NoHeaderYet(hdr.Keys, m0);
        SetSize(block, b.size + grown);
        assert hdr.Keys == old(hdr).Keys;
        HeaderWritten(hdr.Keys, block, m0, m0, mem[..]);
        last := block;
      } else {
        ghost var keys := hdr.Keys + {oldEnd};
        NoHeaderYet(keys, m0);
        NewHeader(oldEnd, grown - HEADER, 0, block);
        HeaderWritten(keys, oldEnd, m0, m0, mem[..]);
        ghost var m1 := mem[..];
        SetNext(block, oldEnd);
        HeaderWritten(keys, block, m0, m1, mem[..]);
        assert hdr.Keys == keys;
        last := oldEnd;
      }
    }

    /** `heap_grow_for`: a free last block that can hold `size`, or 0 when the pages run out. */
    method GrowFor(size: nat) returns (block: nat)
      requires Valid() && NoFit(list, size) && size % ALIGN == 0
      modifies this`end, this`supply, this`hdr, this`list, mem
      ensures Valid() && |old(list)| > 0 && old(end) <= HEAP_MAX
      ensures var pages, room := PagesFor(old(list), size), Room(old(State()));
        && (block == 0 <==> pages > room)
        && end == old(end) + Min(pages, room) * PAGE_SIZE && supply == old(supply) - Min(pages, room)
      ensures block == 0 ==> list == old(list) && mem[..] == old(mem[..])
      ensures block != 0 ==>
        && end - old(end) >= HEADER && list == Extend(old(list), old(end), end - old(end)) && |list| > 0
          && block == list[|list| - 1].addr
        && FirstFit(list, size, |list| - 1) && HeadersOnly(hdr.Keys, old(mem[..]), mem[..])
    {
      hide Layout, Repr, Stored, Spaced, HeadersOnly, NoHeadRun, Extend, Live, Tight, ExtendHeaders, FirstFit,
           SameOutside;
      ghost var l0, s0 := list, State();
      block := LastBlock();
      InsideHeap(list, |list| - 1, end);
      GrowsByAPage(list, size);
      var b := Load(block);
      var need := if b.free then size - b.size + HEADER else size + 2 * HEADER;
      var oldEnd := end;
      var ok := Grow(need);
      if !ok {
        LayoutGrows(list, oldEnd, end);
        return 0;
      }
      var grown := end - oldEnd;
      GrowKeeps(s0, size);
      ExtendRepr(hdr, l0, oldEnd, grown);
      ExtendRoom(hdr, l0, oldEnd, grown, mem[..]);
      block := WriteExtend(block, oldEnd, grown);
      list := Extend(l0, oldEnd, grown);
      ExtendAt(l0, oldEnd, grown);
    }

    // ----- the calls -----

    /** The search loop of `kmalloc`. */
    method Search(size: nat) returns (block: nat, ghost i: nat)
      requires Linked()
      ensures i == FitIndex(list, size, 0) && (block == 0 <==> i == |list|) && (i < |list| ==> block == list[i].addr)
    {
      hide Layout, Repr, Stored;
      LayoutPositive(list, end);
      NotEmpty(list, end);
      Reads(hdr, list, 0);
      block := HEAP_START;
      i := 0;
      while block != 0
        invariant 0 <= i <= |list| && (block != 0 <==> i < |list|)
        invariant block != 0 ==> block == list[i].addr && HeaderOk(hdr, list, i)
        invariant FitIndex(list, size, i) == FitIndex(list, size, 0)
        decreases |list| - i
      {
        var b := Load(block);
        if b.free && b.size >= size { return; }
        Reads(hdr, list, i);
        block := b.next;
        i := i + 1;
      }
    }

    /** `block_allocate` */
    method BlockAllocate(block: nat, size: nat, zero: bool, ghost i: nat) returns (ptr: nat)
      requires Valid() && i < |list| && list[i].addr == block && Fits(list[i], size) && size % ALIGN == 0
      modifies this`hdr, this`list, mem
      ensures Valid() && list == Allocate(old(list), i, size) && ptr == block + HEADER
      ensures SameOn(Live(old(list)), old(mem[..]), mem[..])
      ensures zero ==> AllBytes(mem[..], ptr, size, 0)
    {
      hide Layout, Repr, Stored, NoHeadRun, Split, HeadersOnly, SameOn, Live, Within, Tight, OnlyAt;
      ghost var l0, m0 := list, mem[..];
      AllocateKeeps(l0, i, size, end);
      LayoutOrdered(l0, end);
      SplitBlock(block, size, i);
      SplitFirst(l0, i, size);
      StillWithin(l0, list, i, Live(l0)) by { SplitAlso(l0, i, size); }
      PayloadsKept(hdr, list, end, Live(l0), m0, mem[..]);
      ghost var l1, m1 := list, mem[..];
      MarkBlock(block, false, i);
      MarkedWithin(l1, i, false, Live(l0));
      PayloadsKept(hdr, list, end, Live(l0), m1, mem[..]);
      SameOnTrans(Live(l0), Live(l0), m0, m1, mem[..]);
      ptr := block + HEADER;
      InsideHeap(list, i, end);
      if zero {
        ghost var m2 := mem[..];
        Fill(ptr, size, 0);
        HeadersKept(hdr, list, end, i, ptr, ptr + size, m2, mem[..]);
        WriteInside(list, i, end, Live(l0), ptr, ptr + size, m2, mem[..]);
        SameOnTrans(Live(l0), Live(l0), m0, m2, mem[..]);
      }
    }

    /** `kmalloc`: first fit, growing the heap when nothing fits. */
    method Kmalloc(size: nat, zero: bool) returns (ptr: nat)
      requires Valid() && size <= MAX_REQUEST
      modifies this, mem
      ensures Valid() && old(Shaped(State()) && |list| > 0 && end <= HEAP_MAX)
      ensures State() == AfterMalloc(old(State()), size).state && ptr == AfterMalloc(old(State()), size).ret
      ensures SameOn(Live(old(list)), old(mem[..]), mem[..]) && (ptr == 0 ==> mem[..] == old(mem[..]))
      ensures ptr != 0 && zero ==> AllBytes(mem[..], ptr, AlignUp(size), 0)
      ensures Did(old(State()), Malloc(size, zero), Outcome(State(), ptr))
    {
      hide Layout, Repr, Stored, NoHeadRun, Tight, Allocate, Live, Extend, AlignUp, SameOn, HeadersOnly, Within,
           PagesFor, Room, Did;
      ghost var s0, l0, m0 := State(), list, mem[..];
      EveryCallDid(s0, Malloc(size, zero));
      NotEmpty(list, end);
      SameOnRefl(Live(l0), m0);
      if size == 0 { return 0; }
      AlignUpIsAligned(size);
      var need := AlignUp(size);
      var block;
      ghost var i;
      block, i := Search(need);
      if block == 0 {
        block := GrowFor(need);
        if block == 0 { return 0; }
        i := |list| - 1;
        GrowKeeps(s0, need);
        AllWithin(l0, list, Live(l0));
        PayloadsKept(hdr, list, end, Live(l0), m0, mem[..]);
      }
      ghost var m1 := mem[..];
      ptr := BlockAllocate(block, need, zero, i);
      SameOnTrans(Live(l0), Live(l0), m0, m1, mem[..]);
    }

    /** `kfree` of block `i`: poison it, then merge with the free blocks around it. */
    method FreeBlock(block: nat, ghost i: nat)
      requires Valid() && i < |list| && list[i].addr == block && !list[i].free
      modifies this`hdr, this`list, mem
      ensures Valid() && list == Free(old(list), i) && SameOn(Live(list), old(mem[..]), mem[..])
      ensures Live(list) == Live(old(list)) - {old(list)[i]}
      ensures AllBytes(mem[..], old(list)[i].Ptr(), old(list)[i].size, POISON)
    {
      hide Layout, Repr, Stored, NoHeadRun, Tight, Live, Coalesce, SameOn, SameOutside, HeadersOnly, Within, AllBytes;
      ghost var l0, m0 := list, mem[..];
      ghost var keep := Live(l0) - {l0[i]};
      FreeKeeps(l0, i, end);
      Reads(hdr, list, i);
      InsideHeap(list, i, end);
      var b := Load(block);
      Fill(block + HEADER, b.size, POISON);
      ghost var m1 := mem[..];
      HeadersKept(hdr, list, end, i, block + HEADER, block + HEADER + b.size, m0, m1);
      WriteInside(l0, i, end, keep, block + HEADER, block + HEADER + b.size, m0, m1);
      MarkBlock(block, true, i);
      ghost var l1, h1, m2 := list, hdr, mem[..];
      FreedLive(l0, i, end);
      AllWithin(l1, l1, keep);
      PayloadsKept(hdr, l1, end, keep, m1, m2);
      SameOnTrans(keep, keep, m0, m1, m2);
      CoalesceForward(block, i);
      ghost var l2, m3 := list, mem[..];
      HeadersTrans(h1.Keys, h1.Keys, m1, m2, m3);
      SameOnTrans(keep, Live(l1) + {l1[i]}, m0, m2, m3);
      CoalesceLive(l1, i, end);
      OnlyAtLive(l1, l2, i);
      FreeIsNotLive(l1, i);
      Reads(hdr, list, i);
      LayoutPositive(list, end);
      b := Load(block);
      if b.prev != 0 {
        var p := Load(b.prev);
        if p.free {
          ghost var h2 := hdr;
          CoalesceForward(b.prev, i - 1);
          HeadersTrans(h1.Keys, h2.Keys, m1, m3, mem[..]);
          SameOnTrans(keep, Live(l2) + {l2[i - 1]}, m0, m3, mem[..]);
        }
      }
      PoisonStays(h1, l1, end, i, m1, mem[..]);
    }

    /** `kfree`: null and already free blocks are left alone. */
    method Kfree(ptr: nat)
      requires Valid() && (ptr == 0 || BlockAt(list, ptr, 0) < |list|)
      modifies this`hdr, this`list, mem
      ensures Valid() && State() == AfterFree(old(State()), ptr) && SameOn(Live(list), old(mem[..]), mem[..])
      ensures ptr == 0 || ptr in Ptrs(old(list)) ==> Did(old(State()), Release(ptr), Outcome(State(), 0))
      ensures ptr in Ptrs(old(list)) ==>
        exists b :: b in Live(old(list)) && b.Ptr() == ptr && AllBytes(mem[..], ptr, b.size, POISON)
      ensures ptr == 0 || old(list)[BlockAt(old(list), ptr, 0)].free ==> mem[..] == old(mem[..])
    {
      hide Layout, Repr, Stored, NoHeadRun, Free, Live, SameOn, Ptrs, Did, AllBytes;
      SameOnRefl(Live(list), mem[..]);
      ghost var s := State();
      if ptr == 0 || ptr in Ptrs(list) { EveryCallDid(s, Release(ptr)); }
      NoNull(list, end);
      if ptr == 0 { return; }
      if ptr in Ptrs(list) { HeldBlock(s, ptr); }
      var block := ptr - HEADER;
      ghost var i := BlockAt(list, ptr, 0);
      if !list[i].free { LiveAt(list, i); }
      Reads(hdr, list, i);
      var b := Load(block);
      if b.free { return; }
      FreeBlock(block, i);
    }

    /** `memcpy` between two blocks. */
    method Copy(to: nat, from: nat, n: nat)
      requires mem.Length == HEAP_SIZE_MAX
      requires HEAP_START <= to && to + n <= HEAP_MAX && HEAP_START <= from && from + n <= HEAP_MAX
      modifies mem
      ensures SameOutside(to, to + n, old(mem[..]), mem[..]) && SameBytes(from, to, n, old(mem[..]), mem[..])
    {
      forall o | to - HEAP_START <= o < to - HEAP_START + n { mem[o] := mem[o - to + from]; }
    }

    /** `krealloc` of an allocated block when it can stay where it is: the bytes up to the smaller size stay. */
    method ReallocInPlace(block: nat, size: nat, ghost i: nat) returns (ok: bool)
      requires Valid() && i < |list| && list[i].addr == block && !list[i].free && size % ALIGN == 0
      modifies this`hdr, this`list, mem
      ensures Valid()
      ensures ok == (old(list)[i].size >= size || StaysByWidening(old(list), i, size))
      ensures !ok ==> list == old(list) && mem[..] == old(mem[..])
      ensures ok ==> list == if old(list)[i].size >= size then Split(old(list), i, size) else Widen(old(list), i, size)
      ensures ok ==> SameOn(Live(old(list)) - {old(list)[i]}, old(mem[..]), mem[..])
      ensures ok ==> SameBytes(block + HEADER, block + HEADER, Min(old(list)[i].size, size), old(mem[..]), mem[..])
    {
      hide Layout, Repr, Stored, NoHeadRun, Tight, Coalesce, Live, Split, OnlyAt, SameOn, HeadersOnly, Within,
           SameBytes, Widen;
      Reads(hdr, list, i);
      LayoutPositive(list, end);
      var b := Load(block);
      if b.size >= size {
        Shrink(block, size, i);
        return true;
      }
      if b.next != 0 {
        var n := Load(b.next);
        if n.free && b.size + HEADER + n.size >= size {
          WidenBlock(block, size, i);
          return true;
        }
      }
      return false;
    }

    method Shrink(block: nat, size: nat, ghost i: nat)
      requires Valid() && i < |list| && list[i].addr == block && !list[i].free && size % ALIGN == 0
        && list[i].size >= size
      modifies this`hdr, this`list, mem
      ensures Valid() && list == Split(old(list), i, size)
      ensures SameOn(Live(old(list)) - {old(list)[i]}, old(mem[..]), mem[..])
      ensures SameBytes(block + HEADER, block + HEADER, size, old(mem[..]), mem[..])
    {
      hide Layout, Repr, Stored, NoHeadRun, Tight, Live, Split, OnlyAt, SameOn, HeadersOnly, Within, SameBytes;
      ghost var l0, m0 := list, mem[..];
      ShrinkKeeps(list, i, size, end);
      SplitBlock(block, size, i);
      SplitFirst(l0, i, size);
      AllWithin(list, list, Live(list));
      PayloadsKept(hdr, list, end, Live(list), m0, mem[..]);
      InsideHeap(list, i, end);
      KeptSlice(list[i], Live(list), size, m0, mem[..]);
      SameOnFewer(Live(list), Live(l0) - {l0[i]}, m0, mem[..]);
    }

    method WidenBlock(block: nat, size: nat, ghost i: nat)
      requires Valid() && i < |list| && list[i].addr == block && !list[i].free && size % ALIGN == 0
      requires list[i].size < size && StaysByWidening(list, i, size)
      modifies this`hdr, this`list, mem
      ensures Valid() && list == Widen(old(list), i, size)
      ensures SameOn(Live(old(list)) - {old(list)[i]}, old(mem[..]), mem[..])
      ensures SameBytes(block + HEADER, block + HEADER, old(list)[i].size, old(mem[..]), mem[..])
    {
      hide Layout, Repr, Stored, NoHeadRun, Tight, Coalesce, Live, Split, OnlyAt, SameOn, HeadersOnly, Within,
           SameBytes;
      ghost var l0, m0 := list, mem[..];
      LayoutOrdered(l0, end);
      WidenKeeps(list, i, size, end);
      CoalesceLive(l0, i, end);
      CoalesceForward(block, i);
      ghost var l1, m1 := list, mem[..];
      SameOnFewer(Live(l0) + {l0[i]}, Live(l0), m0, m1);
      StillWithin(l0, l1, i, Live(l0)) by { OldBlocks(l0, l1, i); }
      MarkBlock(block, false, i);
      ghost var m2 := mem[..];
      MarkedWithin(l1, i, false, Live(l0));
      PayloadsKept(hdr, list, end, Live(l0), m1, m2);
      SameOnTrans(Live(l0), Live(l0), m0, m1, m2);
      SplitFirst(list, i, size);
      SplitBlock(block, size, i);
      StillWithin(l0, list, i, Live(l0)) by { OldBlocks(l0, list, i); }
      PayloadsKept(hdr, list, end, Live(l0), m2, mem[..]);
      SameOnTrans(Live(l0), Live(l0), m0, m2, mem[..]);
      LiveAt(l0, i);
      InsideHeap(l0, i, end);
      KeptSlice(l0[i], Live(l0), l0[i].size, m0, mem[..]);
      SameOnFewer(Live(l0), Live(l0) - {l0[i]}, m0, mem[..]);
    }

    /** `krealloc`: the first bytes, up to the smaller size, and every other allocation stay as they were. */
    method Krealloc(ptr: nat, newSize: nat) returns (r: nat)
      requires Valid() && newSize <= MAX_REQUEST - ALIGN && (ptr == 0 || ptr in Ptrs(list))
      modifies this, mem
      ensures Valid() && old(Shaped(State()) && |list| > 0 && end <= HEAP_MAX)
      ensures State() == AfterRealloc(old(State()), ptr, newSize).state
        && r == AfterRealloc(old(State()), ptr, newSize).ret
      ensures Did(old(State()), Realloc(ptr, newSize), Outcome(State(), r))
      ensures (r == 0 && newSize != 0) || ptr == 0 ==> SameOn(Live(old(list)), old(mem[..]), mem[..])
      ensures ptr != 0 ==>
        var i := BlockAt(old(list), ptr, 0);
        && i < |old(list)| && SameOn(Live(old(list)) - {old(list)[i]}, old(mem[..]), mem[..])
        && (r != 0 ==> SameBytes(ptr, r, Min(old(list)[i].size, AlignUp(newSize)), old(mem[..]), mem[..]))
    {
      hide Layout, Repr, Stored, NoHeadRun, Live, SameOn, AlignUp, Split, Widen, Free, SameBytes, AfterMalloc, Ptrs,
           Did;
      EveryCallDid(State(), Realloc(ptr, newSize));
      NotEmpty(list, end);
      if ptr == 0 {
        r := Kmalloc(newSize, false);
        return;
      }
      ghost var l0, m0 := list, mem[..];
      HeldBlock(State(), ptr);
      var block := ptr - HEADER;
      ghost var i := BlockAt(list, ptr, 0);
      if newSize == 0 {
        FreeBlock(block, i);
        return 0;
      }
      AlignUpIsAligned(newSize);
      var size := AlignUp(newSize);
      var stays := ReallocInPlace(block, size, i);
      if stays { return ptr; }
      r := MoveBlock(ptr, size, i);
    }

    /** The last part of `krealloc`: allocate, copy, free. */
    method MoveBlock(ptr: nat, size: nat, ghost i: nat) returns (r: nat)
      requires Valid() && size <= MAX_REQUEST && size % ALIGN == 0 && i < |list| && list[i].Ptr() == ptr
        && !list[i].free && list[i].size < size
      modifies this, mem
      ensures Valid() && old(Shaped(State()) && |list| > 0 && end <= HEAP_MAX)
      ensures State() == AfterMove(old(State()), ptr, size).state && r == AfterMove(old(State()), ptr, size).ret
      ensures SameOn(Live(old(list)) - {old(list)[i]}, old(mem[..]), mem[..])
      ensures r == 0 ==> SameOn(Live(old(list)), old(mem[..]), mem[..])
      ensures r != 0 ==> SameBytes(ptr, r, old(list)[i].size, old(mem[..]), mem[..])
    {
      hide Layout, Repr, Stored, NoHeadRun, Tight, Live, SameOn, AlignUp, SameOutside, SameBytes, AfterMalloc,
           NewBlock, Free, PagesFor, Room, NoFit;
      ghost var s0, l0, m0 := State(), list, mem[..];
      NotEmpty(list, end);
      MallocKeeps(s0, size);
      r := Kmalloc(size, false);
      SameOnFewer(Live(l0), Live(l0) - {l0[i]}, m0, mem[..]);
      if r == 0 { return 0; }
      ghost var l1, m1 := list, mem[..];
      assert AlignUp(size) == size by { AlignedStays(size); }
      ghost var (j, k) := WhereNow(l0, l1, i, r, size);
      BlockIs(l1, end, k);
      Reads(hdr, list, k);
      InsideHeap(l1, j, end); InsideHeap(l1, k, end);
      var block := ptr - HEADER;
      var b := Load(block);
      Copy(r, ptr, b.size);
      ghost var m2 := mem[..];
      HeadersKept(hdr, l1, end, j, r, r + b.size, m1, m2);
      WriteInside(l1, j, end, Live(l1) - {l1[j]}, r, r + b.size, m1, m2);
      FreeBlock(block, k);
      MovedAway(l0, l1, list, i, j, k, r, size, m0, m1, m2, mem[..]);
    }
  }

  /** The split-off header falls inside the block and beside every other header. */
  lemma SplitRoom(h: Headers, l: seq<Blk>, i: nat, size: nat, end: nat, m: seq<u8>)
    requires Repr(h, l) && Layout(l, end) && i < |l| && CanSplit(l[i], size) && end <= HEAP_START + |m|
      && l[i].addr in h && size % ALIGN == 0
    requires h[l[i].addr].size == l[i].size && (h[l[i].addr].next != 0 ==> h[l[i].addr].next in h)
    requires Repr(SplitHeaders(h, l[i].addr, size), Split(l, i, size)) && Layout(Split(l, i, size), end)
    ensures var rest := l[i].addr + HEADER + size;
      rest !in h && Spaced(h.Keys) && Spaced(h.Keys + {rest}) && Inside(m, rest, HEADER)
    ensures h[l[i].addr].size <= HEAP_START + |m| && h[l[i].addr].next <= end && h[l[i].addr].next != l[i].addr
    ensures HEAP_START <= l[i].addr && l[i].size <= |m|
  {
    hide Layout, Repr, Spaced, Split, Ordered;
    var rest := l[i].addr + HEADER + size;
    LayoutOrdered(l, end);
    ReprNoOther(h, l);
    FreshAddress(h, l, i, rest);
    HeadersSpaced(h, l, end);
    HeadersSpaced(SplitHeaders(h, l[i].addr, size), Split(l, i, size), end);
    assert SplitHeaders(h, l[i].addr, size).Keys == h.Keys + {rest};
    InsideHeap(l, i, end);
    Reads(h, l, i);
    if i + 1 < |l| { InsideHeap(l, i + 1, end); Distinct(l, i, i + 1); }
  }

  lemma Rewritten(m0: seq<u8>, m1: seq<u8>, h: Headers, h': Headers, a: nat)
    requires Stored(m0, h) && Spaced(h.Keys) && a in h && SameOutside(a, a + HEADER, m0, m1) && |m0| == |m1|
    requires h'.Keys == h.Keys && (forall b | b in h && b != a :: h'[b] == h[b]) && Inside(m1, a, HEADER)
      && Decode(m1, a) == Some(h'[a])
    ensures Stored(m1, h')
  {
    hide Decode, SameOutside;
    assert h.Keys + {a} == h.Keys;
    StoredElsewhere(m0, m1, h, h', a);
  }

  lemma NoSplit(l: seq<Blk>, i: nat, size: nat)
    requires i < |l| && l[i].size < size + HEADER + ALIGN
    ensures Split(l, i, size) == l
  {
  }

  lemma ReprNoOther(h: Headers, l: seq<Blk>)
    requires Repr(h, l)
    ensures NoOther(h, l)
  {
  }

  lemma InsideHeap(l: seq<Blk>, i: nat, end: nat)
    requires Layout(l, end) && i < |l|
    ensures HEAP_START <= l[i].addr && l[i].End() <= end
  {
    assert l[i].Inside(end);
  }

  lemma LayoutPositive(l: seq<Blk>, end: nat)
    requires Layout(l, end)
    ensures Positive(l)
  {
    assert forall k :: 0 <= k < |l| ==> l[k].Inside(end);
  }

  lemma SetFreeRepr(h: Headers, l: seq<Blk>, i: nat, free: bool, end: nat)
    requires Repr(h, l) && Layout(l, end) && i < |l|
    ensures l[i].addr in h && Repr(h[l[i].addr := h[l[i].addr].(free := free)], SetFree(l, i, free))
  {
    hide Layout, Ordered, NoOther;
    LayoutOrdered(l, end);
    Reads(h, l, i);
    var h', r := h[l[i].addr := h[l[i].addr].(free := free)], SetFree(l, i, free);
    SameAddresses(h, h', l, r);
    forall k | 0 <= k < |r| ensures HeaderOk(h', r, k) {
      Reads(h, l, k);
      Distinct(l, k, i);
    }
  }

  lemma SameAddresses(h: Headers, h': Headers, l: seq<Blk>, r: seq<Blk>)
    requires NoOther(h, l) && h'.Keys == h.Keys && |r| == |l| && forall k :: 0 <= k < |l| ==> r[k].addr == l[k].addr
    ensures NoOther(h', r)
  {
    forall a | a in h' ensures exists k :: 0 <= k < |r| && r[k].addr == a {
      var k :| 0 <= k < |l| && l[k].addr == a;
      assert r[k].addr == a;
    }
  }

  lemma StopsAtRoom(end: nat, supply: nat, i: nat)
    requires end <= HEAP_MAX && end % PAGE_SIZE == 0 && end + i * PAGE_SIZE <= HEAP_MAX && i <= supply
    ensures i <= (HEAP_MAX - end) / PAGE_SIZE
    ensures end + i * PAGE_SIZE == HEAP_MAX <==> i == (HEAP_MAX - end) / PAGE_SIZE
    ensures (end + i * PAGE_SIZE) % PAGE_SIZE == 0
  {
  }

  function ExtendHeaders(h: Headers, block: nat, oldEnd: nat, grown: nat): Headers
    requires block in h && grown >= HEADER
  {
    if h[block].free then h[block := h[block].(size := h[block].size + grown)]
    else
      var h1 := h[oldEnd := Header(grown - HEADER, true, 0, block)];
      h1[block := h1[block].(next := oldEnd)]
  }

  lemma ExtendAt(l: seq<Blk>, oldEnd: nat, grown: nat)
    requires |l| > 0 && grown >= HEADER
    ensures var r, n := Extend(l, oldEnd, grown), |l| - 1;
      && (forall k :: 0 <= k < n ==> r[k] == l[k])
      && (l[n].free ==> |r| == |l| && r[n] == l[n].(size := l[n].size + grown))
      && (!l[n].free ==> |r| == |l| + 1 && r[n] == l[n] && r[n + 1] == Blk(oldEnd, grown - HEADER, true))
  {
  }

  lemma ExtendRepr(h: Headers, l: seq<Blk>, oldEnd: nat, grown: nat)
    requires Repr(h, l) && Layout(l, oldEnd) && grown >= HEADER
    ensures l[|l| - 1].addr in h && Repr(ExtendHeaders(h, l[|l| - 1].addr, oldEnd, grown), Extend(l, oldEnd, grown))
  {
    hide NoOther, Extend, Layout, ExtendHeaders;
    NotEmpty(l, oldEnd);
    Reads(h, l, |l| - 1);
    ExtendAt(l, oldEnd, grown);
    var h', r := ExtendHeaders(h, l[|l| - 1].addr, oldEnd, grown), Extend(l, oldEnd, grown);
    forall k | 0 <= k < |r| ensures HeaderOk(h', r, k) {
      ExtendHeaderOk(h, l, oldEnd, grown, k);
    }
    ExtendNoOther(h, l, oldEnd, grown);
  }

  lemma ExtendHeaderOk(h: Headers, l: seq<Blk>, oldEnd: nat, grown: nat, k: nat)
    requires Repr(h, l) && Layout(l, oldEnd) && grown >= HEADER && k < |Extend(l, oldEnd, grown)|
    requires l[|l| - 1].addr in h
    ensures HeaderOk(ExtendHeaders(h, l[|l| - 1].addr, oldEnd, grown), Extend(l, oldEnd, grown), k)
  {
    var n := |l| - 1;
    hide NoOther, Extend, Layout, Ordered;
    LayoutOrdered(l, oldEnd);
    NotEmpty(l, oldEnd);
    ExtendAt(l, oldEnd, grown);
    Reads(h, l, n);
    InsideHeap(l, n, oldEnd);
    if k <= n {
      Reads(h, l, k);
      Distinct(l, k, n);
      InsideHeap(l, k, oldEnd);
    }
  }

  lemma ExtendNoOther(h: Headers, l: seq<Blk>, oldEnd: nat, grown: nat)
    requires NoOther(h, l) && |l| > 0 && grown >= HEADER && l[|l| - 1].addr in h
      && h[l[|l| - 1].addr].free == l[|l| - 1].free
    ensures NoOther(ExtendHeaders(h, l[|l| - 1].addr, oldEnd, grown), Extend(l, oldEnd, grown))
  {
    var h', r := ExtendHeaders(h, l[|l| - 1].addr, oldEnd, grown), Extend(l, oldEnd, grown);
    ExtendAt(l, oldEnd, grown);
    hide Extend;
    forall a | a in h' ensures exists k :: 0 <= k < |r| && r[k].addr == a {
      if a in h {
        var k :| 0 <= k < |l| && l[k].addr == a;
        assert r[k].addr == a;
      } else {
        assert r[|l|].addr == a;
      }
    }
  }

  lemma OnlyAtRefl(l: seq<Blk>, i: nat)
    requires i < |l|
    ensures OnlyAt(l, l, i)
  {
  }

  lemma StartCoalesce(l: seq<Blk>, i: nat, m: seq<u8>)
    requires i < |l|
    ensures Coalescing(l, l, i, m, m)
  {
    OnlyAtRefl(l, i);
  }

  lemma EndCoalesce(l0: seq<Blk>, l: seq<Blk>, i: nat, m0: seq<u8>, m: seq<u8>)
    requires Coalescing(l0, l, i, m0, m) && (i + 1 < |l| ==> !l[i + 1].free)
    ensures l == Coalesce(l0, i) && SameOn(Live(l0) + {l0[i]}, m0, m)
  {
  }

  lemma SplitFirst(l: seq<Blk>, i: nat, size: nat)
    requires i < |l|
    ensures i < |Split(l, i, size)| && Split(l, i, size)[i].addr == l[i].addr && Split(l, i, size)[i].free == l[i].free
    ensures l[i].size >= size ==> Split(l, i, size)[i].size >= size
  {
  }

  lemma SameOnTrans(bs: set<Blk>, cs: set<Blk>, m0: seq<u8>, m1: seq<u8>, m2: seq<u8>)
    requires SameOn(bs, m0, m1) && SameOn(cs, m1, m2) && bs <= cs
    ensures SameOn(bs, m0, m2)
  {
  }

  lemma SameOnRefl(bs: set<Blk>, m: seq<u8>)
    ensures SameOn(bs, m, m)
  {
  }

  lemma AbsorbRoom(h: Headers, l: seq<Blk>, i: nat, end: nat)
    requires Repr(h, l) && Layout(l, end) && i + 1 < |l| && end <= HEAP_MAX
    ensures Spaced(h.Keys) && l[i].addr in h && h[l[i].addr].next == l[i + 1].addr && l[i + 1].addr in h
    ensures h[l[i + 1].addr].next != l[i + 1].addr && h[l[i + 1].addr].next <= HEAP_MAX && l[i].addr <= HEAP_MAX
    ensures h[l[i].addr].size + HEADER + h[l[i + 1].addr].size <= HEAP_MAX
  {
    hide Layout, Repr, Spaced, Ordered;
    LayoutOrdered(l, end);
    HeadersSpaced(h, l, end);
    Reads(h, l, i); Reads(h, l, i + 1);
    InsideHeap(l, i, end); InsideHeap(l, i + 1, end);
    InOrder(l, i, i + 1);
    if i + 2 < |l| { InsideHeap(l, i + 2, end); Distinct(l, i + 1, i + 2); }
  }

  lemma ExtendRoom(h: Headers, l: seq<Blk>, oldEnd: nat, grown: nat, m: seq<u8>)
    requires Repr(h, l) && Layout(l, oldEnd) && grown >= HEADER && oldEnd + grown <= HEAP_START + |m|
    ensures Spaced(h.Keys) && |l| > 0 && l[|l| - 1].addr in h && h[l[|l| - 1].addr].size <= |m|
      && HEAP_START <= l[|l| - 1].addr <= oldEnd
    ensures oldEnd !in h && Spaced(h.Keys + {oldEnd}) && Inside(m, oldEnd, HEADER)
  {
    hide Layout, HeaderOk;
    NotEmpty(l, oldEnd);
    HeadersSpaced(h, l, oldEnd);
    InsideHeap(l, |l| - 1, oldEnd);
    assert h[l[|l| - 1].addr].size == l[|l| - 1].size by { Reads(h, l, |l| - 1); LastHeader(h, l); }
    forall a | a in h.Keys ensures a + HEADER <= oldEnd {
      var k :| 0 <= k < |l| && l[k].addr == a;
      InsideHeap(l, k, oldEnd);
    }
  }

  lemma LastHeader(h: Headers, l: seq<Blk>)
    requires |l| > 0 && HeaderOk(h, l, |l| - 1)
    ensures l[|l| - 1].addr in h && h[l[|l| - 1].addr].size == l[|l| - 1].size
  {
  }

  lemma CoalesceStep(l0: seq<Blk>, l: seq<Blk>, h: Headers, i: nat, end: nat, m0: seq<u8>, m: seq<u8>, m': seq<u8>)
    requires Coalescing(l0, l, i, m0, m) && Repr(h, l) && Layout(l, end) && Ordered(l0) && i + 1 < |l| && l[i + 1].free
    requires HeadersOnly(h.Keys, m, m')
    ensures Coalescing(l0, Absorb(l, i), i, m0, m')
  {
    hide Ordered, Layout, OnlyAt, Covers, Absorb, Live, Repr, HeadersOnly, SameOn, Within;
    LayoutOrdered(l, end);
    AbsorbLive(l, i);
    AbsorbAt(l, i);
    OnlyAtTrans(l0, l, Absorb(l, i), i);
    StillWithin(l0, l, i, Live(l0) + {l0[i]}) by { OldBlocks(l0, l, i); }
    PayloadsKept(h, l, end, Live(l0) + {l0[i]}, m, m');
    SameOnTrans(Live(l0) + {l0[i]}, Live(l0) + {l0[i]}, m0, m, m');
  }

  lemma OldBlocks(l0: seq<Blk>, l: seq<Blk>, i: nat)
    requires OnlyAt(l0, l, i) && l[i].size >= l0[i].size
    ensures forall b | b in Live(l0) + {l0[i]} :: Kept(l0, l, i, b)
  {
  }

  /** Block `b` of `l0` is still in `l`, or is block `i`, which has kept its place and not shrunk. */
  ghost predicate Kept(l0: seq<Blk>, l: seq<Blk>, i: nat, b: Blk) {
    b in l || (i < |l0| && i < |l| && b == l0[i] && l[i].addr == b.addr && l[i].size >= b.size)
  }

  lemma StillWithin(l0: seq<Blk>, l: seq<Blk>, i: nat, bs: set<Blk>)
    requires forall b | b in bs :: Kept(l0, l, i, b)
    ensures forall b | b in bs :: Within(b, l)
  {
    forall b | b in bs ensures Within(b, l) {
      assert Kept(l0, l, i, b);
      if b in l {
        var k :| 0 <= k < |l| && l[k] == b;
      }
    }
  }

  lemma SplitAlso(l: seq<Blk>, i: nat, size: nat)
    requires Ordered(l) && i < |l| && l[i].free
    ensures forall b | b in Live(l) :: Kept(l, Split(l, i, size), i, b)
  {
    SplitLive(l, i, size);
    hide Split;
    forall b | b in Live(l) ensures b in Split(l, i, size) { assert b != l[i]; }
  }

  lemma MarkedWithin(l: seq<Blk>, i: nat, free: bool, bs: set<Blk>)
    requires i < |l| && forall b | b in bs :: Within(b, l)
    ensures forall b | b in bs :: Within(b, SetFree(l, i, free))
  {
    var r := SetFree(l, i, free);
    forall b | b in bs ensures Within(b, r) {
      assert Within(b, l);
      var k :| 0 <= k < |l| && l[k].addr == b.addr && b.size <= l[k].size;
      assert r[k].addr == l[k].addr && r[k].size == l[k].size;
    }
  }

  /** Writing inside block `i` leaves the payloads of other allocated blocks alone. */
  lemma WriteInside(l: seq<Blk>, i: nat, end: nat, bs: set<Blk>, lo: nat, hi: nat, m0: seq<u8>, m: seq<u8>)
    requires Layout(l, end) && i < |l| && bs <= Live(l) - {l[i]} && l[i].Ptr() <= lo && hi <= l[i].End()
    requires SameOutside(lo, hi, m0, m)
    ensures SameOn(bs, m0, m)
  {
    LayoutOrdered(l, end);
    hide Layout;
    forall b, o: nat | b in bs && Covers(b, o) && o < |m0| ensures m[o] == m0[o] {
      var j :| 0 <= j < |l| && l[j] == b;
      InOrder(l, i, j);
    }
  }

  lemma AllWithin(l0: seq<Blk>, l: seq<Blk>, bs: set<Blk>)
    requires Live(l0) == Live(l) && bs <= Live(l)
    ensures forall b | b in bs :: Within(b, l)
  {
    forall b | b in bs ensures Within(b, l) {
      var k :| 0 <= k < |l| && l[k] == b;
    }
  }

  lemma NoNull(l: seq<Blk>, end: nat)
    requires Layout(l, end)
    ensures 0 !in Ptrs(l)
  {
  }

  /** Merging writes headers only, so the freed payload stays poisoned. */
  lemma PoisonStays(h: Headers, l: seq<Blk>, end: nat, i: nat, m1: seq<u8>, m2: seq<u8>)
    requires Repr(h, l) && Layout(l, end) && i < |l| && HeadersOnly(h.Keys, m1, m2)
    requires AllBytes(m1, l[i].Ptr(), l[i].size, POISON)
    ensures AllBytes(m2, l[i].Ptr(), l[i].size, POISON)
  {
    hide Repr, Layout;
    assert Within(l[i], l);
    PayloadsKept(h, l, end, {l[i]}, m1, m2);
    hide HeadersOnly;
    assert |m1| == |m2| by { SameSize(h.Keys, m1, m2); }
    forall o: nat | l[i].Ptr() <= HEAP_START + o < l[i].Ptr() + l[i].size ensures m2[o] == POISON {
      assert Covers(l[i], o);
    }
  }

  lemma SameSize(keys: set<nat>, m1: seq<u8>, m2: seq<u8>)
    requires HeadersOnly(keys, m1, m2)
    ensures |m1| == |m2|
  {
  }

  lemma FreedLive(l: seq<Blk>, i: nat, end: nat)
    requires Layout(l, end) && i < |l| && !l[i].free
    ensures Live(SetFree(l, i, true)) == Live(l) - {l[i]}
  {
    hide Layout, Live, OnlyAt;
    LayoutOrdered(l, end);
    SetFreeLive(l, i, true);
    OnlyAtLive(l, SetFree(l, i, true), i);
  }

  lemma SameOnFewer(bs: set<Blk>, cs: set<Blk>, m0: seq<u8>, m1: seq<u8>)
    requires SameOn(bs, m0, m1) && cs <= bs
    ensures SameOn(cs, m0, m1)
  {
  }

  lemma LiveAt(l: seq<Blk>, i: nat)
    requires i < |l| && !l[i].free
    ensures l[i] in Live(l)
  {
  }

  /** The `n` bytes at `from` before are the `n` bytes at `to` after. */
  ghost predicate SameBytes(from: nat, to: nat, n: nat, m0: seq<u8>, m1: seq<u8>) {
    Inside(m0, from, n) && Inside(m1, to, n) && Slice(m0, from, n) == Slice(m1, to, n)
  }

  lemma KeptSlice(b: Blk, bs: set<Blk>, n: nat, m0: seq<u8>, m1: seq<u8>)
    requires SameOn(bs, m0, m1) && b in bs && n <= b.size && HEAP_START <= b.addr && b.End() <= HEAP_START + |m0|
    ensures SameBytes(b.Ptr(), b.Ptr(), n, m0, m1)
  {
    forall o: nat | b.Ptr() - HEAP_START <= o < b.Ptr() - HEAP_START + n ensures m1[o] == m0[o] {
      assert Covers(b, o);
    }
  }

  lemma AlignedStays(n: nat)
    requires n % ALIGN == 0
    ensures AlignUp(n) == n
  {
  }

  /** After an allocation the new block and an old one are at different places of the list. */
  ghost function WhereNow(l0: seq<Blk>, l1: seq<Blk>, i: nat, r: nat, size: nat): (p: (nat, nat))
    requires NewBlock(l0, l1, r, size) && i < |l0| && !l0[i].free
    ensures p.0 < |l1| && p.1 < |l1| && p.0 != p.1 && l1[p.1] == l0[i] && l1[p.0].Ptr() == r && l1[p.0].size >= size
    ensures IsNew(l0, l1, l1[p.0])
  {
    LiveAt(l0, i);
    var b :| IsNew(l0, l1, b) && b.Ptr() == r && b.size >= size;
    assert b in Live(l1) && l0[i] in Live(l1);
    var j :| 0 <= j < |l1| && l1[j] == b;
    var k :| 0 <= k < |l1| && l1[k] == l0[i];
    (j, k)
  }

  lemma MovedAway(l0: seq<Blk>, l1: seq<Blk>, l2: seq<Blk>, i: nat, j: nat, k: nat, r: nat, size: nat,
                  m0: seq<u8>, m1: seq<u8>, m2: seq<u8>, m3: seq<u8>)
    requires i < |l0| && !l0[i].free && |m1| == |m2| && j < |l1| && IsNew(l0, l1, l1[j]) && l1[j].Ptr() == r
      && l1[j].size >= size
    requires HEAP_START <= l0[i].addr && HEAP_START <= l1[j].addr
    requires l0[i].End() <= HEAP_START + |m0| && l1[j].End() <= HEAP_START + |m0|
    requires k < |l1| && l1[k] == l0[i] && k != j && l0[i].size < size
    requires SameOn(Live(l0), m0, m1) && SameOn(Live(l1) - {l1[j]}, m1, m2)
      && SameBytes(l0[i].Ptr(), r, l0[i].size, m1, m2)
    requires Live(l2) == Live(l1) - {l1[k]} && SameOn(Live(l2), m2, m3)
    ensures SameBytes(l0[i].Ptr(), r, l0[i].size, m0, m3) && SameOn(Live(l0) - {l0[i]}, m0, m3)
  {
    LiveAt(l0, i);
    hide Live;
    assert l0[i] != l1[j];
    assert Live(l2) == Live(l0) - {l0[i]} + {l1[j]};
    assert l1[j] in Live(l2);
    KeptSlice(l0[i], Live(l0), l0[i].size, m0, m1);
    KeptSlice(l1[j], Live(l2), l0[i].size, m2, m3);
    SameOnFewer(Live(l0), Live(l0) - {l0[i]}, m0, m1);
    SameOnFewer(Live(l1) - {l1[j]}, Live(l0) - {l0[i]}, m1, m2);
    SameOnFewer(Live(l2), Live(l0) - {l0[i]}, m2, m3);
    SameOnTrans(Live(l0) - {l0[i]}, Live(l0) - {l0[i]}, m0, m1, m2);
    SameOnTrans(Live(l0) - {l0[i]}, Live(l0) - {l0[i]}, m0, m2, m3);
  }
}
