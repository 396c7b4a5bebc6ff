/** Page table entries: 64-bit words holding a frame number and flag bits. */
module Pte {
  import opened Machine

  const FRAME_LIMIT: nat := 0x100_0000_0000        // frames addressable by bits 12-51
  const NX_BIT: nat := 0x8000_0000_0000_0000

  predicate Present(e: u64) { e % 2 == 1 }
  predicate Huge(e: u64) { e / 128 % 2 == 1 }
  /** `(e & PTE_ADDR_MASK) / PAGE_SIZE` */
  function FrameOf(e: u64): (f: nat) ensures f < FRAME_LIMIT { e / PAGE_SIZE % FRAME_LIMIT }

  /** Writable, user and executable: the entry bars nothing below it. */
  predicate Passes(e: u64) { e / 2 % 2 == 1 && e / 4 % 2 == 1 && e < 0x8000_0000_0000_0000 }

  /** Portable flags: bit 0 writable, bit 1 user, bit 2 no-execute. */
  function FlagsToPte(flags: u32): (e: u64)
    ensures e % NX_BIT < 8
  {
    1 + (if flags % 2 == 1 then 2 else 0) + (if flags / 2 % 2 == 1 then 4 else 0)
      + (if flags / 4 % 2 == 1 then NX_BIT else 0)
  }

  function PteToFlags(e: u64): (flags: u32)
    ensures flags < 8
  {
    (if e / 2 % 2 == 1 then 1 else 0) + (if e / 4 % 2 == 1 then 2 else 0) + (if e / NX_BIT == 1 then 4 else 0)
  }

  /** `phys | vmm_flags_to_pte(flags)` for the page-aligned `phys` of frame `f`. */
  function MakePte(f: nat, flags: u32): (e: u64)
    requires f < FRAME_LIMIT
  {
    f * PAGE_SIZE + FlagsToPte(flags)
  }

  lemma LowFields(y: nat, w: nat, u: nat)
    requires w < 2 && u < 2
    ensures var e := 8 * y + 4 * u + 2 * w + 1; e % 2 == 1 && e / 2 % 2 == w && e / 4 % 2 == u
  {
    var e := 8 * y + 4 * u + 2 * w + 1;
    assert e / 2 == 2 * (2 * y + u) + w;
    assert e / 4 == 2 * y + u;
  }

  lemma FrameField(y: nat, low: nat)
    requires low < 8
    ensures (PAGE_SIZE * y + low) / PAGE_SIZE == y && (256 * y + low) / 128 % 2 == 0
  {
  }

  lemma Wraps(f: nat, k: nat)
    requires f < FRAME_LIMIT
    ensures (f + FRAME_LIMIT * k) % FRAME_LIMIT == f
  {
  }

  lemma TopBit(r: nat, x: nat)
    requires r < NX_BIT && x < 2
    ensures (r + x * NX_BIT) / NX_BIT == x
  {
  }

  /** The three flag bits an entry can carry. */
  function Portable(flags: u32): (r: u32)
    ensures r < 8 && (flags < 8 ==> r == flags)
  {
    flags % 2 + 2 * (flags / 2 % 2) + 4 * (flags / 4 % 2)
  }

  /** What an entry says is what it was made from; only the three portable flag bits survive. */
  lemma MadePteDecodes(f: nat, flags: u32)
    requires f < FRAME_LIMIT
    ensures var e := MakePte(f, flags);
      Present(e) && !Huge(e) && FrameOf(e) == f && PteToFlags(e) == Portable(flags)
  {
    var w, u, x := flags % 2, flags / 2 % 2, flags / 4 % 2;
    var low := 4 * u + 2 * w + 1;
    var e := f * PAGE_SIZE + low + x * NX_BIT;
    assert MakePte(f, flags) == e;
    assert e == PAGE_SIZE * (f + FRAME_LIMIT * (2048 * x)) + low;
    FrameField(f + FRAME_LIMIT * (2048 * x), low);
    Wraps(f, 2048 * x);
    assert e == 256 * (f * 16 + x * (NX_BIT / 256)) + low;
    FrameField(f * 16 + x * (NX_BIT / 256), low);
    assert e == 8 * (f * 512 + x * (NX_BIT / 8)) + 4 * u + 2 * w + 1;
    LowFields(f * 512 + x * (NX_BIT / 8), w, u);
    TopBit(f * PAGE_SIZE + low, x);
  }

  lemma TableEntryPasses(f: nat)
    requires f < FRAME_LIMIT
    ensures Passes(MakePte(f, 3))
  {
    LowFields(f * 512, 1, 1);
    assert MakePte(f, 3) == 8 * (f * 512) + 7;
  }

  lemma PortableBits(flags: u32)
    ensures var r := Portable(flags); r % 2 == flags % 2 && r / 2 % 2 == flags / 2 % 2 && r / 4 % 2 == flags / 4 % 2
  {
  }
}

/** The 4-level radix tree held in physical frames, and the plain page map it stands for.
    `nodes` says which frame holds each table of the user half; `pages` is the page map. */
module PageTables {
  import opened Machine
  import opened Pte

  const ENTRIES: nat := 512
  const KERNEL_START: nat := 256

  /** A frame of 4096 bytes, seen as 512 words. */
  type Frame = s: seq<u64> | |s| == ENTRIES witness seq(ENTRIES, _ => 0)
  type Mem = seq<Frame>

  const ZERO_FRAME: Frame := seq(ENTRIES, _ => 0)

  /** A table, named by the address space it belongs to and the indices that lead to it. */
  datatype Table =
    | Pml4(root: nat)
    | Pdpt(root: nat, a: nat)
    | Pd(root: nat, a: nat, b: nat)
    | Pt(root: nat, a: nat, b: nat, c: nat)
  {
    function Child(i: nat): Table
      requires !Pt?
    {
      match this
      case Pml4(r) => Pdpt(r, i)
      case Pdpt(r, a) => Pd(r, a, i)
      case Pd(r, a, b) => Pt(r, a, b, i)
    }
    predicate Index(i: nat) { i < if Pml4? then KERNEL_START else ENTRIES }
    /** The table whose entry leads here, and that entry's index. */
    function Parent(): Table
      requires !Pml4?
    {
      match this
      case Pdpt(r, a) => Pml4(r)
      case Pd(r, a, b) => Pdpt(r, a)
      case Pt(r, a, b, c) => Pd(r, a, b)
    }
    function Last(): nat
      requires !Pml4?
    {
      match this
      case Pdpt(r, a) => a
      case Pd(r, a, b) => b
      case Pt(r, a, b, c) => c
    }
  }

  datatype Page = Page(root: nat, a: nat, b: nat, c: nat, d: nat)
  {
    function Pt(): Table { Table.Pt(root, a, b, c) }
    function Address(): nat { ((a * 512 + b) * 512 + c) * 512 * PAGE_SIZE + d * PAGE_SIZE }
  }

  datatype Mapping = Mapping(frame: nat, flags: u32)

  const USER_LIMIT: nat := 0x8000_0000_0000

  /** The page holding a virtual address: four 9-bit indices above the 12-bit offset. */
  function PageOf(root: nat, virt: nat): Page {
    Page(root, virt / 0x80_0000_0000 % 512, virt / 0x4000_0000 % 512, virt / 0x20_0000 % 512, virt / 0x1000 % 512)
  }

  ghost predicate UserPage(p: Page) { p.a < KERNEL_START && p.b < ENTRIES && p.c < ENTRIES && p.d < ENTRIES }

  lemma Digit(n: nat, d: nat)
    requires d < 512
    ensures (n * 512 + d) / 512 == n && (n * 512 + d) % 512 == d
  {
  }

  lemma PageOfAddress(p: Page)
    requires UserPage(p)
    ensures p.Address() < USER_LIMIT && PageOf(p.root, p.Address()) == p
  {
    hide PageOf;
    var n1 := p.a * 512 + p.b;
    var n2 := n1 * 512 + p.c;
    var n3 := n2 * 512 + p.d;
    assert p.Address() == n3 * PAGE_SIZE;
    assert p.Address() / PAGE_SIZE == n3;
    Digit(n2, p.d);
    Digit(n1, p.c);
    Digit(p.a, p.b);
    DigitsOf(p.root, p.Address());
  }

  /** Two user addresses have the same page exactly when they differ only in their offset. */
  lemma SamePage(root: nat, v: nat, w: nat)
    requires v < USER_LIMIT && w < USER_LIMIT
    ensures UserPage(PageOf(root, v)) && PageOf(root, v).root == root
    ensures PageOf(root, v) == PageOf(root, w) <==> v / PAGE_SIZE == w / PAGE_SIZE
  {
    hide PageOf;
    DigitsOf(root, v); DigitsOf(root, w);
  }

  function PageDigits(root: nat, n: nat): Page {
    Page(root, n / 512 / 512 / 512 % 512, n / 512 / 512 % 512, n / 512 % 512, n % 512)
  }

  lemma DigitsOf(root: nat, v: nat)
    requires v < USER_LIMIT
    ensures PageOf(root, v) == PageDigits(root, v / PAGE_SIZE)
    ensures v / PAGE_SIZE / 512 / 512 / 512 % 512 == v / PAGE_SIZE / 512 / 512 / 512 < 256
  {
    var n := v / PAGE_SIZE;
    assert v / 0x20_0000 == n / 512;
    assert v / 0x4000_0000 == n / 512 / 512;
    assert v / 0x80_0000_0000 == n / 512 / 512 / 512;
  }

  /** Entry `i` of table `t` agrees with the two ghost maps. */
  ghost predicate EntryOk(mem: Mem, nodes: map<Table, nat>, pages: map<Page, Mapping>, t: Table, i: nat)
    requires t in nodes && nodes[t] < |mem| && t.Index(i)
  {
    var e := mem[nodes[t]][i];
    if t.Pt? then
      var p := Page(t.root, t.a, t.b, t.c, i);
      (p in pages <==> Present(e)) && (Present(e) ==> pages[p] == Mapping(FrameOf(e), PteToFlags(e)))
    else
      && (t.Child(i) in nodes <==> Present(e))
      && (Present(e) ==> nodes[t.Child(i)] == FrameOf(e) && !Huge(e) && Passes(e))
  }

  /** The maps name tables in memory, each in a frame of its own, and are closed upwards. */
  ghost predicate Shape(mem: Mem, nodes: map<Table, nat>, pages: map<Page, Mapping>) {
    && (forall t :: t in nodes ==> nodes[t] < |mem|)
    && (forall t :: t in nodes && t.Pml4? ==> nodes[t] == t.root)
    && (forall t {:trigger t.Parent()} :: t in nodes && !t.Pml4? ==> t.Parent() in nodes && t.Parent().Index(t.Last()))
    && (forall p :: p in pages ==> p.Pt() in nodes && p.d < ENTRIES)
    && (forall t, u :: t in nodes && u in nodes && nodes[t] == nodes[u] ==> t == u)
  }

  ghost predicate WellFormed(mem: Mem, nodes: map<Table, nat>, pages: map<Page, Mapping>) {
    && Shape(mem, nodes, pages)
    && forall t, i: nat {:trigger EntryOk(mem, nodes, pages, t, i)} ::
         t in nodes && t.Index(i) ==> EntryOk(mem, nodes, pages, t, i)
  }

  lemma PageIndices(mem: Mem, nodes: map<Table, nat>, pages: map<Page, Mapping>, p: Page)
    requires Shape(mem, nodes, pages) && p in pages
    ensures UserPage(p) && Pml4(p.root) in nodes && Pdpt(p.root, p.a) in nodes && Pd(p.root, p.a, p.b) in nodes
  {
    assert p.Pt().Parent() == Pd(p.root, p.a, p.b);
    assert p.Pt().Parent().Parent() == Pdpt(p.root, p.a);
    assert p.Pt().Parent().Parent().Parent() == Pml4(p.root);
  }

  lemma OnThePath(mem: Mem, nodes: map<Table, nat>, pages: map<Page, Mapping>, p: Page)
    requires WellFormed(mem, nodes, pages)
    ensures p in pages ==> p.Pt() in nodes
    ensures p.Pt() in nodes ==> Pd(p.root, p.a, p.b) in nodes
    ensures Pd(p.root, p.a, p.b) in nodes ==> Pdpt(p.root, p.a) in nodes
    ensures forall t :: t in nodes ==> nodes[t] < |mem|
    ensures forall t :: t in nodes && t.Pml4? ==> nodes[t] == t.root
  {
    assert p.Pt().Parent() == Pd(p.root, p.a, p.b);
    assert Pd(p.root, p.a, p.b).Parent() == Pdpt(p.root, p.a);
  }

  /** What the code learns by reading entry `i` of table `t`. */
  lemma ReadEntry(mem: Mem, nodes: map<Table, nat>, pages: map<Page, Mapping>, t: Table, i: nat)
    requires WellFormed(mem, nodes, pages) && t in nodes && t.Index(i)
    ensures nodes[t] < |mem| && i < ENTRIES
    ensures var e := mem[nodes[t]][i];
      if t.Pt? then
        var p := Page(t.root, t.a, t.b, t.c, i);
        (p in pages <==> Present(e)) && (Present(e) ==> pages[p] == Mapping(FrameOf(e), PteToFlags(e)))
      else
        && (t.Child(i) in nodes <==> Present(e))
        && (Present(e) ==> nodes[t.Child(i)] == FrameOf(e) && !Huge(e) && Passes(e))
  {
    hide Present, FrameOf, PteToFlags, Huge, Passes;
    assert EntryOk(mem, nodes, pages, t, i);
  }

  function WithEntry(mem: Mem, f: nat, i: nat, e: u64): Mem
    requires f < |mem| && i < ENTRIES
  {
    mem[f := mem[f][i := e]]
  }

  /** `ensure_table` on an absent entry: a zeroed frame becomes the next-level table. */
  lemma AddTable(mem: Mem, nodes: map<Table, nat>, pages: map<Page, Mapping>, t: Table, i: nat, f: nat)
    requires WellFormed(mem, nodes, pages)
    requires t in nodes && !t.Pt? && t.Index(i) && t.Child(i) !in nodes
    requires f < |mem| && f < FRAME_LIMIT && forall u :: u in nodes ==> nodes[u] != f
    ensures WellFormed(WithEntry(mem[f := ZERO_FRAME], nodes[t], i, MakePte(f, 3)), nodes[t.Child(i) := f], pages)
  {
    hide MakePte, Present, FrameOf, PteToFlags, Huge, Passes;
    var c := t.Child(i);
    var mem', nodes' := WithEntry(mem[f := ZERO_FRAME], nodes[t], i, MakePte(f, 3)), nodes[c := f];
    MadePteDecodes(f, 3);
    TableEntryPasses(f);
    AddTableShape(mem, nodes, pages, t, i, f);
    forall u, j: nat | u in nodes' && u.Index(j) ensures EntryOk(mem', nodes', pages, u, j) {
      if u == c {
        NothingBelow(mem, nodes, pages, c, j);
        assert !Present(0) by { ZeroAbsent(); }
      } else if u == t && j == i {
      } else {
        assert mem'[nodes[u]][j] == mem[nodes[u]][j];
        SameEntry(mem, nodes, pages, mem', nodes', pages, u, j);
      }
    }
  }

  lemma AddTableShape(mem: Mem, nodes: map<Table, nat>, pages: map<Page, Mapping>, t: Table, i: nat, f: nat)
    requires Shape(mem, nodes, pages)
    requires t in nodes && !t.Pt? && t.Index(i)
    requires f < |mem| && forall u :: u in nodes ==> nodes[u] != f
    ensures forall mem': Mem :: |mem'| == |mem| ==> Shape(mem', nodes[t.Child(i) := f], pages)
  {
    assert t.Child(i).Parent() == t && t.Child(i).Last() == i;
  }

  /** An entry stays right when its word and what it leads to stay the same. */
  lemma SameEntry(mem: Mem, nodes: map<Table, nat>, pages: map<Page, Mapping>,
                  mem': Mem, nodes': map<Table, nat>, pages': map<Page, Mapping>, u: Table, j: nat)
    requires WellFormed(mem, nodes, pages) && u in nodes && u.Index(j)
    requires u in nodes' && nodes'[u] == nodes[u] && nodes[u] < |mem'| && mem'[nodes[u]][j] == mem[nodes[u]][j]
    requires !u.Pt? ==> var c := u.Child(j); (c in nodes <==> c in nodes') && (c in nodes ==> nodes'[c] == nodes[c])
    requires u.Pt? ==> var p := Page(u.root, u.a, u.b, u.c, j);
                       (p in pages <==> p in pages') && (p in pages ==> pages'[p] == pages[p])
    ensures EntryOk(mem', nodes', pages', u, j)
  {
    hide Present, FrameOf, PteToFlags, Huge, Passes;
    assert EntryOk(mem, nodes, pages, u, j);
  }

  lemma ZeroAbsent()
    ensures !Present(0)
  {}

  lemma NothingBelow(mem: Mem, nodes: map<Table, nat>, pages: map<Page, Mapping>, c: Table, j: nat)
    requires Shape(mem, nodes, pages) && c !in nodes
    ensures !c.Pt? ==> c.Child(j) !in nodes
    ensures c.Pt? ==> Page(c.root, c.a, c.b, c.c, j) !in pages
  {
    if !c.Pt? { assert c.Child(j).Parent() == c; }
  }

  /** The page map after entry `p` of its page table becomes `e`. */
  ghost function WithPage(pages: map<Page, Mapping>, p: Page, e: u64): (r: map<Page, Mapping>)
    ensures forall q :: q != p ==> ((q in r <==> q in pages) && (q in r ==> r[q] == pages[q]))
    ensures p in r <==> Present(e)
    ensures p in r ==> r[p] == Mapping(FrameOf(e), PteToFlags(e))
  {
    if Present(e) then pages[p := Mapping(FrameOf(e), PteToFlags(e))] else pages - {p}
  }

  /** Writing a leaf entry changes the page map at that page and nowhere else. */
  lemma WriteLeaf(mem: Mem, nodes: map<Table, nat>, pages: map<Page, Mapping>, p: Page, e: u64)
    requires WellFormed(mem, nodes, pages)
    requires p.Pt() in nodes && p.d < ENTRIES
    ensures WellFormed(WithEntry(mem, nodes[p.Pt()], p.d, e), nodes, WithPage(pages, p, e))
  {
    hide Present, FrameOf, PteToFlags, Huge, WithPage, Passes;
    var mem', pages' := WithEntry(mem, nodes[p.Pt()], p.d, e), WithPage(pages, p, e);
    assert Shape(mem', nodes, pages');
    forall u, j: nat | u in nodes && u.Index(j) ensures EntryOk(mem', nodes, pages', u, j) {
      if !(u == p.Pt() && j == p.d) {
        assert mem'[nodes[u]][j] == mem[nodes[u]][j];
        SameEntry(mem, nodes, pages, mem', nodes, pages', u, j);
      }
    }
  }

  /** Writing a frame that holds no table changes nothing about the tables. */
  lemma WriteData(mem: Mem, nodes: map<Table, nat>, pages: map<Page, Mapping>, f: nat, data: Frame)
    requires WellFormed(mem, nodes, pages)
    requires f < |mem| && forall u :: u in nodes ==> nodes[u] != f
    ensures WellFormed(mem[f := data], nodes, pages)
  {
    hide Present, FrameOf, PteToFlags, Huge, Passes;
    forall u, j: nat | u in nodes && u.Index(j) ensures EntryOk(mem[f := data], nodes, pages, u, j) {
      SameEntry(mem, nodes, pages, mem[f := data], nodes, pages, u, j);
    }
  }

  /** A new root whose user half is empty starts an address space with no pages. */
  lemma AddRoot(mem: Mem, nodes: map<Table, nat>, pages: map<Page, Mapping>, f: nat, top: Frame)
    requires WellFormed(mem, nodes, pages)
    requires f < |mem| && forall u :: u in nodes ==> nodes[u] != f
    requires forall i :: 0 <= i < KERNEL_START ==> top[i] == 0
    ensures WellFormed(mem[f := top], nodes[Pml4(f) := f], pages)
    ensures forall p :: p in pages ==> p.root != f
  {
    hide Present, FrameOf, PteToFlags, Huge, Passes;
    assert Pml4(f) !in nodes;
    var mem', nodes' := mem[f := top], nodes[Pml4(f) := f];
    assert Shape(mem', nodes', pages);
    forall u, j: nat | u in nodes' && u.Index(j) ensures EntryOk(mem', nodes', pages, u, j) {
      if u == Pml4(f) {
        NothingBelow(mem, nodes, pages, u, j);
        assert !Present(0) by { ZeroAbsent(); }
      } else {
        SameEntry(mem, nodes, pages, mem', nodes', pages, u, j);
      }
    }
    forall p | p in pages ensures p.root != f { PageIndices(mem, nodes, pages, p); }
  }

  ghost function OtherTables(nodes: map<Table, nat>, root: nat): map<Table, nat> {
    map t | t in nodes && t.root != root :: nodes[t]
  }

  ghost function OtherPages(pages: map<Page, Mapping>, root: nat): map<Page, Mapping> {
    map p | p in pages && p.root != root :: pages[p]
  }

  lemma DropSpace(mem: Mem, nodes: map<Table, nat>, pages: map<Page, Mapping>, root: nat)
    requires WellFormed(mem, nodes, pages)
    ensures WellFormed(mem, OtherTables(nodes, root), OtherPages(pages, root))
  {
    hide Present, FrameOf, PteToFlags, Huge, Passes;
    var nodes', pages' := OtherTables(nodes, root), OtherPages(pages, root);
    assert Shape(mem, nodes', pages') by {
      forall t | t in nodes' && !t.Pml4? ensures t.Parent() in nodes' { assert t.Parent().root == t.root; }
    }
    forall u, j: nat | u in nodes' && u.Index(j) ensures EntryOk(mem, nodes', pages', u, j) {
      SameEntry(mem, nodes, pages, mem, nodes', pages', u, j);
    }
  }
}
