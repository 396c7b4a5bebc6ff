/** How the processor translates an address, by section 4.5 of the Intel SDM volume 3A, on the words in memory. */
module CpuWalk {
  import opened Machine
  import opened Bits
  import opened Pte
  import opened PageTables
  import Counters

  /** A page fault, a large page, or a translation with the rights that every level grants. */
  datatype Access = Fault | Large | Hit(phys: nat, writable: bool, user: bool, executable: bool)

  function Entry(mem: Mem, table: nat,
                 index: nat): u64 { if table < |mem| && index < 512 then mem[table][index] else 0 }

  /** Bits 12 to 51. */
  function Target(e: u64): nat { e / 0x1000 % 0x100_0000_0000 }

  /** The four entries on the way, one 9-bit field of the address each, from the root. */
  function Rights(e4: u64, e3: u64, e2: u64, e1: u64, offset: nat): Access {
    Hit(Target(e1) * 0x1000 + offset,
        Bit(e4, 1) && Bit(e3, 1) && Bit(e2, 1) && Bit(e1, 1),
        Bit(e4, 2) && Bit(e3, 2) && Bit(e2, 2) && Bit(e1, 2),
        !Bit(e4, 63) && !Bit(e3, 63) && !Bit(e2, 63) && !Bit(e1, 63))
  }

  function Walk(mem: Mem, root: nat, virt: nat): Access {
    var e4 := Entry(mem, root, virt / 0x80_0000_0000 % 512);
    if !Bit(e4, 0) then Fault else
    var e3 := Entry(mem, Target(e4), virt / 0x4000_0000 % 512);
    if !Bit(e3, 0) then Fault else if Bit(e3, 7) then Large else
    var e2 := Entry(mem, Target(e3), virt / 0x20_0000 % 512);
    if !Bit(e2, 0) then Fault else if Bit(e2, 7) then Large else
    var e1 := Entry(mem, Target(e2), virt / 0x1000 % 512);
    if !Bit(e1, 0) then Fault else Rights(e4, e3, e2, e1, virt % 0x1000)
  }

  // ----- single bits -----

  lemma {:induction false} BitIs(w: nat, i: nat)
    ensures Bit(w, i) <==> w / Pow2(i) % 2 == 1
  {
    if i > 0 {
      BitIs(w / 2, i - 1);
      Halve(w, Pow2(i - 1));
    }
  }

  lemma Halve(w: nat, p: nat)
    requires p > 0
    ensures w / 2 / p == w / (2 * p)
  {
    var q, r := w / (2 * p), w % (2 * p);
    assert w == q * (2 * p) + r;
    assert q * (2 * p) == 2 * (q * p);
    assert w / 2 == q * p + r / 2;
    Counters.QuotientIs(w / 2, p, q, r / 2);
  }

  lemma OneBit(w: nat, i: nat, p: nat)
    requires Pow2(i) == p
    ensures Bit(w, i) <==> w / p % 2 == 1
  {
    BitIs(w, i);
  }

  lemma Pow2Small()
    ensures Pow2(0) == 1 && Pow2(1) == 2 && Pow2(2) == 4 && Pow2(7) == 128
  {
  }

  lemma Pow2Of63()
    ensures Pow2(63) == 0x8000_0000_0000_0000
  {
    Pow2Of64();
    assert Pow2(64) == 2 * Pow2(63);
  }

  /** The bits the processor looks at, and what the kernel's own tests read. */
  lemma EntryBits(e: u64)
    ensures (Bit(e, 0) <==> Present(e)) && (Bit(e, 7) <==> Huge(e)) && Target(e) == FrameOf(e)
    ensures (Bit(e, 1) <==> e / 2 % 2 == 1) && (Bit(e, 2) <==> e / 4 % 2 == 1)
    ensures Bit(e, 63) <==> e >= 0x8000_0000_0000_0000
  {
    Pow2Small();
    Pow2Of63();
    hide Bit, Pow2;
    OneBit(e, 0, 1);
    OneBit(e, 1, 2);
    OneBit(e, 2, 4);
    OneBit(e, 7, 128);
    OneBit(e, 63, 0x8000_0000_0000_0000);
  }

  lemma LeafRights(e: u64)
    ensures var flags := PteToFlags(e);
      (Bit(e, 1) <==> flags % 2 == 1) && (Bit(e, 2) <==> flags / 2 % 2 == 1) && (Bit(e, 63) <==> flags / 4 % 2 == 1)
  {
    EntryBits(e);
    hide Bit;
  }

  lemma PassesAll(e: u64)
    requires Passes(e)
    ensures Bit(e, 1) && Bit(e, 2) && !Bit(e, 63)
  {
    EntryBits(e);
    hide Bit;
  }

  /** What an address must come to, by the plain page map. */
  ghost function Mapped(pages: map<Page, Mapping>, root: nat, virt: nat): Access {
    var p := PageOf(root, virt);
    if p in pages then
      var m := pages[p];
      Hit(m.frame * PAGE_SIZE + virt % PAGE_SIZE, m.flags % 2 == 1, m.flags / 2 % 2 == 1, m.flags / 4 % 2 == 0)
    else Fault
  }

  /** The address's table on a level, and the entry the walk reads there. */
  lemma Level(mem: Mem, nodes: map<Table, nat>, pages: map<Page, Mapping>, t: Table, i: nat)
    requires WellFormed(mem, nodes, pages) && t in nodes && t.Index(i)
    ensures var e := Entry(mem, nodes[t], i);
      if t.Pt? then
        var p := Page(t.root, t.a, t.b, t.c, i);
        && (Bit(e, 0) <==> p in pages)
        && (p in pages ==>
            && Target(e) == pages[p].frame && (Bit(e, 1) <==> pages[p].flags % 2 == 1)
            && (Bit(e, 2) <==> pages[p].flags / 2 % 2 == 1) && (Bit(e, 63) <==> pages[p].flags / 4 % 2 == 1))
      else
        && (Bit(e, 0) <==> t.Child(i) in nodes)
        && (t.Child(i) in nodes ==>
            Target(e) == nodes[t.Child(i)] && Bit(e, 1) && Bit(e, 2) && !Bit(e, 7) && !Bit(e, 63))
  {
    hide Bit, Present, FrameOf, PteToFlags, Huge, Passes, WellFormed, Target;
    ReadEntry(mem, nodes, pages, t, i);
    var e := mem[nodes[t]][i];
    assert Entry(mem, nodes[t], i) == e;
    EntryBits(e);
    LeafRights(e);
    if Present(e) && !t.Pt? { PassesAll(e); }
  }

  /** On every well-formed space the processor translates every user address as the page map says, with the
      rights the page was mapped with: nothing on the way down takes one away. */
  lemma WalkAgrees(mem: Mem, nodes: map<Table, nat>, pages: map<Page, Mapping>, root: nat, virt: nat)
    requires WellFormed(mem, nodes, pages) && Pml4(root) in nodes && virt < USER_LIMIT
    ensures Walk(mem, root, virt) == Mapped(pages, root, virt)
  {
    var p := PageOf(root, virt);
    SamePage(root, virt, virt);
    assert p.a == virt / 0x80_0000_0000 % 512 && p.b == virt / 0x4000_0000 % 512;
    assert p.c == virt / 0x20_0000 % 512 && p.d == virt / 0x1000 % 512;
    hide Bit, WellFormed, PageOf, Entry, Target;
    OnThePath(mem, nodes, pages, p);
    Level(mem, nodes, pages, Pml4(root), p.a);
    if Pdpt(root, p.a) in nodes {
      Level(mem, nodes, pages, Pdpt(root, p.a), p.b);
      if Pd(root, p.a, p.b) in nodes {
        Level(mem, nodes, pages, Pd(root, p.a, p.b), p.c);
        if p.Pt() in nodes { Level(mem, nodes, pages, p.Pt(), p.d); }
      }
    }
  }
}
