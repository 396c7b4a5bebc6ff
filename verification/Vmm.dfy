/** Address spaces: 4-level page tables built in frames taken from the page allocator. */
module VirtualMemory {
  import opened Machine
  import opened Pte
  import opened PageTables
  import opened CpuWalk
  import opened PhysicalPages

  /** The frames that hold the tables of one address space. */
  ghost function RootTables(nodes: map<Table, nat>, root: nat): set<nat> {
    set t | t in nodes && t.root == root :: nodes[t]
  }

  ghost function LeafFrames(pages: map<Page, Mapping>): set<nat> {
    set p | p in pages :: pages[p].frame
  }

  /** Only address space `root` gained tables, from free frames, and only free frames and
      the tables of `root` were written. */
  ghost predicate Grew(root: nat, mem: Mem, nodes: map<Table, nat>, free: set<nat>,
                       mem': Mem, nodes': map<Table, nat>, free': set<nat>)
  {
    && free' <= free && |mem'| == |mem|
    && (forall t :: t in nodes ==> t in nodes' && nodes'[t] == nodes[t])
    && (forall t :: t in nodes' && t !in nodes ==> t.root == root && nodes'[t] in free - free')
    && nodes'.Values == nodes.Values + (free - free')
    && (forall f :: 0 <= f < |mem| && f !in free && f !in RootTables(nodes, root) ==> mem'[f] == mem[f])
  }

  lemma GrewTrans(root: nat, mem: Mem, nodes: map<Table, nat>, free: set<nat>,
                  mem': Mem, nodes': map<Table, nat>, free': set<nat>,
                  mem'': Mem, nodes'': map<Table, nat>, free'': set<nat>)
    requires Grew(root, mem, nodes, free, mem', nodes', free')
    requires Grew(root, mem', nodes', free', mem'', nodes'', free'')
    ensures Grew(root, mem, nodes, free, mem'', nodes'', free'')
  {
    assert (free - free') + (free' - free'') == free - free'';
    forall f | 0 <= f < |mem| && f !in free && f !in RootTables(nodes, root) ensures f !in RootTables(nodes', root) {
    }
  }

  /** The tables below the root on the way down to a page. */
  ghost function Path(p: Page): set<Table> { {Pdpt(p.root, p.a), Pd(p.root, p.a, p.b), p.Pt()} }

  /** Each table added took one free page. With `ok` all of `wanted` is there; without, memory has run
      out and something wanted is missing. */
  ghost predicate TablesAdded(nodes: map<Table, nat>, free: set<nat>, nodes': map<Table, nat>, free': set<nat>,
                              wanted: set<Table>, ok: bool)
  {
    && |nodes'| + |free'| == |nodes| + |free| && nodes.Keys <= nodes'.Keys <= nodes.Keys + wanted
    && (ok <==> wanted <= nodes'.Keys) && (!ok ==> free' == {})
  }

  lemma AddNone(nodes: map<Table, nat>, free: set<nat>)
    ensures TablesAdded(nodes, free, nodes, free, {}, true)
  {
  }

  lemma AddMore(n0: map<Table, nat>, f0: set<nat>, n1: map<Table, nat>, f1: set<nat>, n2: map<Table, nat>, f2: set<nat>,
                first: set<Table>, second: set<Table>, ok: bool)
    requires TablesAdded(n0, f0, n1, f1, first, true) && TablesAdded(n1, f1, n2, f2, second, ok)
    ensures TablesAdded(n0, f0, n2, f2, first + second, ok)
  {
  }

  lemma WantMore(nodes: map<Table, nat>, free: set<nat>, nodes': map<Table, nat>, free': set<nat>,
                 wanted: set<Table>, more: set<Table>)
    requires TablesAdded(nodes, free, nodes', free', wanted, false) && wanted <= more
    ensures TablesAdded(nodes, free, nodes', free', more, false)
  {
  }

  lemma NoneLeft(nodes: map<Table, nat>, free: set<nat>, nodes': map<Table, nat>, free': set<nat>, wanted: set<Table>)
    requires TablesAdded(nodes, free, nodes', free', wanted, false)
    ensures free' == {}
  {
  }

  /** So it succeeds exactly when the missing tables fit in the free pages. */
  lemma EnoughPages(nodes: map<Table, nat>, free: set<nat>, nodes': map<Table, nat>, free': set<nat>,
                    wanted: set<Table>, ok: bool)
    requires TablesAdded(nodes, free, nodes', free', wanted, ok)
    ensures ok <==> |wanted - nodes.Keys| <= |free|
  {
    assert nodes.Keys + wanted == nodes.Keys + (wanted - nodes.Keys);
    assert |nodes.Keys + wanted| == |nodes| + |wanted - nodes.Keys|;
    if ok {
      assert nodes'.Keys == nodes.Keys + wanted;
    } else {
      var t :| t in wanted && t !in nodes'.Keys;
      SubsetSize(nodes'.Keys + {t}, nodes.Keys + wanted);
    }
  }

  lemma TableStays(root: nat, mem: Mem, nodes: map<Table, nat>, free: set<nat>,
                   mem': Mem, nodes': map<Table, nat>, free': set<nat>, t: Table)
    requires Grew(root, mem, nodes, free, mem', nodes', free') && t in nodes
    ensures t in nodes'
  {
  }

  ghost predicate KernelHalf(mem: Mem, nodes: map<Table, nat>, kernelRoot: nat) {
    && kernelRoot < |mem|
    && forall t :: t in nodes && t.Pml4? ==>
      t.root < |mem| && mem[t.root][KERNEL_START..] == mem[kernelRoot][KERNEL_START..]
  }

  ghost predicate TablesTaken(nodes: map<Table, nat>, free: set<nat>, kernelRoot: nat) {
    forall t :: t in nodes ==> nodes[t] !in free && nodes[t] != 0 && nodes[t] != kernelRoot
  }

  lemma GrewByTable(mem: Mem, nodes: map<Table, nat>, pages: map<Page, Mapping>, free: set<nat>, kernelRoot: nat,
                    t: Table, i: nat, f: nat)
    requires WellFormed(mem, nodes, pages) && TablesTaken(nodes, free, kernelRoot) && KernelHalf(mem, nodes, kernelRoot)
    requires t in nodes && !t.Pt? && t.Index(i) && t.Child(i) !in nodes
    requires f in free && f < |mem| && f < FRAME_LIMIT && f != 0 && f != kernelRoot
    ensures nodes[t] < |mem|
    ensures var mem', nodes' := WithEntry(mem[f := ZERO_FRAME], nodes[t], i, MakePte(f, 3)), nodes[t.Child(i) := f];
      && Grew(t.root, mem, nodes, free, mem', nodes', free - {f})
      && WellFormed(mem', nodes', pages)
      && TablesTaken(nodes', free - {f}, kernelRoot) && KernelHalf(mem', nodes', kernelRoot)
  {
    hide MakePte, EntryOk, WellFormed;
    AddTable(mem, nodes, pages, t, i, f);
    ReadEntry(mem, nodes, pages, t, i);
    TableKernelHalf(mem, nodes, pages, kernelRoot, t, i, f);
    ValuesAfterAdd(nodes, t.Child(i), f);
    assert free - (free - {f}) == {f};
  }

  lemma ValuesAfterAdd<K(!new), V(!new)>(m: map<K, V>, k: K, v: V)
    requires k !in m
    ensures m[k := v].Values == m.Values + {v}
  {
    assert k in m[k := v];
    forall x | x in m.Values ensures x in m[k := v].Values {
      var u :| u in m && m[u] == x;
      assert u in m[k := v];
    }
  }

  lemma TableKernelHalf(mem: Mem, nodes: map<Table, nat>, pages: map<Page, Mapping>, kernelRoot: nat, t: Table,
                        i: nat, f: nat)
    requires WellFormed(mem, nodes, pages) && KernelHalf(mem, nodes, kernelRoot)
    requires t in nodes && !t.Pt? && t.Index(i) && nodes[t] != kernelRoot
    requires f < |mem| && f < FRAME_LIMIT && f != kernelRoot && forall u :: u in nodes ==> nodes[u] != f
    ensures nodes[t] < |mem|
    ensures KernelHalf(WithEntry(mem[f := ZERO_FRAME], nodes[t], i, MakePte(f, 3)), nodes[t.Child(i) := f], kernelRoot)
  {
    hide MakePte, EntryOk;
    var mem', nodes' := WithEntry(mem[f := ZERO_FRAME], nodes[t], i, MakePte(f, 3)), nodes[t.Child(i) := f];
    forall u | u in nodes' && u.Pml4?
      ensures u.root < |mem'| && mem'[u.root][KERNEL_START..] == mem'[kernelRoot][KERNEL_START..]
    {
      assert u in nodes && nodes[u] == u.root;
      assert mem'[u.root][KERNEL_START..] == mem[u.root][KERNEL_START..];
    }
  }

  lemma GrewRefl(root: nat, mem: Mem, nodes: map<Table, nat>, free: set<nat>)
    ensures Grew(root, mem, nodes, free, mem, nodes, free)
  {
    assert free - free == {};
  }

  /** The tables on the way to a page exist from the top down. */
  lemma LeafWritten(mem: Mem, nodes: map<Table, nat>, pages: map<Page, Mapping>, free: set<nat>, kernelRoot: nat,
                    p: Page, e: u64)
    requires WellFormed(mem, nodes, pages) && TablesTaken(nodes, free, kernelRoot) && KernelHalf(mem, nodes, kernelRoot)
    requires p.Pt() in nodes && p.d < ENTRIES
    ensures nodes[p.Pt()] < |mem|
    ensures var mem' := WithEntry(mem, nodes[p.Pt()], p.d, e);
      && Grew(p.root, mem, nodes, free, mem', nodes, free)
      && WellFormed(mem', nodes, WithPage(pages, p, e)) && KernelHalf(mem', nodes, kernelRoot)
  {
    hide EntryOk, WithPage;
    WriteLeaf(mem, nodes, pages, p, e);
    GrewRefl(p.root, mem, nodes, free);
    assert nodes[p.Pt()] in RootTables(nodes, p.root);
    var mem' := WithEntry(mem, nodes[p.Pt()], p.d, e);
    forall u | u in nodes && u.Pml4?
      ensures u.root < |mem'| && mem'[u.root][KERNEL_START..] == mem'[kernelRoot][KERNEL_START..]
    {
      assert nodes[u] == u.root != nodes[p.Pt()];
    }
  }

  lemma RootKernelHalf(mem: Mem, nodes: map<Table, nat>, pages: map<Page, Mapping>, kernelRoot: nat, f: nat, top: Frame)
    requires WellFormed(mem, nodes, pages) && KernelHalf(mem, nodes, kernelRoot)
    requires f < |mem| && f != kernelRoot && forall u :: u in nodes ==> nodes[u] != f
    requires top[KERNEL_START..] == mem[kernelRoot][KERNEL_START..]
    ensures KernelHalf(mem[f := top], nodes[Pml4(f) := f], kernelRoot)
  {
    hide EntryOk;
  }

  class Vmm {
    const pmm: Pmm
    const kernelRoot: nat
    var mem: Mem
    ghost var nodes: map<Table, nat>
    ghost var pages: map<Page, Mapping>
    /** Pages taken from the allocator that no table points to. */
    ghost var held: set<nat>
    /** All the pages this module and its callers share with the allocator. */
    ghost const universe: set<nat>

    ghost predicate Valid()
      reads `mem, `nodes, `pages, pmm, pmm.bitmap
    {
      && pmm.Valid() && |mem| == pmm.totalPages <= FRAME_LIMIT
      && 0 < kernelRoot < |mem| && kernelRoot !in pmm.free
      && WellFormed(mem, nodes, pages)
      && TablesTaken(nodes, pmm.free, kernelRoot)
      && KernelHalf(mem, nodes, kernelRoot)
    }

    /** After `vmm_init`: the kernel's own tables exist, no user address space does. */
    constructor (pmm: Pmm, kernelRoot: nat, mem: Mem)
      requires pmm.Valid() && |mem| == pmm.totalPages <= FRAME_LIMIT
      requires 0 < kernelRoot < |mem| && kernelRoot !in pmm.free
      ensures Valid() && nodes == map[] && pages == map[] && held == {} && universe == pmm.free
      ensures this.pmm == pmm && this.mem == mem && this.kernelRoot == kernelRoot
    {
      this.pmm, this.kernelRoot, this.mem := pmm, kernelRoot, mem;
      nodes, pages, held, universe := map[], map[], {}, pmm.free;
    }

    /** `ensure_table`; `None` is the kernel panic of `alloc_table_page`. */
    method EnsureTable(table: nat, index: nat, ghost t: Table) returns (r: Option<nat>)
      requires Valid()
      requires t in nodes && nodes[t] == table && !t.Pt? && t.Index(index)
      modifies this`mem, this`nodes, pmm, pmm.bitmap
      ensures Valid() && Grew(t.root, old(mem), old(nodes), old(pmm.free), mem, nodes, pmm.free)
      ensures r.None? <==> t.Child(index) !in nodes
      ensures r.None? ==> pmm.free == {}
      ensures r.Some? ==> nodes[t.Child(index)] == r.value
      ensures TablesAdded(old(nodes), old(pmm.free), nodes, pmm.free, {t.Child(index)}, r.Some?)
    {
      hide Present, FrameOf, PteToFlags, Huge, MakePte, Portable, Pmm.Tracks, WellFormed, Grew, TablesTaken,
           KernelHalf;
      ReadEntry(mem, nodes, pages, t, index);
      GrewRefl(t.root, mem, nodes, pmm.free);
      if !Present(mem[table][index]) {
        var phys := pmm.AllocPage();
        if phys == 0 { return None; }
        var f := phys / PAGE_SIZE;
        GrewByTable(mem, nodes, pages, old(pmm.free), kernelRoot, t, index, f);
        mem := mem[f := ZERO_FRAME];
        mem := WithEntry(mem, table, index, MakePte(f, 3));
        nodes := nodes[t.Child(index) := f];
        ReadEntry(mem, nodes, pages, t, index);
      }
      r := Some(FrameOf(mem[table][index]));
    }

    /** `walk_to_pt_entry`: the page table for `virt`, when every level above it is present. */
    method WalkToPt(root: nat, virt: nat) returns (pt: Option<nat>)
      requires Valid() && Pml4(root) in nodes && virt < USER_LIMIT
      ensures pt.Some? <==> PageOf(root, virt).Pt() in nodes
      ensures pt.Some? ==> nodes[PageOf(root, virt).Pt()] == pt.value
    {
      hide Present, FrameOf, PteToFlags, Huge, Pmm.Tracks, PageOf, WellFormed, TablesTaken, KernelHalf;
      SamePage(root, virt, virt);
      ghost var p := PageOf(root, virt);
      var a, b, c := PageOf(root, virt).a, PageOf(root, virt).b, PageOf(root, virt).c;
      OnThePath(mem, nodes, pages, p);
      ReadEntry(mem, nodes, pages, Pml4(root), a);
      if !Present(mem[root][a]) { return None; }
      var pdpt := FrameOf(mem[root][a]);
      ReadEntry(mem, nodes, pages, Pdpt(root, a), b);
      if !Present(mem[pdpt][b]) { return None; }
      var pd := FrameOf(mem[pdpt][b]);
      ReadEntry(mem, nodes, pages, Pd(root, a, b), c);
      if !Present(mem[pd][c]) { return None; }
      return Some(FrameOf(mem[pd][c]));
    }

    /** `vmm_get_phys_in` agrees with the page map; 0 means not mapped. */
    method GetPhysIn(root: nat, virt: nat) returns (phys: nat)
      requires Valid() && Pml4(root) in nodes && virt < USER_LIMIT
      ensures phys == Translate(pages, root, virt)
      ensures match Walk(mem, root, virt) case Hit(p, _, _, _) => phys == p case _ => phys == 0
    {
      hide Present, FrameOf, PteToFlags, Huge, Pmm.Tracks, PageOf, WellFormed, TablesTaken, KernelHalf, Walk;
      WalkAgrees(mem, nodes, pages, root, virt);
      SamePage(root, virt, virt);
      OnThePath(mem, nodes, pages, PageOf(root, virt));
      var pt := WalkToPt(root, virt);
      if pt == None { return 0; }
      var d := PageOf(root, virt).d;
      ReadEntry(mem, nodes, pages, PageOf(root, virt).Pt(), d);
      if !Present(mem[pt.value][d]) { return 0; }
      phys := FrameOf(mem[pt.value][d]) * PAGE_SIZE + virt % PAGE_SIZE;
    }

    /** `vmm_unmap_page_in`: the page leaves the page map; nothing else changes. */
    method UnmapPageIn(root: nat, virt: nat)
      requires Valid() && Pml4(root) in nodes && virt < USER_LIMIT
      modifies this`mem, this`pages
      ensures Valid() && Grew(root, old(mem), nodes, pmm.free, mem, nodes, pmm.free)
      ensures pages == old(pages) - {PageOf(root, virt)} && Walk(mem, root, virt) == Fault
    {
      hide Present, FrameOf, PteToFlags, Huge, Pmm.Tracks, PageOf, WellFormed, TablesTaken, KernelHalf, Grew,
           WithPage, Walk;
      SamePage(root, virt, virt);
      OnThePath(mem, nodes, pages, PageOf(root, virt));
      GrewRefl(root, mem, nodes, pmm.free);
      var pt := WalkToPt(root, virt);
      if pt == None {
        WalkAgrees(mem, nodes, pages, root, virt);
        return;
      }
      var d := PageOf(root, virt).d;
      LeafWritten(mem, nodes, pages, pmm.free, kernelRoot, PageOf(root, virt), 0);
      assert WithPage(pages, PageOf(root, virt), 0) == pages - {PageOf(root, virt)} by { ZeroAbsent(); }
      mem := WithEntry(mem, pt.value, d, 0);
      pages := pages - {PageOf(root, virt)};
      WalkAgrees(mem, nodes, pages, root, virt);
    }

    /** The three `ensure_table` calls of `vmm_map_page_in`. */
    method EnsurePath(root: nat, virt: nat) returns (pt: Option<nat>)
      requires Valid() && Pml4(root) in nodes && virt < USER_LIMIT
      modifies this`mem, this`nodes, pmm, pmm.bitmap
      ensures Valid() && Grew(root, old(mem), old(nodes), old(pmm.free), mem, nodes, pmm.free)
      ensures TablesAdded(old(nodes), old(pmm.free), nodes, pmm.free, Path(PageOf(root, virt)), pt.Some?)
      ensures pt.Some? ==> PageOf(root, virt).Pt() in nodes && nodes[PageOf(root, virt).Pt()] == pt.value
    {
      hide Pmm.Tracks, PageOf, WellFormed, TablesTaken, KernelHalf, Grew, TablesAdded;
      SamePage(root, virt, virt);
      OnThePath(mem, nodes, pages, PageOf(root, virt));
      ghost var mem0, nodes0, free0 := mem, nodes, pmm.free;
      var a, b, c := PageOf(root, virt).a, PageOf(root, virt).b, PageOf(root, virt).c;
      ghost var w1, w2, w3 := {Pdpt(root, a)}, {Pd(root, a, b)}, {Pt(root, a, b, c)};
      assert Path(PageOf(root, virt)) == w1 + w2 + w3;
      var pdpt := EnsureTable(root, a, Pml4(root));
      if pdpt == None {
        WantMore(nodes0, free0, nodes, pmm.free, w1, w1 + w2 + w3);
        return None;
      }
      ghost var mem1, nodes1, free1 := mem, nodes, pmm.free;
      var pd := EnsureTable(pdpt.value, b, Pdpt(root, a));
      GrewTrans(root, mem0, nodes0, free0, mem1, nodes1, free1, mem, nodes, pmm.free);
      AddMore(nodes0, free0, nodes1, free1, nodes, pmm.free, w1, w2, pd.Some?);
      if pd == None {
        WantMore(nodes0, free0, nodes, pmm.free, w1 + w2, w1 + w2 + w3);
        return None;
      }
      ghost var mem2, nodes2, free2 := mem, nodes, pmm.free;
      pt := EnsureTable(pd.value, c, Pd(root, a, b));
      GrewTrans(root, mem0, nodes0, free0, mem2, nodes2, free2, mem, nodes, pmm.free);
      AddMore(nodes0, free0, nodes2, free2, nodes, pmm.free, w1 + w2, w3, pt.Some?);
    }

    /** `vmm_map_page_in`: the page map changes at `virt`'s page and nowhere else, whatever tables
        had to be added. `ok` is false on the kernel panic of `alloc_table_page`, which happens
        exactly when there are fewer free pages than tables missing on the way down. */
    method MapPageIn(root: nat, virt: nat, phys: nat, flags: u32) returns (ok: bool)
      requires Valid() && Pml4(root) in nodes && virt < USER_LIMIT
      requires phys % PAGE_SIZE == 0 && phys / PAGE_SIZE < FRAME_LIMIT
      modifies this`mem, this`nodes, this`pages, pmm, pmm.bitmap
      ensures Valid() && Grew(root, old(mem), old(nodes), old(pmm.free), mem, nodes, pmm.free)
      ensures ok ==> pages == old(pages)[PageOf(root, virt) := Mapping(phys / PAGE_SIZE, Portable(flags))]
      ensures !ok ==> pages == old(pages) && pmm.free == {}
      ensures TablesAdded(old(nodes), old(pmm.free), nodes, pmm.free, Path(PageOf(root, virt)), ok)
      ensures ok <==> |Path(PageOf(root, virt)) - old(nodes).Keys| <= |old(pmm.free)|
      ensures ok ==>
        Walk(mem, root, virt) == Hit(phys + virt % PAGE_SIZE, flags % 2 == 1, flags / 2 % 2 == 1, flags / 4 % 2 == 0)
    {
      hide Present, FrameOf, PteToFlags, Huge, MakePte, Portable, Pmm.Tracks, PageOf, WellFormed, TablesTaken,
           KernelHalf, Grew, WithPage, TablesAdded, Path;
      SamePage(root, virt, virt);
      var pt := EnsurePath(root, virt);
      ok := pt.Some?;
      EnoughPages(old(nodes), old(pmm.free), nodes, pmm.free, Path(PageOf(root, virt)), ok);
      if !ok {
        NoneLeft(old(nodes), old(pmm.free), nodes, pmm.free, Path(PageOf(root, virt)));
        return;
      }
      ghost var mem1 := mem;
      var d := PageOf(root, virt).d;
      OnThePath(mem, nodes, pages, PageOf(root, virt));
      LeafWritten(mem, nodes, pages, pmm.free, kernelRoot, PageOf(root, virt), MakePte(phys / PAGE_SIZE, flags));
      MadePteDecodes(phys / PAGE_SIZE, flags);
      assert WithPage(pages, PageOf(root, virt), MakePte(phys / PAGE_SIZE, flags))
          == pages[PageOf(root, virt) := Mapping(phys / PAGE_SIZE, Portable(flags))];
      mem := WithEntry(mem, pt.value, d, MakePte(phys / PAGE_SIZE, flags));
      pages := pages[PageOf(root, virt) := Mapping(phys / PAGE_SIZE, Portable(flags))];
      GrewTrans(root, old(mem), old(nodes), old(pmm.free), mem1, nodes, pmm.free, mem, nodes, pmm.free);
      TableStays(root, old(mem), old(nodes), old(pmm.free), mem, nodes, pmm.free, Pml4(root));
      HitMapped(mem, nodes, pages, root, virt, phys, flags);
    }

    /** `vmm_create_user_pml4`: an empty user half under the kernel's upper half. */
    method CreateUserPml4() returns (root: Option<nat>)
      requires Valid()
      modifies this`mem, this`nodes, pmm, pmm.bitmap
      ensures Valid()
      ensures root.None? ==> old(pmm.free) == {} && pmm.free == {} && mem == old(mem) && nodes == old(nodes)
      ensures root.Some? ==>
        && root.value in old(pmm.free) && pmm.free == old(pmm.free) - {root.value}
        && nodes == old(nodes)[Pml4(root.value) := root.value] && Pml4(root.value) !in old(nodes)
        && (forall p :: p in pages ==> p.root != root.value)
        && |mem| == |old(mem)| && (forall f :: 0 <= f < |mem| && f != root.value ==> mem[f] == old(mem)[f])
        && (forall i :: 0 <= i < 256 ==> mem[root.value][i] == 0)
        && (forall i :: 256 <= i < 512 ==> mem[root.value][i] == mem[kernelRoot][i])
    {
      hide Present, FrameOf, PteToFlags, Huge, MakePte, Portable, Pmm.Tracks, WellFormed, KernelHalf;
      var phys := pmm.AllocPage();
      if phys == 0 { return None; }
      var f := phys / PAGE_SIZE;
      OnThePath(mem, nodes, pages, Page(0, 0, 0, 0, 0));
      var top: Frame := ZERO_FRAME;
      for i := KERNEL_START to ENTRIES
        invariant |top| == ENTRIES
        invariant forall j :: 0 <= j < KERNEL_START ==> top[j] == 0
        invariant forall j :: KERNEL_START <= j < i ==> top[j] == mem[kernelRoot][j]
      {
        top := top[i := mem[kernelRoot][i]];
      }
      AddRoot(mem, nodes, pages, f, top);
      RootKernelHalf(mem, nodes, pages, kernelRoot, f, top);
      mem := mem[f := top];
      nodes := nodes[Pml4(f) := f];
      root := Some(f);
    }

    /** The upper half of the address space is the same in every address space: the kernel's. */
    lemma KernelEverywhere(root: nat, i: nat)
      requires Valid() && Pml4(root) in nodes && 256 <= i < 512
      ensures root < |mem| && kernelRoot < |mem| && mem[root][i] == mem[kernelRoot][i]
    {
      hide Pmm.Valid, WellFormed, TablesTaken;
      assert mem[root][i] == mem[root][KERNEL_START..][i - KERNEL_START];
      assert mem[kernelRoot][i] == mem[kernelRoot][KERNEL_START..][i - KERNEL_START];
    }
  }

  /** The processor finds a mapped page with the rights asked for. */
  lemma HitMapped(mem: Mem, nodes: map<Table, nat>, pages: map<Page, Mapping>, root: nat, virt: nat, phys: nat,
                  flags: u32)
    requires WellFormed(mem, nodes, pages) && Pml4(root) in nodes && virt < USER_LIMIT && phys % PAGE_SIZE == 0
    requires PageOf(root, virt) in pages && pages[PageOf(root, virt)] == Mapping(phys / PAGE_SIZE, Portable(flags))
    ensures Walk(mem, root, virt) == Hit(phys + virt % PAGE_SIZE, flags % 2 == 1, flags / 2 % 2 == 1,
      flags / 4 % 2 == 0)
  {
    hide WellFormed, PageOf, Portable, Walk;
    WalkAgrees(mem, nodes, pages, root, virt);
    PortableBits(flags);
  }

  /** What `vmm_get_phys_in` must answer, read off the plain page map. */
  ghost function Translate(pages: map<Page, Mapping>, root: nat, virt: nat): nat {
    var p := PageOf(root, virt);
    if p in pages then pages[p].frame * PAGE_SIZE + virt % PAGE_SIZE else 0
  }

  datatype Call = Map(virt: nat, phys: nat, flags: u32) | Unmap(virt: nat)

  predicate LegalCall(c: Call) {
    c.virt < USER_LIMIT && (c.Map? ==> c.phys % PAGE_SIZE == 0 && c.phys / PAGE_SIZE < FRAME_LIMIT)
  }

  /** The plain page map after a sequence of calls. */
  ghost function AfterCalls(pages: map<Page, Mapping>, root: nat, calls: seq<Call>): map<Page, Mapping> {
    if calls == [] then pages else
    var before := AfterCalls(pages, root, calls[..|calls| - 1]);
    match calls[|calls| - 1]
    case Map(virt, phys, flags) => before[PageOf(root, virt) := Mapping(phys / PAGE_SIZE, Portable(flags))]
    case Unmap(virt) => before - {PageOf(root, virt)}
  }

  /** An address keeps its translation through calls on other pages. */
  lemma {:induction false} OtherPagesKeepTranslation(pages: map<Page, Mapping>, root: nat, calls: seq<Call>, w: nat)
    requires w < USER_LIMIT && forall i :: 0 <= i < |calls| ==>
      LegalCall(calls[i]) && calls[i].virt / PAGE_SIZE != w / PAGE_SIZE
    ensures Translate(AfterCalls(pages, root, calls), root, w) == Translate(pages, root, w)
  {
    hide PageOf, Portable;
    if calls != [] {
      OtherPagesKeepTranslation(pages, root, calls[..|calls| - 1], w);
      SamePage(root, calls[|calls| - 1].virt, w);
    }
  }

  /** The tables that a sequence of calls asks for; unmapping asks for none and gives none back. */
  ghost function TablesFor(root: nat, calls: seq<Call>): set<Table> {
    if calls == [] then {} else
    var before := TablesFor(root, calls[..|calls| - 1]);
    match calls[|calls| - 1]
    case Map(virt, _, _) => before + Path(PageOf(root, virt))
    case Unmap(_) => before
  }

  lemma {:induction false} TablesForGrows(root: nat, calls: seq<Call>, i: nat)
    requires i <= |calls|
    ensures TablesFor(root, calls[..i]) <= TablesFor(root, calls)
  {
    hide PageOf;
    if i == |calls| {
      assert calls[..i] == calls;
    } else {
      TablesForGrows(root, calls[..|calls| - 1], i);
      assert calls[..|calls| - 1][..i] == calls[..i];
    }
  }

  /** Any run of map and unmap calls turns the tables into the page map the calls describe, and leaves
      every other address space as it was. */
  method RunCalls(v: Vmm, root: nat, calls: seq<Call>) returns (ok: bool)
    requires v.Valid() && Pml4(root) in v.nodes && forall i :: 0 <= i < |calls| ==> LegalCall(calls[i])
    modifies v`mem, v`nodes, v`pages, v.pmm, v.pmm.bitmap
    ensures v.Valid() && Grew(root, old(v.mem), old(v.nodes), old(v.pmm.free), v.mem, v.nodes, v.pmm.free)
    ensures ok ==> v.pages == AfterCalls(old(v.pages), root, calls)
    ensures ok <==> |TablesFor(root, calls) - old(v.nodes).Keys| <= |old(v.pmm.free)|
    ensures !ok ==>
      v.pmm.free == {} && exists i :: 0 <= i < |calls| && v.pages == AfterCalls(old(v.pages), root, calls[..i])
  {
    hide Pmm.Valid, Vmm.Valid, PageOf, Portable, Path, Grew, TablesAdded;
    GrewRefl(root, v.mem, v.nodes, v.pmm.free);
    AddNone(v.nodes, v.pmm.free);
    for i := 0 to |calls|
      invariant v.Valid() && Grew(root, old(v.mem), old(v.nodes), old(v.pmm.free), v.mem, v.nodes, v.pmm.free)
      invariant Pml4(root) in v.nodes && v.pages == AfterCalls(old(v.pages), root, calls[..i])
      invariant TablesAdded(old(v.nodes), old(v.pmm.free), v.nodes, v.pmm.free, TablesFor(root, calls[..i]), true)
    {
      ghost var mem1, nodes1, free1 := v.mem, v.nodes, v.pmm.free;
      assert calls[..i + 1][..i] == calls[..i];
      match calls[i] {
        case Map(virt, phys, flags) =>
          ok := v.MapPageIn(root, virt, phys, flags);
          AddMore(old(v.nodes), old(v.pmm.free), nodes1, free1, v.nodes, v.pmm.free,
                  TablesFor(root, calls[..i]), Path(PageOf(root, virt)), ok);
        case Unmap(virt) =>
          v.UnmapPageIn(root, virt);
          ok := true;
      }
      GrewTrans(root, old(v.mem), old(v.nodes), old(v.pmm.free), mem1, nodes1, free1, v.mem, v.nodes, v.pmm.free);
      TableStays(root, mem1, nodes1, free1, v.mem, v.nodes, v.pmm.free, Pml4(root));
      if !ok {
        TablesForGrows(root, calls, i + 1);
        WantMore(old(v.nodes), old(v.pmm.free), v.nodes, v.pmm.free, TablesFor(root, calls[..i + 1]),
          TablesFor(root, calls));
        EnoughPages(old(v.nodes), old(v.pmm.free), v.nodes, v.pmm.free, TablesFor(root, calls), false);
        return;
      }
    }
    assert calls[..|calls|] == calls;
    ok := true;
    EnoughPages(old(v.nodes), old(v.pmm.free), v.nodes, v.pmm.free, TablesFor(root, calls), true);
  }
}
