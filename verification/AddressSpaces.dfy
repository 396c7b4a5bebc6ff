/** Who owns each physical page while address spaces are made, filled, forked and torn down. */
module Ownership {
  import opened Machine
  import opened PageTables
  import opened VirtualMemory

  /** Everything that decides ownership, as one value. */
  datatype State = State(mem: Mem, nodes: map<Table, nat>, pages: map<Page, Mapping>, free: set<nat>, held: set<nat>)

  /** Each page of the universe has exactly one place: free, held by a caller, a table, or a leaf. */
  ghost predicate Owns(s: State, universe: set<nat>) {
    && s.free !! s.held && s.free !! s.nodes.Values && s.free !! LeafFrames(s.pages)
    && s.held !! s.nodes.Values && s.held !! LeafFrames(s.pages) && s.nodes.Values !! LeafFrames(s.pages)
    && universe == s.free + s.held + s.nodes.Values + LeafFrames(s.pages)
    && forall p, q :: p in s.pages && q in s.pages && s.pages[p].frame == s.pages[q].frame ==> p == q
  }

  /** `s` is `s0` with one more, empty, address space rooted at a frame that was free. */
  ghost predicate Created(s0: State, s: State, root: nat) {
    && root in s0.free && s.free == s0.free - {root} && s.held == s0.held && s.pages == s0.pages
    && Pml4(root) !in s0.nodes && s.nodes == s0.nodes[Pml4(root) := root]
    && (forall p :: p in s0.pages ==> p.root != root)
    && |s.mem| == |s0.mem| && forall f :: 0 <= f < |s.mem| && f != root ==> s.mem[f] == s0.mem[f]
  }

  lemma LeafOf(pages: map<Page, Mapping>, p: Page)
    requires p in pages
    ensures pages[p].frame in LeafFrames(pages)
  {
  }

  lemma OwnsAfterTake(s: State, universe: set<nat>, f: nat)
    requires Owns(s, universe) && f in s.free
    ensures Owns(s.(free := s.free - {f}, held := s.held + {f}), universe)
  {
  }

  lemma OwnsAfterRelease(s: State, universe: set<nat>, f: nat)
    requires Owns(s, universe) && f in s.held
    ensures Owns(s.(free := s.free + {f}, held := s.held - {f}), universe)
  {
  }

  lemma OwnsAfterGrow(s: State, universe: set<nat>, root: nat, mem: Mem, nodes: map<Table, nat>, free: set<nat>)
    requires Owns(s, universe) && Grew(root, s.mem, s.nodes, s.free, mem, nodes, free)
    ensures Owns(s.(mem := mem, nodes := nodes, free := free), universe)
  {
  }

  lemma OwnsAfterMap(s: State, universe: set<nat>, p: Page, m: Mapping)
    requires Owns(s, universe) && m.frame in s.held && p !in s.pages
    ensures Owns(s.(held := s.held - {m.frame}, pages := s.pages[p := m]), universe)
  {
    var pages' := s.pages[p := m];
    assert LeafFrames(pages') == LeafFrames(s.pages) + {m.frame} by {
      LeafOf(pages', p);
      forall f | f in LeafFrames(s.pages) ensures f in LeafFrames(pages') {
        var q :| q in s.pages && s.pages[q].frame == f;
        LeafOf(pages', q);
      }
    }
    forall q | q in s.pages ensures s.pages[q].frame != m.frame { LeafOf(s.pages, q); }
  }

  lemma OwnsAfterUnmap(s: State, universe: set<nat>, p: Page)
    requires Owns(s, universe) && p in s.pages
    ensures Owns(s.(held := s.held + {s.pages[p].frame}, pages := s.pages - {p}), universe)
  {
    var f, pages' := s.pages[p].frame, s.pages - {p};
    LeafOf(s.pages, p);
    assert LeafFrames(pages') == LeafFrames(s.pages) - {f} by {
      forall g | g in LeafFrames(s.pages) && g != f ensures g in LeafFrames(pages') {
        var q :| q in s.pages && s.pages[q].frame == g;
        LeafOf(pages', q);
      }
    }
  }
}

/** The operations on address spaces, with every page accounted for. */
module AddressSpaces {
  import opened Machine
  import opened Pte
  import opened PageTables
  import opened VirtualMemory
  import opened Ownership
  import opened PhysicalPages

  ghost function Now(v: Vmm): State
    reads v, v.pmm
  {
    State(v.mem, v.nodes, v.pages, v.pmm.free, v.held)
  }

  ghost predicate Good(v: Vmm)
    reads v, v.pmm, v.pmm.bitmap
  {
    v.Valid() && Owns(Now(v), v.universe)
      && forall f :: f in v.universe ==> 0 < f < v.pmm.totalPages && f != v.kernelRoot
  }

  /** Once every space is gone, a page is free unless it is held. */
  lemma AllReturned(v: Vmm)
    requires Good(v) && v.nodes == map[] && v.pages == map[]
    ensures v.pmm.free == v.universe - v.held
  {
    hide Pmm.Valid, Vmm.Valid;
  }

  lemma GoodShape(v: Vmm)
    requires Good(v)
    ensures WellFormed(v.mem, v.nodes, v.pages)
  {
    hide Pmm.Valid, WellFormed;
  }

  /** A caller takes a page from the allocator. */
  method TakePage(v: Vmm) returns (phys: nat)
    requires Good(v)
    modifies v`held, v.pmm, v.pmm.bitmap
    ensures Good(v)
    ensures phys == 0 <==> old(v.pmm.free) == {}
    ensures phys == 0 ==> v.held == old(v.held) && v.pmm.free == old(v.pmm.free)
    ensures phys != 0 ==>
      && phys % PAGE_SIZE == 0 && phys / PAGE_SIZE in old(v.pmm.free)
      && v.pmm.free == old(v.pmm.free) - {phys / PAGE_SIZE} && v.held == old(v.held) + {phys / PAGE_SIZE}
  {
    hide Pmm.Valid, WellFormed, KernelHalf, Owns;
    phys := v.pmm.AllocPage();
    if phys != 0 {
      OwnsAfterTake(old(Now(v)), v.universe, phys / PAGE_SIZE);
      v.held := v.held + {phys / PAGE_SIZE};
    }
    assert TablesTaken(v.nodes, v.pmm.free, v.kernelRoot);
    assert v.Valid();
  }

  /** A caller gives a page it holds back to the allocator. */
  method ReleasePage(v: Vmm, phys: nat)
    requires Good(v) && phys % PAGE_SIZE == 0 && phys / PAGE_SIZE in v.held
    modifies v`held, v.pmm, v.pmm.bitmap
    ensures Good(v)
    ensures v.held == old(v.held) - {phys / PAGE_SIZE} && v.pmm.free == old(v.pmm.free) + {phys / PAGE_SIZE}
  {
    hide Pmm.Valid, WellFormed, KernelHalf;
    assert phys / PAGE_SIZE in v.universe;
    OwnsAfterRelease(Now(v), v.universe, phys / PAGE_SIZE);
    v.pmm.FreePage(phys);
    v.held := v.held - {phys / PAGE_SIZE};
    assert forall t :: t in v.nodes ==> v.nodes[t] in v.nodes.Values;
    assert TablesTaken(v.nodes, v.pmm.free, v.kernelRoot);
    assert v.Valid();
  }

  lemma HeldInUniverse(v: Vmm, f: nat)
    requires Good(v) && f in v.held
    ensures f in v.universe && 0 < f < v.pmm.totalPages && f != v.kernelRoot && |v.mem| <= FRAME_LIMIT && f < |v.mem|
  {
    hide Pmm.Valid, WellFormed, KernelHalf;
  }

  /** Map a page the caller holds at an address that is not mapped yet. */
  method MapHeld(v: Vmm, root: nat, virt: nat, phys: nat, flags: u32) returns (ok: bool)
    requires Good(v) && Pml4(root) in v.nodes && virt < USER_LIMIT && PageOf(root, virt) !in v.pages
    requires phys % PAGE_SIZE == 0 && phys / PAGE_SIZE in v.held
    modifies v`mem, v`nodes, v`pages, v`held, v.pmm, v.pmm.bitmap
    ensures Good(v)
    ensures Grew(root, old(v.mem), old(v.nodes), old(v.pmm.free), v.mem, v.nodes, v.pmm.free)
    ensures ok ==> v.held == old(v.held) - {phys / PAGE_SIZE}
    ensures ok ==> v.pages == old(v.pages)[PageOf(root, virt) := Mapping(phys / PAGE_SIZE, Portable(flags))]
    ensures !ok ==> v.held == old(v.held) && v.pages == old(v.pages) && v.pmm.free == {}
    ensures TablesAdded(old(v.nodes), old(v.pmm.free), v.nodes, v.pmm.free, Path(PageOf(root, virt)), ok)
    ensures ok <==> |Path(PageOf(root, virt)) - old(v.nodes).Keys| <= |old(v.pmm.free)|
  {
    hide Pmm.Valid, Vmm.Valid, Grew, PageOf, Portable, TablesAdded, Path, Owns;
    ghost var f, p := phys / PAGE_SIZE, PageOf(root, virt);
    HeldInUniverse(v, f);
    ok := v.MapPageIn(root, virt, phys, flags);
    ghost var grown := old(Now(v)).(mem := v.mem, nodes := v.nodes, free := v.pmm.free);
    OwnsAfterGrow(old(Now(v)), v.universe, root, v.mem, v.nodes, v.pmm.free);
    if ok {
      OwnsAfterMap(grown, v.universe, p, Mapping(f, Portable(flags)));
      v.held := v.held - {f};
    }
  }

  /** Unmap a page; its frame goes back to the caller. */
  method UnmapHeld(v: Vmm, root: nat, virt: nat)
    requires Good(v) && Pml4(root) in v.nodes && virt < USER_LIMIT && PageOf(root, virt) in v.pages
    modifies v`mem, v`pages, v`held
    ensures Good(v)
    ensures Grew(root, old(v.mem), v.nodes, v.pmm.free, v.mem, v.nodes, v.pmm.free)
    ensures v.pages == old(v.pages) - {PageOf(root, virt)}
    ensures v.held == old(v.held) + {old(v.pages)[PageOf(root, virt)].frame}
  {
    hide Pmm.Valid, WellFormed, KernelHalf, Grew, PageOf;
    ghost var p := PageOf(root, virt);
    v.UnmapPageIn(root, virt);
    OwnsAfterGrow(old(Now(v)), v.universe, root, v.mem, v.nodes, v.pmm.free);
    OwnsAfterUnmap(old(Now(v)).(mem := v.mem), v.universe, p);
    v.held := v.held + {old(v.pages)[p].frame};
    assert v.Valid();
  }

  /** A new, empty address space. */
  method CreateSpace(v: Vmm) returns (root: Option<nat>)
    requires Good(v)
    modifies v`mem, v`nodes, v.pmm, v.pmm.bitmap
    ensures Good(v)
    ensures root.None? ==> Now(v) == old(Now(v)) && v.pmm.free == {}
    ensures root.Some? ==> Created(old(Now(v)), Now(v), root.value)
  {
    hide Pmm.Valid, WellFormed, KernelHalf;
    root := v.CreateUserPml4();
    assert v.Valid();
    if root.Some? {
      ValuesAfterAdd(old(v.nodes), Pml4(root.value), root.value);
    }
  }

  /** `memcpy` of one page into a page the caller holds. */
  method CopyPage(v: Vmm, to: nat, from: nat)
    requires Good(v) && to in v.held && from < |v.mem|
    modifies v`mem
    ensures to < |v.mem| == |old(v.mem)| && v.mem == old(v.mem)[to := old(v.mem)[from]]
    ensures Good(v)
  {
    hide Pmm.Valid, WellFormed;
    assert to in v.universe;
    assert forall t :: t in v.nodes ==> v.nodes[t] in v.nodes.Values;
    WriteData(v.mem, v.nodes, v.pages, to, v.mem[from]);
    OnThePath(v.mem, v.nodes, v.pages, Page(0, 0, 0, 0, 0));
    v.mem := v.mem[to := v.mem[from]];
    assert KernelHalf(v.mem, v.nodes, v.kernelRoot);
    assert v.Valid();
  }
}
