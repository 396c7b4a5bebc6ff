/** How far a walk over one address space has come: before a position, everything is done. */
module WalkOrder {
  import opened PageTables

  datatype Pos = Pos(a: nat, b: nat, c: nat, d: nat)

  predicate PageBefore(p: Page, x: Pos) {
    p.a < x.a || (p.a == x.a && (p.b < x.b || (p.b == x.b && (p.c < x.c || (p.c == x.c && p.d < x.d)))))
  }

  /** A table is behind a position once the walk has left it; the root never is. */
  predicate TableBefore(t: Table, x: Pos) {
    match t
    case Pml4(_) => false
    case Pdpt(_, a) => a < x.a
    case Pd(_, a, b) => a < x.a || (a == x.a && b < x.b)
    case Pt(_, a, b, c) => a < x.a || (a == x.a && (b < x.b || (b == x.b && c < x.c)))
  }
}

/** Giving back the frames of one address space. */
module Teardown {
  import opened Machine
  import opened Pte
  import opened PageTables
  import opened VirtualMemory
  import opened Ownership
  import opened AddressSpaces
  import opened WalkOrder
  import opened PhysicalPages

  ghost function RootLeaves(pages: map<Page, Mapping>, root: nat): set<nat> {
    set p | p in pages && p.root == root :: pages[p].frame
  }

  /** No frame has two places. */
  ghost predicate Distinct(nodes: map<Table, nat>, pages: map<Page, Mapping>) {
    && (forall t, u :: t in nodes && u in nodes && nodes[t] == nodes[u] ==> t == u)
    && (forall p, q :: p in pages && q in pages && pages[p].frame == pages[q].frame ==> p == q)
    && (forall t, p :: t in nodes && p in pages ==> nodes[t] != pages[p].frame)
  }

  /** The walk has reached `x`: exactly the tables of `root` behind it, and its leaves when `leaves`
      is set, have been given back on top of `free0`. */
  ghost predicate Torn(nodes: map<Table, nat>, pages: map<Page, Mapping>, root: nat, leaves: bool,
                       free0: set<nat>, free: set<nat>, x: Pos)
  {
    && free0 <= free <= free0 + RootTables(nodes, root) + RootLeaves(pages, root)
    && (forall t :: t in nodes && t.root == root ==> (nodes[t] in free <==> TableBefore(t, x)))
    && (forall p :: p in pages && p.root == root ==> (pages[p].frame in free <==> leaves && PageBefore(p, x)))
  }

  /** Moving on without passing a table or a leaf. */
  lemma Skip(nodes: map<Table, nat>, pages: map<Page, Mapping>, root: nat, leaves: bool,
             free0: set<nat>, free: set<nat>, x: Pos, y: Pos)
    requires Torn(nodes, pages, root, leaves, free0, free, x)
    requires forall t :: t in nodes && t.root == root ==> (TableBefore(t, x) <==> TableBefore(t, y))
    requires forall p :: p in pages && p.root == root && leaves ==> (PageBefore(p, x) <==> PageBefore(p, y))
    ensures Torn(nodes, pages, root, leaves, free0, free, y)
  {
  }

  /** Passing table `t`: its frame was not free yet, and now it is. */
  lemma PassTable(nodes: map<Table, nat>, pages: map<Page, Mapping>, root: nat, leaves: bool,
                  free0: set<nat>, free: set<nat>, x: Pos, y: Pos, t: Table)
    requires Torn(nodes, pages, root, leaves, free0, free, x) && Distinct(nodes, pages)
    requires t in nodes && t.root == root && !TableBefore(t, x) && TableBefore(t, y)
    requires forall u :: u in nodes && u.root == root && u != t ==> (TableBefore(u, x) <==> TableBefore(u, y))
    requires forall p :: p in pages && p.root == root && leaves ==> (PageBefore(p, x) <==> PageBefore(p, y))
    ensures nodes[t] !in free
    ensures Torn(nodes, pages, root, leaves, free0, free + {nodes[t]}, y)
  {
    hide TableBefore, PageBefore;
    assert nodes[t] in RootTables(nodes, root);
  }

  lemma PassLeaf(nodes: map<Table, nat>, pages: map<Page, Mapping>, root: nat,
                 free0: set<nat>, free: set<nat>, p: Page)
    requires Torn(nodes, pages, root, true, free0, free, Pos(p.a, p.b, p.c, p.d)) && Distinct(nodes, pages)
    requires p in pages && p.root == root
    ensures pages[p].frame !in free
    ensures Torn(nodes, pages, root, true, free0, free + {pages[p].frame}, Pos(p.a, p.b, p.c, p.d + 1))
  {
    assert pages[p].frame in RootLeaves(pages, root);
  }

  /** What the teardown loops may rely on throughout: tables are only read. */
  ghost predicate Ready(v: Vmm, root: nat)
    reads v, v.pmm, v.pmm.bitmap
  {
    && v.pmm.Valid() && |v.mem| == v.pmm.totalPages && WellFormed(v.mem, v.nodes, v.pages)
    && Distinct(v.nodes, v.pages) && Pml4(root) in v.nodes
    && (forall t :: t in v.nodes ==> 0 < v.nodes[t] < v.pmm.totalPages)
    && (forall p :: p in v.pages ==> 0 < v.pages[p].frame < v.pmm.totalPages)
  }

  ghost predicate TornTo(v: Vmm, root: nat, leaves: bool, free0: set<nat>, x: Pos)
    reads v, v.pmm
  {
    Torn(v.nodes, v.pages, root, leaves, free0, v.pmm.free, x)
  }

  /** `free_pt_and_leaves` */
  method FreePtAndLeaves(v: Vmm, pt: nat, ghost t: Table, ghost free0: set<nat>)
    requires Ready(v, t.root) && t.Pt? && t in v.nodes && v.nodes[t] == pt
    requires TornTo(v, t.root, true, free0, Pos(t.a, t.b, t.c, 0))
    modifies v.pmm, v.pmm.bitmap
    ensures Ready(v, t.root) && TornTo(v, t.root, true, free0, Pos(t.a, t.b, t.c + 1, 0))
  {
    hide Pmm.Valid, WellFormed, Present, FrameOf, Huge, PteToFlags, Torn, Distinct;
    var d := 0;
    while d < ENTRIES
      invariant 0 <= d <= ENTRIES && Ready(v, t.root)
      invariant TornTo(v, t.root, true, free0, Pos(t.a, t.b, t.c, d))
    {
      ghost var p := Page(t.root, t.a, t.b, t.c, d);
      ReadEntry(v.mem, v.nodes, v.pages, t, d);
      if Present(v.mem[pt][d]) {
        PassLeaf(v.nodes, v.pages, t.root, free0, v.pmm.free, p);
        v.pmm.FreePage(FrameOf(v.mem[pt][d]) * PAGE_SIZE);
      } else {
        Skip(v.nodes, v.pages, t.root, true, free0, v.pmm.free, Pos(t.a, t.b, t.c, d), Pos(t.a, t.b, t.c, d + 1));
      }
      d := d + 1;
    }
    LeaveTable(v.mem, v.nodes, v.pages, t);
    PassTable(v.nodes, v.pages, t.root, true, free0, v.pmm.free, End(t), After(t), t);
    v.pmm.FreePage(pt * PAGE_SIZE);
  }

  /** `free_pd_and_children` */
  method FreePdAndChildren(v: Vmm, pd: nat, ghost t: Table, ghost free0: set<nat>)
    requires Ready(v, t.root) && t.Pd? && t in v.nodes && v.nodes[t] == pd
    requires TornTo(v, t.root, true, free0, Pos(t.a, t.b, 0, 0))
    modifies v.pmm, v.pmm.bitmap
    ensures Ready(v, t.root) && TornTo(v, t.root, true, free0, Pos(t.a, t.b + 1, 0, 0))
  {
    hide Pmm.Valid, WellFormed, Present, FrameOf, Huge, PteToFlags, Torn, Distinct;
    var c := 0;
    while c < ENTRIES
      invariant 0 <= c <= ENTRIES && Ready(v, t.root)
      invariant TornTo(v, t.root, true, free0, Pos(t.a, t.b, c, 0))
    {
      ReadEntry(v.mem, v.nodes, v.pages, t, c);
      if Present(v.mem[pd][c]) && !Huge(v.mem[pd][c]) {
        FreePtAndLeaves(v, FrameOf(v.mem[pd][c]), t.Child(c), free0);
      } else {
        SkipAbsent(v.mem, v.nodes, v.pages, t.Child(c), true, free0, v.pmm.free);
      }
      c := c + 1;
    }
    LeaveTable(v.mem, v.nodes, v.pages, t);
    PassTable(v.nodes, v.pages, t.root, true, free0, v.pmm.free, End(t), After(t), t);
    v.pmm.FreePage(pd * PAGE_SIZE);
  }

  /** `free_pd_entries` followed by the release of the directory itself: the leaves stay. */
  method FreePdEntries(v: Vmm, pd: nat, ghost t: Table, ghost free0: set<nat>)
    requires Ready(v, t.root) && t.Pd? && t in v.nodes && v.nodes[t] == pd
    requires TornTo(v, t.root, false, free0, Pos(t.a, t.b, 0, 0))
    modifies v.pmm, v.pmm.bitmap
    ensures Ready(v, t.root) && TornTo(v, t.root, false, free0, Pos(t.a, t.b + 1, 0, 0))
  {
    hide Pmm.Valid, WellFormed, Present, FrameOf, Huge, PteToFlags, Torn, Distinct;
    var c := 0;
    while c < ENTRIES
      invariant 0 <= c <= ENTRIES && Ready(v, t.root)
      invariant TornTo(v, t.root, false, free0, Pos(t.a, t.b, c, 0))
    {
      ReadEntry(v.mem, v.nodes, v.pages, t, c);
      if Present(v.mem[pd][c]) && !Huge(v.mem[pd][c]) {
        PassPtOnly(v.nodes, v.pages, t.Child(c), free0, v.pmm.free);
        v.pmm.FreePage(FrameOf(v.mem[pd][c]) * PAGE_SIZE);
      } else {
        SkipAbsent(v.mem, v.nodes, v.pages, t.Child(c), false, free0, v.pmm.free);
      }
      c := c + 1;
    }
    LeaveTable(v.mem, v.nodes, v.pages, t);
    PassTable(v.nodes, v.pages, t.root, false, free0, v.pmm.free, End(t), After(t), t);
    v.pmm.FreePage(pd * PAGE_SIZE);
  }

  /** The two outer loops of `vmm_free_user_pages` (`leaves`) and `vmm_destroy_user_pml4` (not). */
  method FreePdpt(v: Vmm, pdpt: nat, leaves: bool, ghost t: Table, ghost free0: set<nat>)
    requires Ready(v, t.root) && t.Pdpt? && t in v.nodes && v.nodes[t] == pdpt
    requires TornTo(v, t.root, leaves, free0, Pos(t.a, 0, 0, 0))
    modifies v.pmm, v.pmm.bitmap
    ensures Ready(v, t.root) && TornTo(v, t.root, leaves, free0, Pos(t.a + 1, 0, 0, 0))
  {
    hide Pmm.Valid, WellFormed, Present, FrameOf, Huge, PteToFlags, Torn, Distinct;
    var b := 0;
    while b < ENTRIES
      invariant 0 <= b <= ENTRIES && Ready(v, t.root)
      invariant TornTo(v, t.root, leaves, free0, Pos(t.a, b, 0, 0))
    {
      ReadEntry(v.mem, v.nodes, v.pages, t, b);
      if Present(v.mem[pdpt][b]) && !Huge(v.mem[pdpt][b]) {
        if leaves {
          FreePdAndChildren(v, FrameOf(v.mem[pdpt][b]), t.Child(b), free0);
        } else {
          FreePdEntries(v, FrameOf(v.mem[pdpt][b]), t.Child(b), free0);
        }
      } else {
        SkipAbsent(v.mem, v.nodes, v.pages, t.Child(b), leaves, free0, v.pmm.free);
      }
      b := b + 1;
    }
    LeaveTable(v.mem, v.nodes, v.pages, t);
    PassTable(v.nodes, v.pages, t.root, leaves, free0, v.pmm.free, End(t), After(t), t);
    v.pmm.FreePage(pdpt * PAGE_SIZE);
  }

  /** The walk over the root: every frame of the space is given back, each exactly once. */
  method FreeTree(v: Vmm, root: nat, leaves: bool)
    requires Good(v) && Pml4(root) in v.nodes
    modifies v.pmm, v.pmm.bitmap
    ensures Ready(v, root)
    ensures v.pmm.free == old(v.pmm.free) + RootTables(v.nodes, root)
      + (if leaves then RootLeaves(v.pages, root) else {})
  {
    hide Pmm.Valid, WellFormed, Present, FrameOf, Huge, PteToFlags, Torn, Distinct, KernelHalf, Vmm.Valid, Owns;
    ghost var free0 := v.pmm.free;
    StartTeardown(v, root, leaves);
    var a := 0;
    while a < KERNEL_START
      invariant 0 <= a <= KERNEL_START && Ready(v, root)
      invariant TornTo(v, root, leaves, free0, Pos(a, 0, 0, 0))
    {
      ReadEntry(v.mem, v.nodes, v.pages, Pml4(root), a);
      assert Pml4(root).Child(a) == Pdpt(root, a);
      if Present(v.mem[root][a]) {
        FreePdpt(v, FrameOf(v.mem[root][a]), leaves, Pdpt(root, a), free0);
      } else {
        SkipAbsent(v.mem, v.nodes, v.pages, Pdpt(root, a), leaves, free0, v.pmm.free);
      }
      a := a + 1;
    }
    EndTeardown(v.mem, v.nodes, v.pages, root, leaves, free0, v.pmm.free);
    v.pmm.FreePage(root * PAGE_SIZE);
  }

  /** `vmm_free_user_pages`: tables and leaves of the space all become free, nothing else does. */
  method FreeUserPages(v: Vmm, root: nat)
    requires Good(v) && Pml4(root) in v.nodes
    modifies v`nodes, v`pages, v.pmm, v.pmm.bitmap
    ensures Good(v)
    ensures v.nodes == OtherTables(old(v.nodes), root) && v.pages == OtherPages(old(v.pages), root)
    ensures v.pmm.free == old(v.pmm.free) + RootTables(old(v.nodes), root) + RootLeaves(old(v.pages), root)
  {
    hide Pmm.Valid, WellFormed, KernelHalf, Owns, Distinct, TablesTaken, OtherTables, OtherPages;
    StartTeardown(v, root, true);
    FreeTree(v, root, true);
    OwnsAfterDrop(old(Now(v)), v.universe, root, true);
    DropValid(v.mem, v.nodes, v.pages, old(v.pmm.free), v.pmm.free, v.kernelRoot, root);
    v.nodes, v.pages := OtherTables(v.nodes, root), OtherPages(v.pages, root);
    assert Now(v).held == old(v.held) + {};
  }

  /** `vmm_destroy_user_pml4`: only the tables become free; the leaf pages stay taken. */
  method DestroyUserPml4(v: Vmm, root: nat)
    requires Good(v) && Pml4(root) in v.nodes
    modifies v`nodes, v`pages, v`held, v.pmm, v.pmm.bitmap
    ensures Good(v)
    ensures v.nodes == OtherTables(old(v.nodes), root) && v.pages == OtherPages(old(v.pages), root)
    ensures v.held == old(v.held) + RootLeaves(old(v.pages), root)
    ensures v.pmm.free == old(v.pmm.free) + RootTables(old(v.nodes), root)
  {
    hide Pmm.Valid, WellFormed, KernelHalf, Owns, Distinct, TablesTaken, OtherTables, OtherPages;
    StartTeardown(v, root, false);
    FreeTree(v, root, false);
    OwnsAfterDrop(old(Now(v)), v.universe, root, false);
    DropValid(v.mem, v.nodes, v.pages, old(v.pmm.free), v.pmm.free, v.kernelRoot, root);
    v.held := v.held + RootLeaves(v.pages, root);
    v.nodes, v.pages := OtherTables(v.nodes, root), OtherPages(v.pages, root);
  }

  lemma StartTeardown(v: Vmm, root: nat, leaves: bool)
    requires Good(v) && Pml4(root) in v.nodes
    ensures Ready(v, root) && TornTo(v, root, leaves, v.pmm.free, Pos(0, 0, 0, 0)) && v.nodes[Pml4(root)] == root
    ensures v.pmm.free !! RootLeaves(v.pages, root)
    ensures forall p :: p in v.pages ==> v.pages[p].frame != v.kernelRoot
  {
    hide Pmm.Valid, WellFormed, Owns, KernelHalf, Distinct;
    OnThePath(v.mem, v.nodes, v.pages, Page(0, 0, 0, 0, 0));
    OnePlaceEach(v.mem, v.nodes, v.pages, v.pmm.free, v.held, v.universe);
  }

  lemma OnePlaceEach(mem: Mem, nodes: map<Table, nat>, pages: map<Page, Mapping>, free: set<nat>, held: set<nat>,
                     universe: set<nat>)
    requires WellFormed(mem, nodes, pages) && Owns(State(mem, nodes, pages, free, held), universe)
    ensures Distinct(nodes, pages)
    ensures forall t :: t in nodes ==> nodes[t] in universe && nodes[t] !in free
    ensures forall p :: p in pages ==> pages[p].frame in universe && pages[p].frame !in free
  {
    hide EntryOk;
    assert forall t :: t in nodes ==> nodes[t] in nodes.Values;
    forall p | p in pages ensures pages[p].frame in LeafFrames(pages) { LeafOf(pages, p); }
  }

  /** At the end of the walk only the root is left. */
  lemma EndTeardown(mem: Mem, nodes: map<Table, nat>, pages: map<Page, Mapping>, root: nat, leaves: bool,
                    free0: set<nat>, free: set<nat>)
    requires WellFormed(mem, nodes, pages) && Pml4(root) in nodes
    requires Torn(nodes, pages, root, leaves, free0, free, Pos(KERNEL_START, 0, 0, 0))
    requires free0 !! RootLeaves(pages, root)
    ensures root !in free
    ensures free + {root} == free0 + RootTables(nodes, root) + (if leaves then RootLeaves(pages, root) else {})
  {
    hide EntryOk;
    forall p | p in pages ensures PageBefore(p, Pos(KERNEL_START, 0, 0, 0)) { PageIndices(mem, nodes, pages, p); }
    forall t | t in nodes ensures t.Pml4? || TableBefore(t, Pos(KERNEL_START, 0, 0, 0)) {
      TableIndices(mem, nodes, pages, t);
    }
    assert nodes[Pml4(root)] in RootTables(nodes, root);
    forall f | f in RootTables(nodes, root) ensures f in free + {root} {
      var t :| t in nodes && t.root == root && nodes[t] == f;
    }
    forall f | f in RootLeaves(pages, root) ensures leaves <==> f in free {
      var p :| p in pages && p.root == root && pages[p].frame == f;
    }
  }

  lemma OwnsAfterDrop(s: State, universe: set<nat>, root: nat, leaves: bool)
    requires Owns(s, universe) && Distinct(s.nodes, s.pages)
    ensures var gone := RootLeaves(s.pages, root);
      Owns(State(s.mem, OtherTables(s.nodes, root), OtherPages(s.pages, root),
                 s.free + RootTables(s.nodes, root) + (if leaves then gone else {}),
                 s.held + (if leaves then {} else gone)), universe)
  {
    DropTables(s.nodes, root);
    DropPages(s.pages, root);
  }

  lemma DropTables(nodes: map<Table, nat>, root: nat)
    requires forall t, u :: t in nodes && u in nodes && nodes[t] == nodes[u] ==> t == u
    ensures nodes.Values == OtherTables(nodes, root).Values + RootTables(nodes, root)
    ensures OtherTables(nodes, root).Values !! RootTables(nodes, root)
  {
    var others := OtherTables(nodes, root);
    forall f | f in nodes.Values ensures f in others.Values + RootTables(nodes, root) {
      var t :| t in nodes && nodes[t] == f;
      if t.root != root { assert t in others; }
    }
  }

  lemma DropPages(pages: map<Page, Mapping>, root: nat)
    requires forall p, q :: p in pages && q in pages && pages[p].frame == pages[q].frame ==> p == q
    ensures LeafFrames(pages) == LeafFrames(OtherPages(pages, root)) + RootLeaves(pages, root)
    ensures LeafFrames(OtherPages(pages, root)) !! RootLeaves(pages, root)
  {
    var others := OtherPages(pages, root);
    forall f | f in LeafFrames(pages) ensures f in LeafFrames(others) + RootLeaves(pages, root) {
      var p :| p in pages && pages[p].frame == f;
      if p.root != root { assert p in others && others[p].frame == f; }
    }
  }

  lemma DropValid(mem: Mem, nodes: map<Table, nat>, pages: map<Page, Mapping>, free0: set<nat>, free: set<nat>,
                  kernelRoot: nat, root: nat)
    requires WellFormed(mem, nodes, pages) && KernelHalf(mem, nodes, kernelRoot)
      && TablesTaken(nodes, free0, kernelRoot)
    requires Distinct(nodes, pages) && kernelRoot !in free0
    requires forall p :: p in pages ==> pages[p].frame != kernelRoot
    requires free <= free0 + RootTables(nodes, root) + RootLeaves(pages, root)
    ensures WellFormed(mem, OtherTables(nodes, root), OtherPages(pages, root))
    ensures KernelHalf(mem, OtherTables(nodes, root), kernelRoot)
      && TablesTaken(OtherTables(nodes, root), free, kernelRoot)
    ensures kernelRoot !in free
  {
    hide WellFormed;
    DropSpace(mem, nodes, pages, root);
  }

  /** Where the walk is when it is about to leave a table, and once it has. */
  function End(t: Table): Pos {
    match t
    case Pml4(_) => Pos(KERNEL_START, 0, 0, 0)
    case Pdpt(_, a) => Pos(a, ENTRIES, 0, 0)
    case Pd(_, a, b) => Pos(a, b, ENTRIES, 0)
    case Pt(_, a, b, c) => Pos(a, b, c, ENTRIES)
  }

  function After(t: Table): Pos {
    match t
    case Pml4(_) => Pos(KERNEL_START, 0, 0, 0)
    case Pdpt(_, a) => Pos(a + 1, 0, 0, 0)
    case Pd(_, a, b) => Pos(a, b + 1, 0, 0)
    case Pt(_, a, b, c) => Pos(a, b, c + 1, 0)
  }

  function Start(t: Table): Pos {
    match t
    case Pml4(_) => Pos(0, 0, 0, 0)
    case Pdpt(_, a) => Pos(a, 0, 0, 0)
    case Pd(_, a, b) => Pos(a, b, 0, 0)
    case Pt(_, a, b, c) => Pos(a, b, c, 0)
  }

  /** Nothing but the table itself lies between its last entry and what follows it. */
  lemma LeaveTable(mem: Mem, nodes: map<Table, nat>, pages: map<Page, Mapping>, t: Table)
    requires WellFormed(mem, nodes, pages) && !t.Pml4?
    ensures !TableBefore(t, End(t)) && TableBefore(t, After(t))
    ensures forall p :: p in pages ==> (PageBefore(p, End(t)) <==> PageBefore(p, After(t)))
    ensures forall u :: u in nodes && u.root == t.root && u != t ==>
      (TableBefore(u, End(t)) <==> TableBefore(u, After(t)))
  {
    hide EntryOk;
    forall p | p in pages ensures PageBefore(p, End(t)) <==> PageBefore(p, After(t)) {
      PageIndices(mem, nodes, pages, p);
    }
    forall u | u in nodes && u.root == t.root && u != t ensures TableBefore(u, End(t)) <==> TableBefore(u, After(t)) {
      TableIndices(mem, nodes, pages, u);
    }
  }

  lemma TableIndices(mem: Mem, nodes: map<Table, nat>, pages: map<Page, Mapping>, t: Table)
    requires Shape(mem, nodes, pages) && t in nodes
    ensures t.Pt? ==> t.c < ENTRIES && Pd(t.root, t.a, t.b) in nodes
    ensures t.Pt? || t.Pd? ==> t.b < ENTRIES && Pdpt(t.root, t.a) in nodes
    ensures !t.Pml4? ==> t.a < KERNEL_START && Pml4(t.root) in nodes
  {
    if !t.Pml4? {
      var u := t.Parent();
      assert t.Parent() in nodes;
      if !u.Pml4? {
        var w := u.Parent();
        assert u.Parent() in nodes;
        if !w.Pml4? { assert w.Parent() in nodes; }
      }
    }
  }

  /** Where a table is absent the walk passes nothing. */
  lemma SkipAbsent(mem: Mem, nodes: map<Table, nat>, pages: map<Page, Mapping>, t: Table, leaves: bool,
                   free0: set<nat>, free: set<nat>)
    requires WellFormed(mem, nodes, pages) && !t.Pml4? && t !in nodes
    requires Torn(nodes, pages, t.root, leaves, free0, free, Start(t))
    ensures Torn(nodes, pages, t.root, leaves, free0, free, After(t))
  {
    hide EntryOk, Torn;
    forall p | p in pages && p.root == t.root ensures PageBefore(p, Start(t)) <==> PageBefore(p, After(t)) {
      PageIndices(mem, nodes, pages, p);
    }
    forall u | u in nodes && u.root == t.root ensures TableBefore(u, Start(t)) <==> TableBefore(u, After(t)) {
      TableIndices(mem, nodes, pages, u);
    }
    Skip(nodes, pages, t.root, leaves, free0, free, Start(t), After(t));
  }

  lemma PassPtOnly(nodes: map<Table, nat>, pages: map<Page, Mapping>, t: Table, free0: set<nat>, free: set<nat>)
    requires t.Pt? && t in nodes && Distinct(nodes, pages)
    requires Torn(nodes, pages, t.root, false, free0, free, Start(t))
    ensures nodes[t] !in free && Torn(nodes, pages, t.root, false, free0, free + {nodes[t]}, After(t))
  {
    hide Torn, Distinct;
    PassTable(nodes, pages, t.root, false, free0, free, Start(t), After(t), t);
  }
}
