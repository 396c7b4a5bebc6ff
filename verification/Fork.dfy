/** Copying an address space page by page. */
module Fork {
  import opened Machine
  import opened Pte
  import opened PageTables
  import opened VirtualMemory
  import opened Ownership
  import opened AddressSpaces
  import opened WalkOrder
  import opened Teardown
  import opened ForkCost
  import opened CpuWalk
  import opened PhysicalPages

  /** The copy of `p` in `dst`: a frame that was free, with the same flags and the same contents. */
  ghost predicate Copied(s0: State, s: State, dst: nat, p: Page)
    requires p in s0.pages
  {
    && Twin(p, dst) in s.pages
    && var m := s.pages[Twin(p, dst)];
      && m.flags == s0.pages[p].flags && m.frame in s0.free
      && m.frame < |s.mem| && s0.pages[p].frame < |s0.mem|
      && s.mem[m.frame] == s0.mem[s0.pages[p].frame]
  }

  /** From `s0` to `s` only `dst` grew, out of free frames, and only free frames and the tables `dst`
      already had were written. */
  ghost predicate OnlyGrew(s0: State, s: State, dst: nat) {
    && |s.mem| == |s0.mem| && s.free <= s0.free && s.held == s0.held
    && (forall t :: t in s0.nodes ==> t in s.nodes && s.nodes[t] == s0.nodes[t])
    && (forall t :: t in s.nodes && t !in s0.nodes ==> t.root == dst && s.nodes[t] in s0.free)
    && (forall p :: p in s0.pages ==> p in s.pages && s.pages[p] == s0.pages[p])
    && (forall p :: p in s.pages && p !in s0.pages ==> p.root == dst)
    && (forall f :: 0 <= f < |s0.mem| && f !in s0.free && f !in RootTables(s0.nodes, dst) ==> s.mem[f] == s0.mem[f])
  }

  /** The walk over `src` has reached `x`: exactly its pages before `x` have been copied. */
  ghost predicate CopiedTo(s0: State, s: State, src: nat, dst: nat, x: Pos) {
    && OnlyGrew(s0, s, dst)
    && (forall q :: q in s.pages && q.root == dst ==> Twin(q, src) in s0.pages && PageBefore(q, x))
    && (forall p :: p in s0.pages && p.root == src && PageBefore(p, x) ==> Copied(s0, s, dst, p))
  }

  /** From `s` one page was copied into free frame `f` and mapped in `dst`, adding tables as needed. */
  ghost predicate StepTo(s: State, s': State, dst: nat, q: Page, f: nat, flags: u32, data: Frame) {
    && |s'.mem| == |s.mem| && s'.free <= s.free && s'.held == s.held && f in s.free && f < |s.mem| && s'.mem[f] == data
    && (forall t :: t in s.nodes ==> t in s'.nodes && s'.nodes[t] == s.nodes[t])
    && (forall t :: t in s'.nodes && t !in s.nodes ==> t.root == dst && s'.nodes[t] in s.free)
    && s'.pages == s.pages[q := Mapping(f, flags)]
    && (forall g :: 0 <= g < |s.mem| && g !in s.free && g !in RootTables(s.nodes, dst) ==> s'.mem[g] == s.mem[g])
  }

  lemma MapFilled(s: State, dst: nat, q: Page, f: nat, flags: u32, data: Frame, mem: Mem, nodes: map<Table, nat>,
                  free: set<nat>)
    requires f in s.free && f < |s.mem| && f !in RootTables(s.nodes, dst)
    requires Grew(dst, s.mem[f := data], s.nodes, s.free - {f}, mem, nodes, free)
    ensures StepTo(s, State(mem, nodes, s.pages[q := Mapping(f, flags)], free, s.held), dst, q, f, flags, data)
  {
  }

  lemma OnlyGrewStep(s0: State, s: State, s': State, dst: nat, q: Page, f: nat, flags: u32, data: Frame)
    requires OnlyGrew(s0, s, dst) && StepTo(s, s', dst, q, f, flags, data) && q.root == dst && q !in s.pages
    ensures OnlyGrew(s0, s', dst)
  {
    forall g | 0 <= g < |s0.mem| && g !in s0.free && g !in RootTables(s0.nodes, dst) ensures s'.mem[g] == s0.mem[g] {
      assert g !in RootTables(s.nodes, dst);
    }
  }

  lemma CopyStep(s0: State, s: State, s': State, universe: set<nat>, src: nat, dst: nat, p: Page, f: nat)
    requires CopiedTo(s0, s, src, dst, Pos(p.a, p.b, p.c, p.d))
    requires WellFormed(s.mem, s.nodes, s.pages) && Owns(s, universe)
    requires p in s0.pages && p.root == src && src != dst && s0.pages[p].frame < |s0.mem|
    requires StepTo(s, s', dst, Twin(p, dst), f, s0.pages[p].flags, s0.mem[s0.pages[p].frame])
    ensures CopiedTo(s0, s', src, dst, Pos(p.a, p.b, p.c, p.d + 1))
  {
    hide WellFormed, Owns, OnlyGrew;
    assert Twin(p, dst) !in s.pages;
    OnlyGrewStep(s0, s, s', dst, Twin(p, dst), f, s0.pages[p].flags, s0.mem[s0.pages[p].frame]);
    assert s.free <= s0.free by { OnlyGrewFree(s0, s, dst); }
    forall q | q in s0.pages && q.root == src && PageBefore(q, Pos(p.a, p.b, p.c, p.d + 1))
      ensures Copied(s0, s', dst, q)
    {
      if q != p {
        assert Copied(s0, s, dst, q);
        LeafKept(s, s', universe, dst, Twin(p, dst), f, s0.pages[p].flags, s0.mem[s0.pages[p].frame], Twin(q, dst));
      }
    }
  }

  lemma OnlyGrewFree(s0: State, s: State, dst: nat)
    requires OnlyGrew(s0, s, dst)
    ensures s.free <= s0.free
  {
  }

  /** A copy step leaves the contents of every mapped page alone. */
  lemma LeafKept(s: State, s': State, universe: set<nat>, dst: nat, q: Page, f: nat, flags: u32, data: Frame, p: Page)
    requires WellFormed(s.mem, s.nodes, s.pages) && Owns(s, universe)
    requires StepTo(s, s', dst, q, f, flags, data) && p in s.pages && p != q && s.pages[p].frame < |s.mem|
    ensures p in s'.pages && s'.pages[p] == s.pages[p] && s'.mem[s.pages[p].frame] == s.mem[s.pages[p].frame]
  {
    hide WellFormed, Owns;
    OnePlaceEach(s.mem, s.nodes, s.pages, s.free, s.held, universe);
    assert s.pages[p].frame !in RootTables(s.nodes, dst);
  }

  datatype Status = Done | NoMemory | Panicked

  /** What the copy loops may rely on: the parent's leaf frames are out of the walk's way. */
  ghost predicate Source(s0: State, src: nat, dst: nat) {
    && src != dst && WellFormed(s0.mem, s0.nodes, s0.pages) && (forall p :: p in s0.pages ==> p.root != dst)
    && forall p :: p in s0.pages ==>
         s0.pages[p].frame < |s0.mem| && s0.pages[p].frame !in s0.free
           && s0.pages[p].frame !in RootTables(s0.nodes, dst)
  }

  /** `s0` is the start of a copy, with one page spent on the root of `dst`; by `s` no table of `dst` is
      there without a page below it. */
  ghost predicate Spare(s0: State, s: State, universe: set<nat>, dst: nat) {
    && Owns(s0, universe) && OwnTables(s0.nodes, dst) == {Pml4(dst)}
    && OwnTables(s.nodes, dst) <= Wanted(OwnPages(s.pages, dst), dst)
  }

  ghost predicate Copying(v: Vmm, s0: State, src: nat, dst: nat, x: Pos)
    reads v, v.pmm, v.pmm.bitmap
  {
    && Good(v) && Source(s0, src, dst) && Pml4(src) in s0.nodes && Pml4(dst) in s0.nodes
    && CopiedTo(s0, Now(v), src, dst, x) && Spare(s0, Now(v), v.universe, dst)
  }

  lemma OwnKeys(s0: State, s: State, dst: nat)
    requires OnlyGrew(s0, s, dst) && OwnTables(s0.nodes, dst) == {Pml4(dst)}
    ensures |s.nodes| == |s0.nodes| - 1 + |OwnTables(s.nodes, dst)|
  {
    hide RootTables;
    var others := s0.nodes.Keys - {Pml4(dst)};
    assert Pml4(dst) in OwnTables(s0.nodes, dst);
    forall t | t in others ensures t.root != dst {
      assert t.root == dst ==> t in OwnTables(s0.nodes, dst);
    }
    assert s.nodes.Keys == others + OwnTables(s.nodes, dst);
  }

  lemma OwnPageKeys(s0: State, s: State, dst: nat)
    requires OnlyGrew(s0, s, dst) && (forall p :: p in s0.pages ==> p.root != dst)
    ensures |s.pages| == |s0.pages| + |OwnPages(s.pages, dst)|
  {
    hide RootTables;
    assert s.pages.Keys == s0.pages.Keys + OwnPages(s.pages, dst);
  }

  lemma CopiesSoFar(s0: State, s: State, src: nat, dst: nat, x: Pos)
    requires CopiedTo(s0, s, src, dst, x)
    ensures OwnPages(s.pages, dst) == Twins(Before(s0.pages, src, x), dst)
  {
    hide OnlyGrew, PageBefore;
    forall q | q in OwnPages(s.pages, dst) ensures q in Twins(Before(s0.pages, src, x), dst) {
      SameBefore(q, src, x);
      assert Twin(Twin(q, src), dst) == q;
    }
    forall p | p in Before(s0.pages, src, x) ensures Twin(p, dst) in OwnPages(s.pages, dst) {
      assert Copied(s0, s, dst, p);
    }
  }

  lemma SameBefore(p: Page, root: nat, x: Pos)
    ensures PageBefore(Twin(p, root), x) <==> PageBefore(p, x)
  {
  }

  lemma TablesSoFar(s0: State, s: State, universe: set<nat>, dst: nat)
    requires WellFormed(s.mem, s.nodes, s.pages) && Pml4(dst) in s.nodes && Spare(s0, s, universe, dst)
    ensures OwnTables(s.nodes, dst) == Wanted(OwnPages(s.pages, dst), dst)
  {
    hide WellFormed, Owns;
    forall t | t in Wanted(OwnPages(s.pages, dst), dst) ensures t in OwnTables(s.nodes, dst) {
      if t != Pml4(dst) {
        var p :| p in OwnPages(s.pages, dst) && t in Path(Twin(p, dst));
        OnThePath(s.mem, s.nodes, s.pages, p);
      }
    }
  }

  /** What the copy has taken from the allocator when it has come to `x`. */
  lemma Spent(s0: State, s: State, universe: set<nat>, src: nat, dst: nat, x: Pos)
    requires Source(s0, src, dst) && CopiedTo(s0, s, src, dst, x) && Spare(s0, s, universe, dst)
    requires WellFormed(s.mem, s.nodes, s.pages) && Owns(s, universe)
    ensures |s0.free| + 1 == |s.free| + Cost(Before(s0.pages, src, x), src)
    ensures OwnTables(s.nodes, dst) == Wanted(Before(s0.pages, src, x), dst)
  {
    hide WellFormed, Owns, Wanted, Before, Copied, RootTables, PageBefore;
    assert OnlyGrew(s0, s, dst) && s.held == s0.held;
    assert Pml4(dst) in OwnTables(s0.nodes, dst);
    OwnKeys(s0, s, dst);
    OwnPageKeys(s0, s, dst);
    CopiesSoFar(s0, s, src, dst, x);
    TablesSoFar(s0, s, universe, dst);
    OneSource(s0.pages, src, x);
    SameCost(Before(s0.pages, src, x), src, dst);
    WantedTwins(Before(s0.pages, src, x), dst);
    Count(s0, universe);
    Count(s, universe);
  }

  lemma OneSource(pages: map<Page, Mapping>, src: nat, x: Pos)
    ensures forall p :: p in Before(pages, src, x) ==> p.root == src
  {
  }

  /** The table that could not be made was the one memory ran out on. */
  lemma RanOut(s0: State, s: State, universe: set<nat>, p: Page, dst: nat)
    requires Source(s0, p.root, dst) && CopiedTo(s0, s, p.root, dst, At(p)) && Spare(s0, s, universe, dst)
    requires WellFormed(s.mem, s.nodes, s.pages) && Owns(s, universe)
    requires 0 < |s.free| <= |Path(Twin(p, dst)) - s.nodes.Keys|
    ensures EndsOnATable(s0.pages, p, |s0.free| + 1)
  {
    hide WellFormed, Owns, Wanted, Path, CopiedTo, Source, Spare, PageBefore, Before, Cost, OwnTables;
    var before := Before(s0.pages, p.root, At(p));
    Spent(s0, s, universe, p.root, dst, At(p));
    OneSource(s0.pages, p.root, At(p));
    MissingOnes(s.nodes, p, dst);
    Next(s0.pages, p, dst);
  }

  lemma MissingOnes(nodes: map<Table, nat>, p: Page, dst: nat)
    ensures Path(Twin(p, dst)) - nodes.Keys == Path(Twin(p, dst)) - OwnTables(nodes, dst)
  {
    hide Path;
    forall t | t in Path(Twin(p, dst)) ensures t.root == dst { PathRoot(Twin(p, dst), t); }
  }

  lemma Next(pages: map<Page, Mapping>, p: Page, dst: nat)
    ensures var before := Before(pages, p.root, At(p));
      Cost(before + {p}, p.root) == CostBefore(pages, p) + 1 + |Path(Twin(p, dst)) - Wanted(before, dst)|
  {
    hide Wanted, Path, PageBefore, Cost;
    var before := Before(pages, p.root, At(p));
    OneSource(pages, p.root, At(p));
    assert p !in before by { Irreflexive(p); }
    OneMoreElsewhere(before, p, dst);
    CostOfOne(before, dst, p);
    SameCostSet(before, p.root, dst);
  }

  lemma Irreflexive(p: Page)
    ensures !PageBefore(p, At(p))
  {
  }

  lemma SameCostSet(pages: set<Page>, src: nat, dst: nat)
    requires forall p :: p in pages ==> p.root == src
    ensures Cost(pages, dst) == Cost(pages, src)
  {
    hide Wanted;
    WantedElsewhere(pages, src, dst);
  }

  lemma OneMoreElsewhere(pages: set<Page>, p: Page, dst: nat)
    requires forall q :: q in pages ==> q.root == p.root
    ensures Cost(pages + {p}, dst) == Cost(pages + {p}, p.root)
  {
    SameCostSet(pages + {p}, p.root, dst);
  }

  /** Mapping a copy adds no table that has no page below it. */
  lemma SpareStep(s0: State, s: State, s': State, universe: set<nat>, dst: nat, q: Page)
    requires Spare(s0, s, universe, dst) && q.root == dst
    requires s'.nodes.Keys <= s.nodes.Keys + Path(q) && s'.pages.Keys == s.pages.Keys + {q}
    ensures Spare(s0, s', universe, dst)
  {
    hide Owns, Path, Wanted;
    assert OwnPages(s'.pages, dst) == OwnPages(s.pages, dst) + {q};
    assert Twin(q, dst) == q;
    WantedOne(OwnPages(s.pages, dst), dst, q);
  }

  lemma BeforeCopy(v: Vmm, s0: State, dst: nat, p: Page)
    requires Copying(v, s0, p.root, dst, Pos(p.a, p.b, p.c, p.d)) && p in s0.pages && UserPage(p)
    ensures p.root != dst && Pml4(dst) in v.nodes && p.Address() < USER_LIMIT
      && PageOf(dst, p.Address()) == Twin(p, dst)
    ensures Twin(p, dst) !in v.pages && v.pmm.free !! RootTables(v.nodes, dst)
    ensures WellFormed(v.mem, v.nodes, v.pages) && v.pmm.free !! v.held
    ensures s0.pages[p].frame < |v.mem| == |s0.mem| && v.mem[s0.pages[p].frame] == s0.mem[s0.pages[p].frame]
  {
    hide Spare, Pmm.Valid, WellFormed, KernelHalf, PageOf, Page.Address, Copied;
    PageOfAddress(Twin(p, dst));
    assert Twin(p, dst).Address() == p.Address() by { TwinAddress(p, dst); }
  }

  lemma TwinAddress(p: Page, dst: nat)
    ensures Twin(p, dst).Address() == p.Address()
  {
  }

  function PageAt(src: nat, x: Pos): Page { Page(src, x.a, x.b, x.c, x.d) }

  /** The copy stopped for want of memory at the parent's page at `x`: a frame for the copy itself, or
      (a panic) one for a table above it. */
  ghost predicate Stopped(v: Vmm, s0: State, src: nat, dst: nat, st: Status, x: Pos)
    reads v, v.pmm, v.pmm.bitmap
  {
    && v.pmm.free == {} && PageAt(src, x) in s0.pages
    && (st.NoMemory? ==> Copying(v, s0, src, dst, x))
    && (st.Panicked? ==> EndsOnATable(s0.pages, PageAt(src, x), |s0.free| + 1))
  }

  /** `fork_copy_page` */
  method ForkCopyPage(v: Vmm, pte: u64, dst: nat, vaddr: nat, ghost s0: State, ghost p: Page) returns (st: Status)
    requires Copying(v, s0, p.root, dst, At(p))
    requires p in s0.pages && UserPage(p) && vaddr == p.Address()
    requires s0.pages[p] == Mapping(FrameOf(pte), PteToFlags(pte))
    modifies v`mem, v`nodes, v`pages, v`held, v.pmm, v.pmm.bitmap
    ensures Good(v)
    ensures st.Done? ==> Copying(v, s0, p.root, dst, Pos(p.a, p.b, p.c, p.d + 1))
    ensures !st.Done? ==> Stopped(v, s0, p.root, dst, st, At(p))
  {
    hide Pmm.Valid, Vmm.Valid, Owns, FrameOf, PteToFlags, Portable, PageOf, Page.Address, Copied, PageBefore, Grew,
         StepTo, Spare, TablesAdded, Path, EndsOnATable, CopiedTo, Source, RootTables, WellFormed;
    ghost var s := Now(v);
    BeforeCopy(v, s0, dst, p);
    var srcFrame := FrameOf(pte);
    var dstPhys := TakePage(v);
    if dstPhys == 0 { return NoMemory; }
    var f := dstPhys / PAGE_SIZE;
    CopyPage(v, f, srcFrame);
    var ok := MapHeld(v, dst, vaddr, dstPhys, PteToFlags(pte));
    if !ok {
      RanOut(s0, s, v.universe, p, dst);
      return Panicked;
    }
    MapFilled(s, dst, Twin(p, dst), f, PteToFlags(pte), s0.mem[srcFrame], v.mem, v.nodes, v.pmm.free);
    CopyStep(s0, s, Now(v), v.universe, p.root, dst, p, f);
    NewTables(s.nodes, s.free - {f}, v.nodes, v.pmm.free, Path(Twin(p, dst)));
    SpareStep(s0, s, Now(v), v.universe, dst, Twin(p, dst));
    st := Done;
  }

  lemma NewTables(nodes: map<Table, nat>, free: set<nat>, nodes': map<Table, nat>, free': set<nat>, wanted: set<Table>)
    requires TablesAdded(nodes, free, nodes', free', wanted, true)
    ensures nodes'.Keys <= nodes.Keys + wanted
  {
  }

  /** Reading the parent's tables during the walk still shows the parent's original mapping. */
  lemma SourceEntry(v: Vmm, s0: State, src: nat, dst: nat, x: Pos, t: Table, i: nat)
    requires Copying(v, s0, src, dst, x) && t in s0.nodes && t.root == src && t.Index(i)
    ensures s0.nodes[t] < |v.mem| && i < ENTRIES
    ensures var e := v.mem[s0.nodes[t]][i];
      if t.Pt? then
        var p := Page(t.root, t.a, t.b, t.c, i);
        (p in s0.pages <==> Present(e)) && (Present(e) ==> s0.pages[p] == Mapping(FrameOf(e), PteToFlags(e)))
      else
        (t.Child(i) in s0.nodes <==> Present(e)) && (Present(e) ==> s0.nodes[t.Child(i)] == FrameOf(e) && !Huge(e))
  {
    hide Spare, Pmm.Valid, WellFormed, KernelHalf, Owns, FrameOf, PteToFlags, Present, Huge, Copied, PageBefore;
    ReadEntry(v.mem, v.nodes, v.pages, t, i);
    if !t.Pt? { assert t.Child(i).root == src; }
  }

  lemma SourceShape(s0: State, src: nat, dst: nat)
    requires Source(s0, src, dst)
    ensures Shape(s0.mem, s0.nodes, s0.pages)
  {
    hide EntryOk;
  }

  /** Moving on without passing a page of the parent. */
  lemma Reposition(v: Vmm, s0: State, src: nat, dst: nat, x: Pos, y: Pos)
    requires Copying(v, s0, src, dst, x)
    requires forall p :: p in s0.pages && p.root == src ==> (PageBefore(p, x) <==> PageBefore(p, y))
    ensures Copying(v, s0, src, dst, y)
  {
    hide Spare, Good, OnlyGrew, Copied, WellFormed;
    forall q | q in Now(v).pages && q.root == dst ensures PageBefore(q, y) {
      assert PageBefore(Twin(q, src), x);
    }
  }

  lemma PastTable(v: Vmm, s0: State, src: nat, dst: nat, t: Table)
    requires Copying(v, s0, src, dst, End(t)) && !t.Pml4? && t.root == src
    ensures Copying(v, s0, src, dst, After(t))
  {
    hide Spare, Good, CopiedTo, EntryOk;
    LeaveTable(s0.mem, s0.nodes, s0.pages, t);
    Reposition(v, s0, src, dst, End(t), After(t));
  }

  lemma PastAbsent(v: Vmm, s0: State, src: nat, dst: nat, t: Table)
    requires Copying(v, s0, src, dst, Start(t)) && !t.Pml4? && t.root == src && t !in s0.nodes
    ensures Copying(v, s0, src, dst, After(t))
  {
    hide Spare, Good, CopiedTo, EntryOk;
    forall p | p in s0.pages && p.root == src ensures PageBefore(p, Start(t)) <==> PageBefore(p, After(t)) {
      PageIndices(s0.mem, s0.nodes, s0.pages, p);
    }
    Reposition(v, s0, src, dst, Start(t), After(t));
  }

  lemma PastNoPage(v: Vmm, s0: State, src: nat, dst: nat, p: Page)
    requires Copying(v, s0, src, dst, Pos(p.a, p.b, p.c, p.d)) && p.root == src && p !in s0.pages
    ensures Copying(v, s0, src, dst, Pos(p.a, p.b, p.c, p.d + 1))
  {
    hide Spare, Good, CopiedTo, WellFormed;
    Reposition(v, s0, src, dst, Pos(p.a, p.b, p.c, p.d), Pos(p.a, p.b, p.c, p.d + 1));
  }

  /** The innermost loop of `vmm_fork_address_space`. */
  method CopyPt(v: Vmm, pt: nat, dst: nat, a: nat, b: nat, c: nat, src: nat, ghost s0: State)
    returns (st: Status, ghost x: Pos)
    requires Copying(v, s0, src, dst, Pos(a, b, c, 0))
    requires Pt(src, a, b, c) in s0.nodes && s0.nodes[Pt(src, a, b, c)] == pt
    modifies v`mem, v`nodes, v`pages, v`held, v.pmm, v.pmm.bitmap
    ensures Good(v)
    ensures st.Done? ==> Copying(v, s0, src, dst, Pos(a, b, c + 1, 0))
    ensures !st.Done? ==> Stopped(v, s0, src, dst, st, x)
  {
    hide Pmm.Valid, Vmm.Valid, Owns, FrameOf, PteToFlags, Present, Huge, WellFormed, CopiedTo, Source, Spare,
         EndsOnATable, Page.Address;
    var d := 0;
    x := Pos(a, b, c, 0);
    while d < ENTRIES
      invariant 0 <= d <= ENTRIES && Copying(v, s0, src, dst, Pos(a, b, c, d))
    {
      ghost var p := Page(src, a, b, c, d);
      x := Pos(a, b, c, d);
      SourceEntry(v, s0, src, dst, x, Pt(src, a, b, c), d);
      if Present(v.mem[pt][d]) {
        PageIndices(s0.mem, s0.nodes, s0.pages, p) by { SourceShape(s0, src, dst); }
        st := ForkCopyPage(v, v.mem[pt][d], dst, Page(src, a, b, c, d).Address(), s0, p);
        if !st.Done? { return; }
      } else {
        PastNoPage(v, s0, src, dst, p);
      }
      d := d + 1;
    }
    st := Done;
    PastTable(v, s0, src, dst, Pt(src, a, b, c));
  }

  method CopyPd(v: Vmm, pd: nat, dst: nat, a: nat, b: nat, src: nat, ghost s0: State)
    returns (st: Status, ghost x: Pos)
    requires Copying(v, s0, src, dst, Pos(a, b, 0, 0))
    requires Pd(src, a, b) in s0.nodes && s0.nodes[Pd(src, a, b)] == pd
    modifies v`mem, v`nodes, v`pages, v`held, v.pmm, v.pmm.bitmap
    ensures Good(v)
    ensures st.Done? ==> Copying(v, s0, src, dst, Pos(a, b + 1, 0, 0))
    ensures !st.Done? ==> Stopped(v, s0, src, dst, st, x)
  {
    hide Pmm.Valid, Vmm.Valid, Owns, FrameOf, PteToFlags, Present, Huge, WellFormed, CopiedTo, Source, Spare,
         EndsOnATable;
    var c := 0;
    x := Pos(a, b, 0, 0);
    while c < ENTRIES
      invariant 0 <= c <= ENTRIES && Copying(v, s0, src, dst, Pos(a, b, c, 0))
    {
      SourceEntry(v, s0, src, dst, Pos(a, b, c, 0), Pd(src, a, b), c);
      if Present(v.mem[pd][c]) && !Huge(v.mem[pd][c]) {
        st, x := CopyPt(v, FrameOf(v.mem[pd][c]), dst, a, b, c, src, s0);
        if !st.Done? { return; }
      } else {
        PastAbsent(v, s0, src, dst, Pd(src, a, b).Child(c));
      }
      c := c + 1;
    }
    st := Done;
    PastTable(v, s0, src, dst, Pd(src, a, b));
  }

  method CopyPdpt(v: Vmm, pdpt: nat, dst: nat, a: nat, src: nat, ghost s0: State)
    returns (st: Status, ghost x: Pos)
    requires Copying(v, s0, src, dst, Pos(a, 0, 0, 0))
    requires Pdpt(src, a) in s0.nodes && s0.nodes[Pdpt(src, a)] == pdpt
    modifies v`mem, v`nodes, v`pages, v`held, v.pmm, v.pmm.bitmap
    ensures Good(v)
    ensures st.Done? ==> Copying(v, s0, src, dst, Pos(a + 1, 0, 0, 0))
    ensures !st.Done? ==> Stopped(v, s0, src, dst, st, x)
  {
    hide Pmm.Valid, Vmm.Valid, Owns, FrameOf, PteToFlags, Present, Huge, WellFormed, CopiedTo, Source, Spare,
         EndsOnATable;
    var b := 0;
    x := Pos(a, 0, 0, 0);
    while b < ENTRIES
      invariant 0 <= b <= ENTRIES && Copying(v, s0, src, dst, Pos(a, b, 0, 0))
    {
      SourceEntry(v, s0, src, dst, Pos(a, b, 0, 0), Pdpt(src, a), b);
      if Present(v.mem[pdpt][b]) && !Huge(v.mem[pdpt][b]) {
        st, x := CopyPd(v, FrameOf(v.mem[pdpt][b]), dst, a, b, src, s0);
        if !st.Done? { return; }
      } else {
        PastAbsent(v, s0, src, dst, Pdpt(src, a).Child(b));
      }
      b := b + 1;
    }
    st := Done;
    PastTable(v, s0, src, dst, Pdpt(src, a));
  }

  method CopySpace(v: Vmm, src: nat, dst: nat, ghost s0: State) returns (st: Status, ghost x: Pos)
    requires Copying(v, s0, src, dst, Pos(0, 0, 0, 0)) && s0.nodes[Pml4(src)] == src
    modifies v`mem, v`nodes, v`pages, v`held, v.pmm, v.pmm.bitmap
    ensures Good(v)
    ensures st.Done? ==> Copying(v, s0, src, dst, Pos(KERNEL_START, 0, 0, 0))
    ensures !st.Done? ==> Stopped(v, s0, src, dst, st, x)
  {
    hide Pmm.Valid, Vmm.Valid, Owns, FrameOf, PteToFlags, Present, Huge, WellFormed, CopiedTo, Source, Spare,
         EndsOnATable;
    var a := 0;
    x := Pos(0, 0, 0, 0);
    while a < KERNEL_START
      invariant 0 <= a <= KERNEL_START && Copying(v, s0, src, dst, Pos(a, 0, 0, 0))
    {
      SourceEntry(v, s0, src, dst, Pos(a, 0, 0, 0), Pml4(src), a);
      assert Pml4(src).Child(a) == Pdpt(src, a);
      if Present(v.mem[src][a]) {
        st, x := CopyPdpt(v, FrameOf(v.mem[src][a]), dst, a, src, s0);
        if !st.Done? { return; }
      } else {
        PastAbsent(v, s0, src, dst, Pdpt(src, a));
      }
      a := a + 1;
    }
    st := Done;
  }

  datatype ForkResult = Forked(root: nat) | OutOfMemory | KernelPanic

  /** `s` is `s0` with a copy of address space `src` at `dst`: the same pages, each in a frame that
      was free, with equal flags and contents; nothing that was in use before has changed. */
  ghost predicate IsFork(s0: State, s: State, src: nat, dst: nat) {
    && dst in s0.free && Pml4(dst) !in s0.nodes && Pml4(dst) in s.nodes && s.held == s0.held && |s.mem| == |s0.mem|
    && (forall t :: t in s0.nodes ==> t in s.nodes && s.nodes[t] == s0.nodes[t])
    && (forall t :: t in s.nodes && t !in s0.nodes ==> t.root == dst)
    && (forall p: Page :: p.root != dst ==>
      ((p in s.pages <==> p in s0.pages) && (p in s0.pages ==> s.pages[p] == s0.pages[p])))
    && (forall p: Page :: p.root == src ==> (p in s0.pages <==> Twin(p, dst) in s.pages))
    && (forall p :: p in s0.pages && p.root == src ==> Copied(s0, s, dst, p))
    && (forall f :: 0 <= f < |s0.mem| && f !in s0.free ==> s.mem[f] == s0.mem[f])
  }

  /** A fork that ran out of memory: the address spaces are as they were; the pages copied so far
      stay taken although no table points to them any more. */
  ghost predicate IsFailedFork(s0: State, s: State) {
    && s.nodes == s0.nodes && s.pages == s0.pages && s0.held <= s.held && s.free == s0.free - (s.held - s0.held)
    && |s.mem| == |s0.mem| && forall f :: 0 <= f < |s0.mem| && f !in s0.free ==> s.mem[f] == s0.mem[f]
  }

  lemma StartCopy(v: Vmm, sOld: State, src: nat, dst: nat)
    requires Good(v) && WellFormed(sOld.mem, sOld.nodes, sOld.pages) && Created(sOld, Now(v), dst)
      && Pml4(src) in sOld.nodes
    ensures Copying(v, Now(v), src, dst, Pos(0, 0, 0, 0)) && v.nodes[Pml4(src)] == src
  {
    hide Pmm.Valid, WellFormed, KernelHalf, Owns, Wanted, OwnTables, OwnPages, Copied;
    OnThePath(v.mem, v.nodes, v.pages, Page(0, 0, 0, 0, 0));
    OnePlaceEach(v.mem, v.nodes, v.pages, v.pmm.free, v.held, v.universe);
    forall p | p in v.pages ensures v.pages[p].frame < |v.mem| && v.pages[p].frame !in RootTables(v.nodes, dst) {
    }
    assert Spare(Now(v), Now(v), v.universe, dst) by {
      NewRootTables(sOld, Now(v), dst);
      OnlyRoot(sOld, Now(v), dst);
    }
  }

  lemma OnlyRoot(sOld: State, s: State, dst: nat)
    requires Created(sOld, s, dst) && forall t :: t in sOld.nodes ==> t.root != dst
    ensures OwnTables(s.nodes, dst) == {Pml4(dst)} && OwnTables(s.nodes, dst) <= Wanted(OwnPages(s.pages, dst), dst)
  {
    hide Path;
  }

  lemma NewRootTables(sOld: State, s0: State, dst: nat)
    requires WellFormed(sOld.mem, sOld.nodes, sOld.pages) && Created(sOld, s0, dst)
    ensures RootTables(s0.nodes, dst) == {dst} && forall t :: t in sOld.nodes ==> t.root != dst
  {
    hide EntryOk;
    forall t | t in sOld.nodes ensures t.root != dst { TableIndices(sOld.mem, sOld.nodes, sOld.pages, t); }
    assert s0.nodes[Pml4(dst)] == dst;
  }

  lemma FinishCopy(sOld: State, s0: State, s: State, src: nat, dst: nat)
    requires WellFormed(sOld.mem, sOld.nodes, sOld.pages) && Created(sOld, s0, dst)
    requires Source(s0, src, dst) && CopiedTo(s0, s, src, dst, Pos(KERNEL_START, 0, 0, 0))
    ensures IsFork(sOld, s, src, dst)
  {
    hide WellFormed, Copied, Source, PageBefore;
    NewRootTables(sOld, s0, dst);
    forall p: Page | p.root == src
      ensures p in sOld.pages <==> Twin(p, dst) in s.pages
      ensures p in sOld.pages ==> Copied(sOld, s, dst, p)
    {
      FinishPage(sOld, s0, s, src, dst, p);
    }
  }

  lemma FinishPage(sOld: State, s0: State, s: State, src: nat, dst: nat, p: Page)
    requires Created(sOld, s0, dst) && RootTables(s0.nodes, dst) == {dst} && p.root == src
    requires Source(s0, src, dst) && CopiedTo(s0, s, src, dst, Pos(KERNEL_START, 0, 0, 0))
    ensures p in sOld.pages <==> Twin(p, dst) in s.pages
    ensures p in sOld.pages ==> Copied(sOld, s, dst, p)
  {
    hide WellFormed, OnlyGrew, PageBefore;
    assert Twin(Twin(p, dst), src) == p;
    if p in s0.pages {
      AllBefore(s0, p);
      assert Copied(s0, s, dst, p);
    }
  }

  lemma RootKept(s0: State, s: State, src: nat, dst: nat, x: Pos)
    requires CopiedTo(s0, s, src, dst, x) && Pml4(dst) in s0.nodes
    ensures Pml4(dst) in s.nodes
  {
    hide Copied;
  }

  lemma AllBefore(s: State, p: Page)
    requires WellFormed(s.mem, s.nodes, s.pages) && p in s.pages
    ensures PageBefore(p, Pos(KERNEL_START, 0, 0, 0))
  {
    hide EntryOk;
    PageIndices(s.mem, s.nodes, s.pages, p);
  }

  lemma AbandonCopy(sOld: State, s0: State, s1: State, s2: State, universe: set<nat>, src: nat, dst: nat, x: Pos)
    requires WellFormed(sOld.mem, sOld.nodes, sOld.pages) && Created(sOld, s0, dst)
    requires Source(s0, src, dst) && CopiedTo(s0, s1, src, dst, x)
    requires s2.mem == s1.mem && s2.nodes == OtherTables(s1.nodes, dst) && s2.pages == OtherPages(s1.pages, dst)
    requires s2.held == s1.held + RootLeaves(s1.pages, dst)
    requires Owns(sOld, universe) && Owns(s2, universe)
    ensures IsFailedFork(sOld, s2)
  {
    hide WellFormed, PageBefore, Copied;
    NewRootTables(sOld, s0, dst);
    assert s2.nodes == sOld.nodes;
    assert s2.pages == sOld.pages;
    SameRest(sOld, s2, universe);
  }

  lemma SameRest(s: State, s': State, universe: set<nat>)
    requires Owns(s, universe) && Owns(s', universe) && s.nodes == s'.nodes && s.pages == s'.pages && s.held <= s'.held
    ensures s'.free == s.free - (s'.held - s.held)
  {
    forall f ensures f in s'.free <==> f in s.free - (s'.held - s.held) {
      if f in universe {}
    }
  }

  /** The copies made before memory ran out, and only those, stay behind in nobody's hands. */
  ghost predicate LostCopies(s0: State, s: State, src: nat) {
    exists p :: p in OwnPages(s0.pages, src) && CostBefore(s0.pages, p) == |s0.free|
             && |s.held| == |s0.held| + |Before(s0.pages, src, At(p))|
  }

  lemma EndedWhole(sOld: State, s0: State, s: State, universe: set<nat>, src: nat, dst: nat)
    requires Created(sOld, s0, dst) && Spare(s0, s, universe, dst)
    requires Source(s0, src, dst) && CopiedTo(s0, s, src, dst, Pos(KERNEL_START, 0, 0, 0))
    requires WellFormed(s.mem, s.nodes, s.pages) && Owns(s, universe)
    ensures CopyFits(sOld.pages, src, |sOld.free|) && !EndsOnAPage(sOld.pages, src, |sOld.free|)
  {
    hide WellFormed, Owns, Wanted, CopiedTo, Spare, Cost, EndsOnAPage;
    Spent(s0, s, universe, src, dst, Pos(KERNEL_START, 0, 0, 0));
    assert Before(sOld.pages, src, Pos(KERNEL_START, 0, 0, 0)) == OwnPages(sOld.pages, src) by {
      forall p | p in s0.pages ensures PageBefore(p, Pos(KERNEL_START, 0, 0, 0)) { AllBefore(s0, p); }
    }
    EndWhenItFits(sOld.pages, src, |sOld.free|);
  }

  lemma EndedOnAPage(sOld: State, s0: State, s1: State, s2: State, universe: set<nat>, src: nat, dst: nat, x: Pos)
    requires Created(sOld, s0, dst) && Spare(s0, s1, universe, dst)
    requires Source(s0, src, dst) && CopiedTo(s0, s1, src, dst, x) && PageAt(src, x) in s0.pages && s1.free == {}
    requires WellFormed(s1.mem, s1.nodes, s1.pages) && Owns(s1, universe)
    requires s2.held == s1.held + RootLeaves(s1.pages, dst)
    ensures EndsOnAPage(sOld.pages, src, |sOld.free|) && !CopyFits(sOld.pages, src, |sOld.free|)
    ensures LostCopies(sOld, s2, src)
  {
    hide WellFormed, Owns, Wanted, CopiedTo, Spare, Cost, EndsOnAPage, Source, RootLeaves, Before, CopyFits;
    var p := PageAt(src, x);
    assert At(p) == x;
    Spent(s0, s1, universe, src, dst, x);
    assert CostBefore(sOld.pages, p) == |sOld.free|;
    EndOnAPage(sOld.pages, p, |sOld.free|);
    assert p in OwnPages(sOld.pages, src);
    assert s1.held == sOld.held by { SameHeld(s0, s1, src, dst, x); }
    CopyFrames(s1, universe, dst);
    CopiesSoFar(s0, s1, src, dst, x);
    ImageSize(Before(sOld.pages, src, x), OwnPages(s1.pages, dst), q => Twin(q, dst)) by {
      OneSource(sOld.pages, src, x);
    }
  }

  lemma SameHeld(s0: State, s: State, src: nat, dst: nat, x: Pos)
    requires CopiedTo(s0, s, src, dst, x)
    ensures s.held == s0.held
  {
    hide Copied;
  }

  lemma OwnFrames(pages: map<Page, Mapping>, root: nat)
    requires forall p, q :: p in pages && q in pages && pages[p].frame == pages[q].frame ==> p == q
    ensures |RootLeaves(pages, root)| == |OwnPages(pages, root)|
  {
    var frame := (p: Page) => if p in pages then pages[p].frame else 0;
    forall f | f in RootLeaves(pages, root) ensures f in set p | p in OwnPages(pages, root) :: frame(p) {
      var p :| p in pages && p.root == root && pages[p].frame == f;
      assert p in OwnPages(pages, root) && frame(p) == f;
    }
    forall p | p in OwnPages(pages, root) ensures frame(p) in RootLeaves(pages, root) {}
    ImageSize(OwnPages(pages, root), RootLeaves(pages, root), frame);
  }

  lemma CopyFrames(s: State, universe: set<nat>, root: nat)
    requires Owns(s, universe)
    ensures |s.held + RootLeaves(s.pages, root)| == |s.held| + |OwnPages(s.pages, root)|
  {
    hide OwnPages;
    OwnFrames(s.pages, root);
    assert RootLeaves(s.pages, root) <= LeafFrames(s.pages) by {
      forall p | p in s.pages ensures s.pages[p].frame in LeafFrames(s.pages) { LeafOf(s.pages, p); }
    }
    assert s.held !! RootLeaves(s.pages, root);
  }

  /** At this address the processor finds in the child what it finds in the parent: the same rights and a frame
      with the same bytes that was free before; and in the parent what it found there before. */
  ghost predicate SameView(s0: State, s: State, src: nat, dst: nat, virt: nat) {
    && Walk(s.mem, src, virt) == Walk(s0.mem, src, virt)
    && match Walk(s0.mem, src, virt)
       case Fault => Walk(s.mem, dst, virt) == Fault
       case Large => false
       case Hit(phys, w, u, x) =>
         var child := Walk(s.mem, dst, virt);
         && child.Hit? && child == Hit(child.phys, w, u, x) && child.phys % PAGE_SIZE == phys % PAGE_SIZE
         && child.phys / PAGE_SIZE in s0.free && child.phys / PAGE_SIZE < |s.mem| && phys / PAGE_SIZE < |s0.mem|
         && s.mem[child.phys / PAGE_SIZE] == s0.mem[phys / PAGE_SIZE]
  }

  lemma ForkedView(s0: State, s: State, src: nat, dst: nat, virt: nat)
    requires WellFormed(s0.mem, s0.nodes, s0.pages) && WellFormed(s.mem, s.nodes, s.pages)
    requires IsFork(s0, s, src, dst) && Pml4(src) in s0.nodes && virt < USER_LIMIT
    ensures SameView(s0, s, src, dst, virt)
  {
    hide WellFormed, Walk, PageOf;
    var p := PageOf(src, virt);
    assert src != dst by { assert Pml4(dst) !in s0.nodes; }
    assert PageOf(dst, virt) == Twin(p, dst) && p.root == src by { TwinPage(src, dst, virt); }
    WalkAgrees(s0.mem, s0.nodes, s0.pages, src, virt);
    WalkAgrees(s.mem, s.nodes, s.pages, src, virt);
    WalkAgrees(s.mem, s.nodes, s.pages, dst, virt);
    if p in s0.pages { assert Copied(s0, s, dst, p); }
  }

  lemma TwinPage(src: nat, dst: nat, virt: nat)
    ensures PageOf(dst, virt) == Twin(PageOf(src, virt), dst) && PageOf(src, virt).root == src
  {
  }

  /** `vmm_fork_address_space`. How it ends is decided beforehand, by the parent's pages and the number
      of free pages. */
  method ForkAddressSpace(v: Vmm, src: nat) returns (r: ForkResult)
    requires Good(v) && Pml4(src) in v.nodes
    modifies v`mem, v`nodes, v`pages, v`held, v.pmm, v.pmm.bitmap
    ensures Good(v)
    ensures r.Forked? ==> IsFork(old(Now(v)), Now(v), src, r.root)
    ensures r.Forked? ==> forall virt: nat :: virt < USER_LIMIT ==> SameView(old(Now(v)), Now(v), src, r.root, virt)
    ensures r.OutOfMemory? ==> IsFailedFork(old(Now(v)), Now(v)) && LostCopies(old(Now(v)), Now(v), src)
    ensures r.KernelPanic? ==> v.pmm.free == {}
    ensures r.Forked? <==> CopyFits(old(v.pages), src, |old(v.pmm.free)|)
    ensures r.OutOfMemory? <==> EndsOnAPage(old(v.pages), src, |old(v.pmm.free)|)
  {
    hide SameView, Pmm.Valid, Vmm.Valid, Owns, WellFormed, CopiedTo, Source, IsFork, IsFailedFork, Spare, CopyFits,
      EndsOnAPage,
         EndsOnATable, LostCopies, Cost;
    GoodShape(v);
    var dst := CreateSpace(v);
    if dst == None {
      EndAtOnce(v.pages, src);
      return KernelPanic;
    }
    ghost var s0 := Now(v);
    StartCopy(v, old(Now(v)), src, dst.value);
    var st, x := CopySpace(v, src, dst.value, s0);
    GoodShape(v);
    match st {
      case Done =>
        FinishCopy(old(Now(v)), s0, Now(v), src, dst.value);
        EndedWhole(old(Now(v)), s0, Now(v), v.universe, src, dst.value);
        forall virt: nat | virt < USER_LIMIT ensures SameView(old(Now(v)), Now(v), src, dst.value, virt) {
          ForkedView(old(Now(v)), Now(v), src, dst.value, virt);
        }
        r := Forked(dst.value);
      case NoMemory =>
        ghost var s1 := Now(v);
        RootKept(s0, s1, src, dst.value, x);
        DestroyUserPml4(v, dst.value);
        AbandonCopy(old(Now(v)), s0, s1, Now(v), v.universe, src, dst.value, x);
        EndedOnAPage(old(Now(v)), s0, s1, Now(v), v.universe, src, dst.value, x);
        r := OutOfMemory;
      case Panicked =>
        EndOnATable(old(v.pages), PageAt(src, x), |old(v.pmm.free)|);
        r := KernelPanic;
    }
  }
}
