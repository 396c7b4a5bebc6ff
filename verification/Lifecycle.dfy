/** Whole runs: any script of address-space operations, and then giving everything back. */
module Lifecycle {
  import opened Machine
  import opened Pte
  import opened PageTables
  import opened VirtualMemory
  import opened Ownership
  import opened AddressSpaces
  import opened Teardown
  import opened Fork
  import opened ForkCost
  import opened PhysicalPages

  datatype Op =
    | Create
    | Take
    | Release(frame: nat)
    | Map(root: nat, virt: nat, frame: nat, flags: u32)
    | Unmap(root: nat, virt: nat)
    | ForkSpace(root: nat)
    | Free(root: nat)

  /** The memory, the address spaces alive and the pages in the caller's hands. */
  datatype World = World(s: State, roots: set<nat>, mine: set<nat>)

  /** How an operation ends: as asked; not at all, when the caller has no right to it or there is no page
      to be had; in a fork that ran out of memory; or in a kernel panic. */
  datatype Effect = Carried | Refused | Lost | Panic

  ghost predicate CreateOf(w: World, w': World, e: Effect) {
    if w.s.free == {} then e == Panic && w' == w
    else e == Carried && exists r :: Created(w.s, w'.s, r) && w' == w.(s := w'.s, roots := w.roots + {r})
  }

  ghost predicate TakeOf(w: World, w': World, e: Effect) {
    if w.s.free == {} then e == Refused && w' == w
    else e == Carried && exists f :: f in w.s.free && w' == Taken(w, f)
  }

  ghost function Taken(w: World, f: nat): World {
    World(w.s.(free := w.s.free - {f}, held := w.s.held + {f}), w.roots, w.mine + {f})
  }

  ghost predicate ReleaseOf(w: World, f: nat, w': World, e: Effect) {
    if f !in w.mine then e == Refused && w' == w
    else e == Carried && w' == World(w.s.(free := w.s.free + {f}, held := w.s.held - {f}), w.roots, w.mine - {f})
  }

  /** A page in the caller's hands is mapped where nothing is; the tables on the way must fit. */
  ghost predicate MapOf(w: World, root: nat, virt: nat, f: nat, flags: u32, w': World, e: Effect) {
    var p := PageOf(root, virt);
    if root !in w.roots || virt >= USER_LIMIT || f !in w.mine || p in w.s.pages then e == Refused && w' == w
    else if |Path(p) - w.s.nodes.Keys| > |w.s.free| then e == Panic && w'.s.free == {}
    else
      && e == Carried && w' == World(w'.s, w.roots, w.mine - {f}) && w'.s.held == w.s.held - {f}
      && w'.s.pages == w.s.pages[p := Mapping(f, Portable(flags))]
      && Grew(root, w.s.mem, w.s.nodes, w.s.free, w'.s.mem, w'.s.nodes, w'.s.free)
      && TablesAdded(w.s.nodes, w.s.free, w'.s.nodes, w'.s.free, Path(p), true)
  }

  ghost predicate UnmapOf(w: World, root: nat, virt: nat, w': World, e: Effect) {
    var p := PageOf(root, virt);
    if root !in w.roots || virt >= USER_LIMIT || p !in w.s.pages then e == Refused && w' == w
    else
      && e == Carried && w' == World(w'.s, w.roots, w.mine + {w.s.pages[p].frame})
      && w'.s == w.s.(mem := w'.s.mem, pages := w.s.pages - {p}, held := w.s.held + {w.s.pages[p].frame})
      && Grew(root, w.s.mem, w.s.nodes, w.s.free, w'.s.mem, w.s.nodes, w.s.free)
  }

  ghost predicate ForkOf(w: World, root: nat, w': World, e: Effect) {
    if root !in w.roots then e == Refused && w' == w
    else if CopyFits(w.s.pages, root, |w.s.free|) then
      e == Carried && exists dst :: IsFork(w.s, w'.s, root, dst) && w' == World(w'.s, w.roots + {dst}, w.mine)
    else if EndsOnAPage(w.s.pages, root, |w.s.free|) then
      e == Lost && IsFailedFork(w.s, w'.s) && LostCopies(w.s, w'.s, root) && w' == w.(s := w'.s)
    else e == Panic && w'.s.free == {}
  }

  ghost predicate FreeOf(w: World, root: nat, w': World, e: Effect) {
    if root !in w.roots then e == Refused && w' == w
    else
      && e == Carried && w' == World(w'.s, w.roots - {root}, w.mine)
      && w'.s == w.s.(nodes := OtherTables(w.s.nodes, root), pages := OtherPages(w.s.pages, root),
                      free := w.s.free + RootTables(w.s.nodes, root) + RootLeaves(w.s.pages, root))
  }

  /** Operation `op` may take `w` to `w'` with effect `e`; the effect is decided by `w` alone. */
  ghost predicate StepOf(w: World, op: Op, w': World, e: Effect) {
    match op
    case Create => CreateOf(w, w', e)
    case Take => TakeOf(w, w', e)
    case Release(f) => ReleaseOf(w, f, w', e)
    case Map(root, virt, f, flags) => MapOf(w, root, virt, f, flags, w', e)
    case Unmap(root, virt) => UnmapOf(w, root, virt, w', e)
    case ForkSpace(root) => ForkOf(w, root, w', e)
    case Free(root) => FreeOf(w, root, w', e)
  }

  ghost function Here(v: Vmm, roots: set<nat>, mine: set<nat>): World
    reads v, v.pmm
  {
    World(Now(v), roots, mine)
  }

  /** The pages that left the allocator for good in one step. */
  ghost function LossOf(held: set<nat>, held': set<nat>, e: Effect): nat {
    if e.Lost? && |held| <= |held'| then |held'| - |held| else 0
  }

  /** `lost` pages are in nobody's hands. */
  ghost predicate Tracks(v: Vmm, roots: set<nat>, mine: set<nat>, lost: nat)
    reads v, v.pmm, v.pmm.bitmap
  {
    && Good(v) && (forall t :: t in v.nodes ==> t.root in roots) && (forall r :: r in roots ==> Pml4(r) in v.nodes)
    && mine <= v.held && |v.held| == |mine| + lost
  }

  lemma SpaceOfEach(v: Vmm, roots: set<nat>, mine: set<nat>, lost: nat)
    requires Tracks(v, roots, mine, lost)
    ensures forall p :: p in v.pages ==> p.root in roots
    ensures forall t :: t in v.nodes ==> t.root in roots
    ensures forall p :: p in v.pages ==> 0 < v.pages[p].frame && v.pages[p].frame !in v.held
    ensures v.pmm.free !! v.held
  {
    hide Pmm.Valid, WellFormed, KernelHalf;
    forall p | p in v.pages ensures p.root in roots && 0 < v.pages[p].frame {
      OnThePath(v.mem, v.nodes, v.pages, p);
      LeafOf(v.pages, p);
      assert p.Pt().root == p.root;
    }
  }

  method CreateStep(v: Vmm, roots: set<nat>, ghost mine: set<nat>, ghost lost: nat)
    returns (roots': set<nat>, e: Effect)
    requires Tracks(v, roots, mine, lost)
    modifies v`mem, v`nodes, v.pmm, v.pmm.bitmap
    ensures CreateOf(old(Here(v, roots, mine)), Here(v, roots', mine), e)
    ensures !e.Panic? ==> Tracks(v, roots', mine, lost)
    ensures !e.Lost?
  {
    hide Pmm.Valid, Vmm.Valid, Owns;
    var r := CreateSpace(v);
    if r == None { return roots, Panic; }
    assert Created(old(Now(v)), Now(v), r.value);
    return roots + {r.value}, Carried;
  }

  method TakeStep(v: Vmm, roots: set<nat>, mine: set<nat>, ghost lost: nat) returns (mine': set<nat>, e: Effect)
    requires Tracks(v, roots, mine, lost)
    modifies v`held, v.pmm, v.pmm.bitmap
    ensures TakeOf(old(Here(v, roots, mine)), Here(v, roots, mine'), e) && Tracks(v, roots, mine', lost)
    ensures !e.Lost?
  {
    hide Pmm.Valid, Vmm.Valid, Owns;
    SpaceOfEach(v, roots, mine, lost);
    var phys := TakePage(v);
    if phys == 0 { return mine, Refused; }
    assert Here(v, roots, mine + {phys / PAGE_SIZE}) == Taken(old(Here(v, roots, mine)), phys / PAGE_SIZE);
    return mine + {phys / PAGE_SIZE}, Carried;
  }

  lemma GoodTables(v: Vmm)
    requires Good(v)
    ensures v.Valid()
  {
  }

  lemma GrownRoots(root: nat, mem: Mem, nodes: map<Table, nat>, free: set<nat>,
                   mem': Mem, nodes': map<Table, nat>, free': set<nat>)
    requires Grew(root, mem, nodes, free, mem', nodes', free')
    ensures nodes.Keys <= nodes'.Keys && forall t :: t in nodes' ==> t in nodes || t.root == root
  {
  }

  method MapStep(v: Vmm, root: nat, virt: nat, f: nat, flags: u32, roots: set<nat>, mine: set<nat>, ghost lost: nat)
    returns (mine': set<nat>, e: Effect)
    requires Tracks(v, roots, mine, lost)
    modifies v`mem, v`nodes, v`pages, v`held, v.pmm, v.pmm.bitmap
    ensures MapOf(old(Here(v, roots, mine)), root, virt, f, flags, Here(v, roots, mine'), e)
    ensures !e.Panic? ==> Tracks(v, roots, mine', lost)
    ensures !e.Lost?
  {
    hide Good, Vmm.Valid, Grew, PageOf, Portable, Path, TablesAdded;
    GoodTables(v);
    if root !in roots || virt >= USER_LIMIT || f !in mine { return mine, Refused; }
    SpaceOfEach(v, roots, mine, lost);
    var phys := v.GetPhysIn(root, virt);
    if phys != 0 { return mine, Refused; }
    assert f * PAGE_SIZE / PAGE_SIZE == f && f * PAGE_SIZE % PAGE_SIZE == 0;
    var ok := MapHeld(v, root, virt, f * PAGE_SIZE, flags);
    GrownRoots(root, old(v.mem), old(v.nodes), old(v.pmm.free), v.mem, v.nodes, v.pmm.free);
    return mine - {f}, if ok then Carried else Panic;
  }

  method UnmapStep(v: Vmm, root: nat, virt: nat, roots: set<nat>, mine: set<nat>, ghost lost: nat)
    returns (mine': set<nat>, e: Effect)
    requires Tracks(v, roots, mine, lost)
    modifies v`mem, v`pages, v`held
    ensures UnmapOf(old(Here(v, roots, mine)), root, virt, Here(v, roots, mine'), e) && Tracks(v, roots, mine', lost)
    ensures !e.Lost?
  {
    hide Pmm.Valid, Vmm.Valid, Owns, PageOf, Grew;
    if root !in roots || virt >= USER_LIMIT { return mine, Refused; }
    SpaceOfEach(v, roots, mine, lost);
    var phys := v.GetPhysIn(root, virt);
    if phys == 0 { return mine, Refused; }
    FrameOfPhys(v, root, virt, phys);
    UnmapHeld(v, root, virt);
    return mine + {phys / PAGE_SIZE}, Carried;
  }

  lemma FrameOfPhys(v: Vmm, root: nat, virt: nat, phys: nat)
    requires PageOf(root, virt) in v.pages && phys == v.pages[PageOf(root, virt)].frame * PAGE_SIZE + virt % PAGE_SIZE
    ensures phys / PAGE_SIZE == v.pages[PageOf(root, virt)].frame
  {
    hide PageOf;
  }

  lemma AfterFork(s0: State, s: State, src: nat, dst: nat)
    requires IsFork(s0, s, src, dst)
    ensures s.held == s0.held && Pml4(dst) in s.nodes && s0.nodes.Keys <= s.nodes.Keys
    ensures forall t :: t in s.nodes ==> t in s0.nodes || t.root == dst
  {
    hide Copied;
  }

  lemma AfterFailedFork(s0: State, s: State)
    requires IsFailedFork(s0, s)
    ensures s.nodes == s0.nodes && s0.held <= s.held && |s0.held| <= |s.held|
  {
    SubsetSize(s0.held, s.held);
  }

  method ForkStep(v: Vmm, root: nat, roots: set<nat>, ghost mine: set<nat>, ghost lost: nat)
    returns (roots': set<nat>, e: Effect)
    requires Tracks(v, roots, mine, lost)
    modifies v`mem, v`nodes, v`pages, v`held, v.pmm, v.pmm.bitmap
    ensures ForkOf(old(Here(v, roots, mine)), root, Here(v, roots', mine), e)
    ensures !e.Panic? ==> Tracks(v, roots', mine, lost + LossOf(old(v.held), v.held, e))
  {
    hide Good, IsFork, IsFailedFork, EndsOnAPage, CopyFits, LostCopies;
    if root !in roots { return roots, Refused; }
    var r := ForkAddressSpace(v, root);
    match r {
      case Forked(dst) =>
        AfterFork(old(Now(v)), Now(v), root, dst);
        assert IsFork(old(Now(v)), Now(v), root, dst);
        return roots + {dst}, Carried;
      case OutOfMemory =>
        AfterFailedFork(old(Now(v)), Now(v));
        return roots, Lost;
      case KernelPanic => return roots, Panic;
    }
  }

  method FreeStep(v: Vmm, root: nat, roots: set<nat>, ghost mine: set<nat>, ghost lost: nat)
    requires Tracks(v, roots, mine, lost) && root in roots
    modifies v`nodes, v`pages, v.pmm, v.pmm.bitmap
    ensures FreeOf(old(Here(v, roots, mine)), root, Here(v, roots - {root}, mine), Carried)
    ensures Tracks(v, roots - {root}, mine, lost)
  {
    hide Pmm.Valid, Vmm.Valid, Owns;
    FreeUserPages(v, root);
  }

  /** One operation. A page is lost only by a fork that runs out of memory. */
  method Step(v: Vmm, op: Op, roots: set<nat>, mine: set<nat>, ghost lost: nat)
    returns (roots': set<nat>, mine': set<nat>, e: Effect)
    requires Tracks(v, roots, mine, lost)
    modifies v`mem, v`nodes, v`pages, v`held, v.pmm, v.pmm.bitmap
    ensures StepOf(old(Here(v, roots, mine)), op, Here(v, roots', mine'), e)
    ensures !e.Panic? ==> Tracks(v, roots', mine', lost + LossOf(old(v.held), v.held, e))
  {
    hide Pmm.Valid, Vmm.Valid, Owns, MapOf, UnmapOf, ForkOf, CreateOf, TakeOf, Good;
    roots', mine', e := roots, mine, Refused;
    match op {
      case Create => roots', e := CreateStep(v, roots, mine, lost);
      case Take => mine', e := TakeStep(v, roots, mine, lost);
      case Release(f) =>
        if f in mine {
          ReleasePage(v, f * PAGE_SIZE);
          mine', e := mine - {f}, Carried;
        }
      case Map(root, virt, f, flags) => mine', e := MapStep(v, root, virt, f, flags, roots, mine, lost);
      case Unmap(root, virt) => mine', e := UnmapStep(v, root, virt, roots, mine, lost);
      case ForkSpace(root) => roots', e := ForkStep(v, root, roots, mine, lost);
      case Free(root) =>
        if root in roots {
          FreeStep(v, root, roots, mine, lost);
          roots', e := roots - {root}, Carried;
        }
    }
  }

  lemma PanicsWithoutPages(w: World, op: Op, w': World)
    requires StepOf(w, op, w', Panic)
    ensures w'.s.free == {}
  {
  }

  method FreeAll(v: Vmm, roots: set<nat>, ghost mine: set<nat>, ghost lost: nat)
    requires Tracks(v, roots, mine, lost)
    modifies v`nodes, v`pages, v.pmm, v.pmm.bitmap
    ensures Tracks(v, {}, mine, lost)
  {
    hide Good, FreeOf;
    var spaces := roots;
    while spaces != {}
      invariant Tracks(v, spaces, mine, lost)
    {
      var r :| r in spaces;
      FreeStep(v, r, spaces, mine, lost);
      spaces := spaces - {r};
    }
  }

  method ReleaseAll(v: Vmm, mine: set<nat>)
    requires Good(v) && mine <= v.held
    modifies v`held, v.pmm, v.pmm.bitmap
    ensures Good(v) && v.held == old(v.held) - mine
  {
    hide Good;
    var frames := mine;
    while frames != {}
      invariant Good(v) && v.held == old(v.held) - (mine - frames) && frames <= mine
    {
      var f :| f in frames;
      ReleasePage(v, f * PAGE_SIZE);
      frames := frames - {f};
    }
  }

  /** Tear down every address space left and release every page still in the caller's hands. */
  method GiveBack(v: Vmm, roots: set<nat>, mine: set<nat>, ghost lost: nat)
    requires Tracks(v, roots, mine, lost)
    modifies v`nodes, v`pages, v`held, v.pmm, v.pmm.bitmap
    ensures Good(v) && v.nodes == map[] && v.pages == map[]
    ensures v.held == old(v.held) - mine && v.pmm.free == v.universe - v.held && |v.held| == lost
  {
    hide Good;
    FreeAll(v, roots, mine, lost);
    SpaceOfEach(v, {}, mine, lost);
    ReleaseAll(v, mine);
    assert old(v.held) == mine + v.held;
    AllReturned(v);
  }

  /** The pages lost over the first `n` steps of a run. */
  ghost function Losses(trace: seq<World>, effects: seq<Effect>, n: nat): nat
    requires n <= |effects| && n < |trace|
  {
    if n == 0 then 0
    else Losses(trace, effects, n - 1) + LossOf(trace[n - 1].s.held, trace[n].s.held, effects[n - 1])
  }

  lemma {:induction false} LossesAlong(trace: seq<World>, effects: seq<Effect>, n: nat, w: World, e: Effect)
    requires n <= |effects| && n < |trace|
    ensures Losses(trace + [w], effects + [e], n) == Losses(trace, effects, n)
  {
    if n > 0 { LossesAlong(trace, effects, n - 1, w, e); }
  }

  /** `trace` follows the script, one effect a step, up to the first panic. */
  ghost predicate Follows(trace: seq<World>, script: seq<Op>, effects: seq<Effect>) {
    && |trace| == |effects| + 1 && |effects| <= |script|
    && (forall i :: 0 <= i < |effects| ==> StepOf(trace[i], script[i], trace[i + 1], effects[i]))
    && (forall i :: 0 <= i < |effects| - 1 ==> !effects[i].Panic?)
    && (|effects| < |script| ==> effects != [] && effects[|effects| - 1].Panic?)
  }

  ghost predicate SoFar(trace: seq<World>, script: seq<Op>, effects: seq<Effect>) {
    && |trace| == |effects| + 1 && |effects| <= |script| && Panic !in effects
    && (forall i :: 0 <= i < |effects| ==> StepOf(trace[i], script[i], trace[i + 1], effects[i]))
  }

  lemma OneMore(trace: seq<World>, script: seq<Op>, effects: seq<Effect>, w: World, e: Effect)
    requires SoFar(trace, script, effects) && |effects| < |script|
    requires StepOf(trace[|effects|], script[|effects|], w, e)
    ensures !e.Panic? ==> SoFar(trace + [w], script, effects + [e])
    ensures e.Panic? ==> Follows(trace + [w], script, effects + [e])
    ensures Losses(trace + [w], effects + [e], |effects| + 1)
         == Losses(trace, effects, |effects|) + LossOf(trace[|effects|].s.held, w.s.held, e)
  {
    hide StepOf, LossOf;
    LossesAlong(trace, effects, |effects|, w, e);
    forall i | 0 <= i < |effects| + 1
      ensures StepOf((trace + [w])[i], script[i], (trace + [w])[i + 1], (effects + [e])[i])
    {
      assert (trace + [w])[i] == trace[i];
    }
  }

  lemma {:induction false} LossesOnlyByForks(trace: seq<World>, effects: seq<Effect>, n: nat)
    requires n <= |effects| && n < |trace| && Lost !in effects
    ensures Losses(trace, effects, n) == 0
  {
    if n > 0 { LossesOnlyByForks(trace, effects, n - 1); }
  }

  /** Any script at all, then giving everything back. Every address space and every page in the caller's
      hands returns; what the allocator misses at the end is what failed forks left behind, page for
      page, and nothing when none failed. */
  method Run(v: Vmm, script: seq<Op>) returns (ghost trace: seq<World>, ghost effects: seq<Effect>, go: bool)
    requires Good(v) && v.nodes == map[] && v.pages == map[] && v.held == {}
    modifies v`mem, v`nodes, v`pages, v`held, v.pmm, v.pmm.bitmap
    ensures Follows(trace, script, effects) && trace[0] == World(old(Now(v)), {}, {})
    ensures go <==> Panic !in effects
    ensures !go ==> v.pmm.free == {}
    ensures go ==> Good(v) && v.nodes == map[] && v.pages == map[]
    ensures go ==> v.pmm.free == old(v.pmm.free) - v.held && |v.held| == Losses(trace, effects, |effects|)
    ensures go ==> v.held == trace[|effects|].s.held - trace[|effects|].mine
    ensures go && Lost !in effects ==> v.pmm.free == old(v.pmm.free)
  {
    hide Pmm.Valid, Vmm.Valid, Owns, StepOf, Good, LossOf;
    AllReturned(v);
    var roots, mine: set<nat> := {}, {};
    trace, effects, go := [Here(v, {}, {})], [], true;
    ghost var lost: nat := 0;
    for i := 0 to |script|
      invariant Tracks(v, roots, mine, lost) && SoFar(trace, script, effects) && |effects| == i && go
      invariant trace[0] == World(old(Now(v)), {}, {}) && trace[i] == Here(v, roots, mine)
      invariant lost == Losses(trace, effects, i)
    {
      ghost var w := Here(v, roots, mine);
      var e;
      roots, mine, e := Step(v, script[i], roots, mine, lost);
      OneMore(trace, script, effects, Here(v, roots, mine), e);
      lost := lost + LossOf(w.s.held, v.held, e);
      trace, effects := trace + [Here(v, roots, mine)], effects + [e];
      if e.Panic? {
        PanicsWithoutPages(w, script[i], Here(v, roots, mine));
        return trace, effects, false;
      }
    }
    GiveBack(v, roots, mine, lost);
    if Lost !in effects { LossesOnlyByForks(trace, effects, |effects|); }
  }
}
