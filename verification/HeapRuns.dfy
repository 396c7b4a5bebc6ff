/** Whole runs of heap calls on the bytes of the heap. */
module HeapRuns {
  import opened Machine
  import opened HeapList
  import opened HeapBytes
  import opened HeapSpec
  import opened KernelHeap

  /** One call: the heap goes where the specification says and answers what it says. */
  method Step(h: Heap, c: Call) returns (r: nat)
    requires h.Valid() && Proper(h.State(), c)
    modifies h, h.mem
    ensures h.Valid() && old(Shaped(h.State()) && |h.list| > 0 && h.end <= HEAP_MAX)
    ensures h.State() == AfterCall(old(h.State()), c).state && r == AfterCall(old(h.State()), c).ret
    ensures Unnamed(old(h.list), c) <= Live(h.list) && SameOn(Unnamed(old(h.list), c), old(h.mem[..]), h.mem[..])
  {
    hide AfterMalloc, AfterFree, AfterRealloc, Heap.Linked, Shaped, Live, Ptrs, SameOn, AlignUp, SameBytes;
    ghost var l0, m0 := h.list, h.mem[..];
    CallKeeps(h.State(), c);
    OthersStay(h.State(), c);
    match c
    case Malloc(size, zero) =>
      r := h.Kmalloc(size, zero);
      SameOnFewer(Live(l0), Unnamed(l0, c), m0, h.mem[..]);
    case Release(ptr) =>
      if ptr != 0 { HeldBlock(h.State(), ptr) by { ShapedLayout(h.State()); } }
      h.Kfree(ptr);
      r := 0;
      SameOnFewer(Live(h.list), Unnamed(l0, c), m0, h.mem[..]);
    case Realloc(ptr, size) =>
      if ptr != 0 { HeldBlock(h.State(), ptr) by { ShapedLayout(h.State()); } }
      r := h.Krealloc(ptr, size);
      if ptr == 0 {
        SameOnFewer(Live(l0), Unnamed(l0, c), m0, h.mem[..]);
      } else {
        SameOnFewer(Live(l0) - {l0[BlockAt(l0, ptr, 0)]}, Unnamed(l0, c), m0, h.mem[..]);
      }
  }

  lemma ShapedLayout(s: HeapState)
    requires Shaped(s)
    ensures Layout(s.list, s.end)
  {
  }

  /** Any proper run of calls takes the heap to the state the specification gives for that run. If no request
      was refused there are no gaps, and if nothing is allocated at the end the heap is one free block. */
  method Run(h: Heap, calls: seq<Call>)
    requires h.Valid() && ProperRun(h.State(), calls)
    modifies h, h.mem
    ensures h.Valid() && old(Shaped(h.State())) && h.State() == AfterRun(old(h.State()), calls)
    ensures Bystanders(old(h.list), calls) <= Live(h.list)
      && SameOn(Bystanders(old(h.list), calls), old(h.mem[..]), h.mem[..])
    ensures old(Tight(h.list, h.end)) && !AnyRefused(old(h.State()), calls) ==>
      && Tight(h.list, h.end)
      && (Live(h.list) == {} ==> h.list == [Blk(HEAP_START, h.end - HEAP_START - HEADER, true)])
  {
    hide SameOn, Bystanders;
    EveryRun(h.State(), calls);
    Perform(h, calls);
  }

  method Perform(h: Heap, calls: seq<Call>)
    requires h.Valid() && ProperRun(h.State(), calls)
    modifies h, h.mem
    ensures h.Valid() && old(Shaped(h.State())) && h.State() == AfterRun(old(h.State()), calls)
    ensures Bystanders(old(h.list), calls) <= Live(h.list)
      && SameOn(Bystanders(old(h.list), calls), old(h.mem[..]), h.mem[..])
  {
    hide AfterCall, Proper, Shaped, Heap.Linked, SameOn, Live, Mentions;
    ghost var l0, m0 := h.list, h.mem[..];
    ghost var keep := Bystanders(l0, calls);
    SameOnRefl(keep, m0);
    if calls != [] {
      CallKeeps(h.State(), calls[0]);
      var r := Step(h, calls[0]);
      ghost var l1, m1 := h.list, h.mem[..];
      assert calls[0] in calls && forall c | c in calls[1..] :: c in calls;
      assert keep <= Unnamed(l0, calls[0]) && keep <= Bystanders(l1, calls[1..]);
      SameOnFewer(Unnamed(l0, calls[0]), keep, m0, m1);
      Perform(h, calls[1..]);
      SameOnTrans(keep, Bystanders(l1, calls[1..]), m0, m1, h.mem[..]);
    }
  }
}
