/** How many physical pages a copy of an address space takes. */
module ForkCost {
  import opened Machine
  import opened PageTables
  import opened VirtualMemory
  import opened Ownership
  import opened WalkOrder
  import opened Teardown

  function Twin(p: Page, root: nat): Page { p.(root := root) }

  function Moved(t: Table, root: nat): Table { t.(root := root) }

  ghost function OwnTables(nodes: map<Table, nat>, root: nat): set<Table> { set t | t in nodes && t.root == root }

  ghost function OwnPages(pages: map<Page, Mapping>, root: nat): set<Page> { set p | p in pages && p.root == root }

  /** The pages of `src` that the walk passes before `x`. */
  ghost function Before(pages: map<Page, Mapping>, src: nat, x: Pos): set<Page> {
    set p | p in pages && p.root == src && PageBefore(p, x)
  }

  function At(p: Page): Pos { Pos(p.a, p.b, p.c, p.d) }

  ghost function Twins(pages: set<Page>, root: nat): set<Page> { set p | p in pages :: Twin(p, root) }

  /** The tables of an address space at `root` that holds exactly these pages and no empty table. */
  ghost function Wanted(pages: set<Page>, root: nat): set<Table> {
    {Pml4(root)} + (set p, t | p in pages && t in Path(Twin(p, root)) :: t)
  }

  /** One frame for each page, and one for each table above one. */
  ghost function Cost(pages: set<Page>, root: nat): nat { |Wanted(pages, root)| + |pages| }

  /** What is taken from the allocator by the time the copy of `src` comes to page `p`. */
  ghost function CostBefore(pages: map<Page, Mapping>, p: Page): nat { Cost(Before(pages, p.root, At(p)), p.root) }

  lemma {:induction false} ImageSize<A, B>(a: set<A>, b: set<B>, f: A -> B)
    requires b == set x | x in a :: f(x)
    requires forall x, y :: x in a && y in a && f(x) == f(y) ==> x == y
    ensures |b| == |a|
  {
    if a == {} {
    } else {
      var x :| x in a;
      ImageSize(a - {x}, b - {f(x)}, f);
    }
  }

  lemma WantedMore(pages: set<Page>, more: set<Page>, root: nat)
    requires pages <= more
    ensures Wanted(pages, root) <= Wanted(more, root) && Cost(pages, root) <= Cost(more, root)
    ensures pages != more ==> Cost(pages, root) < Cost(more, root)
  {
    hide Path;
    SubsetSize(Wanted(pages, root), Wanted(more, root));
    SubsetSize(pages, more);
    if pages != more {
      var p :| p in more && p !in pages;
      SubsetSize(pages + {p}, more);
    }
  }

  lemma WantedOne(pages: set<Page>, root: nat, p: Page)
    ensures Wanted(pages + {p}, root) == Wanted(pages, root) + Path(Twin(p, root))
  {
    hide Path;
  }

  /** Copying one more page takes a frame for it and one for each table missing above it. */
  lemma CostOfOne(pages: set<Page>, root: nat, p: Page)
    requires p !in pages
    ensures Cost(pages + {p}, root) == Cost(pages, root) + 1 + |Path(Twin(p, root)) - Wanted(pages, root)|
  {
    hide Path;
    WantedOne(pages, root, p);
    var w, path := Wanted(pages, root), Path(Twin(p, root));
    assert w + path == w + (path - w);
  }

  lemma MovedPath(p: Page, root: nat, t: Table)
    ensures t in Path(Twin(p, root)) <==> exists u :: u in Path(p) && t == Moved(u, root)
  {
    if t in Path(Twin(p, root)) { assert Moved(t, p.root) in Path(p) && t == Moved(Moved(t, p.root), root); }
  }

  lemma WantedElsewhere(pages: set<Page>, src: nat, dst: nat)
    requires forall p :: p in pages ==> p.root == src
    ensures |Wanted(pages, dst)| == |Wanted(pages, src)|
  {
    hide Path;
    var f := (t: Table) => Moved(t, dst);
    forall t | t in Wanted(pages, src) ensures t.root == src && f(t) in Wanted(pages, dst) {
      if t != Pml4(src) {
        var p :| p in pages && t in Path(Twin(p, src));
        PathRoot(Twin(p, src), t);
        MovedPath(p, dst, f(t));
        assert f(t) in Path(Twin(p, dst));
      }
    }
    forall t | t in Wanted(pages, dst) ensures t in set u | u in Wanted(pages, src) :: f(u) {
      if t == Pml4(dst) {
        assert f(Pml4(src)) == t;
      } else {
        var p :| p in pages && t in Path(Twin(p, dst));
        MovedPath(p, dst, t);
        var u :| u in Path(p) && t == Moved(u, dst);
        assert u in Path(Twin(p, src)) && f(u) == t;
      }
    }
    ImageSize(Wanted(pages, src), Wanted(pages, dst), f);
  }

  lemma PathRoot(p: Page, t: Table)
    requires t in Path(p)
    ensures t.root == p.root && !t.Pml4?
  {
  }

  lemma WantedTwins(pages: set<Page>, root: nat)
    ensures Wanted(Twins(pages, root), root) == Wanted(pages, root)
  {
    hide Path;
    forall p: Page ensures Twin(Twin(p, root), root) == Twin(p, root) {}
    forall t | t in Wanted(pages, root) ensures t in Wanted(Twins(pages, root), root) {
      if t != Pml4(root) {
        var p :| p in pages && t in Path(Twin(p, root));
        assert Twin(p, root) in Twins(pages, root);
        assert t in Path(Twin(Twin(p, root), root));
      }
    }
  }

  /** A copy of these pages costs the same wherever its root is. */
  lemma SameCost(pages: set<Page>, src: nat, dst: nat)
    requires forall p :: p in pages ==> p.root == src
    ensures Cost(Twins(pages, dst), dst) == Cost(pages, src)
  {
    hide Wanted;
    WantedTwins(pages, dst);
    WantedElsewhere(pages, src, dst);
    ImageSize(pages, Twins(pages, dst), p => Twin(p, dst));
  }

  lemma TableFrames(nodes: map<Table, nat>)
    requires forall t, u :: t in nodes && u in nodes && nodes[t] == nodes[u] ==> t == u
    ensures |nodes.Values| == |nodes|
  {
    ImageSize(nodes.Keys, nodes.Values, t => if t in nodes then nodes[t] else 0);
  }

  lemma PageFrames(pages: map<Page, Mapping>)
    requires forall p, q :: p in pages && q in pages && pages[p].frame == pages[q].frame ==> p == q
    ensures |LeafFrames(pages)| == |pages|
  {
    ImageSize(pages.Keys, LeafFrames(pages), p => if p in pages then pages[p].frame else 0);
  }

  /** Every page is counted once: as free, as held, as a table or as a leaf. */
  lemma Count(s: State, universe: set<nat>)
    requires WellFormed(s.mem, s.nodes, s.pages) && Owns(s, universe)
    ensures |universe| == |s.free| + |s.held| + |s.nodes| + |s.pages|
  {
    hide WellFormed, LeafFrames;
    assert |s.nodes.Values| == |s.nodes| && |LeafFrames(s.pages)| == |s.pages| by {
      hide Owns;
      OnePlaceEach(s.mem, s.nodes, s.pages, s.free, s.held, universe);
      TableFrames(s.nodes);
      PageFrames(s.pages);
    }
  }

  /** How the copy of `src` ends, decided by the pages it holds and the number of free pages. */
  ghost predicate CopyFits(pages: map<Page, Mapping>, src: nat, free: nat) { Cost(OwnPages(pages, src), src) <= free }

  ghost predicate EndsOnAPage(pages: map<Page, Mapping>, src: nat, free: nat) {
    exists p :: p in OwnPages(pages, src) && CostBefore(pages, p) == free
  }

  /** Memory runs out among the tables above `p`. */
  ghost predicate EndsOnATable(pages: map<Page, Mapping>, p: Page, free: nat) {
    CostBefore(pages, p) < free < Cost(Before(pages, p.root, At(p)) + {p}, p.root)
  }

  lemma BeforeSome(pages: map<Page, Mapping>, p: Page)
    requires p in pages
    ensures CostBefore(pages, p) < Cost(OwnPages(pages, p.root), p.root)
    ensures Cost(Before(pages, p.root, At(p)) + {p}, p.root) <= Cost(OwnPages(pages, p.root), p.root)
  {
    hide Wanted, Cost;
    assert p in OwnPages(pages, p.root) && p !in Before(pages, p.root, At(p));
    WantedMore(Before(pages, p.root, At(p)), OwnPages(pages, p.root), p.root);
    WantedMore(Before(pages, p.root, At(p)) + {p}, OwnPages(pages, p.root), p.root);
  }

  lemma EndWhenItFits(pages: map<Page, Mapping>, src: nat, free: nat)
    requires CopyFits(pages, src, free)
    ensures !EndsOnAPage(pages, src, free)
  {
    hide Cost;
    forall p | p in OwnPages(pages, src) ensures CostBefore(pages, p) != free { BeforeSome(pages, p); }
  }

  lemma EndOnAPage(pages: map<Page, Mapping>, p: Page, free: nat)
    requires p in pages && CostBefore(pages, p) == free
    ensures EndsOnAPage(pages, p.root, free) && !CopyFits(pages, p.root, free)
  {
    hide Cost;
    BeforeSome(pages, p);
    assert p in OwnPages(pages, p.root);
  }

  lemma EndOnATable(pages: map<Page, Mapping>, q: Page, free: nat)
    requires q in pages && EndsOnATable(pages, q, free)
    ensures !EndsOnAPage(pages, q.root, free) && !CopyFits(pages, q.root, free)
  {
    hide Wanted, Cost;
    BeforeSome(pages, q);
    forall p | p in OwnPages(pages, q.root) ensures CostBefore(pages, p) != free {
      var before := Before(pages, q.root, At(q));
      if p == q || PageBefore(p, At(q)) {
        WantedMore(Before(pages, p.root, At(p)), before, q.root);
      } else {
        WantedMore(before + {q}, Before(pages, p.root, At(p)), q.root);
      }
    }
  }

  lemma EndAtOnce(pages: map<Page, Mapping>, src: nat)
    ensures !CopyFits(pages, src, 0) && !EndsOnAPage(pages, src, 0)
  {
    hide Path;
    forall p: set<Page>, r: nat ensures Cost(p, r) > 0 { assert Pml4(r) in Wanted(p, r); }
  }
}
