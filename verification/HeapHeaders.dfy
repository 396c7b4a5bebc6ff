/** Block headers as they lie in memory: a doubly linked list threaded through the blocks. */
module HeapHeaders {
  import opened Machine
  import opened HeapList

  /** `next` and `prev` are addresses, 0 for none. A header is in the map while its magic is valid. */
  datatype Header = Header(size: nat, free: bool, next: nat, prev: nat)
  type Headers = map<nat, Header>

  function NextOf(l: seq<Blk>, i: nat): nat { if i + 1 < |l| then l[i + 1].addr else 0 }
  function PrevOf(l: seq<Blk>, i: nat): nat requires i <= |l| { if i > 0 then l[i - 1].addr else 0 }

  ghost predicate HeaderOk(h: Headers, l: seq<Blk>, i: nat)
    requires i < |l|
  {
    && l[i].addr in h
    && h[l[i].addr] == Header(l[i].size, l[i].free, NextOf(l, i), PrevOf(l, i))
  }

  /** The headers spell out the list, in both directions, and there are no others. */
  ghost predicate Repr(h: Headers, l: seq<Blk>) {
    && (forall i {:trigger HeaderOk(h, l, i)} :: 0 <= i < |l| ==> HeaderOk(h, l, i))
    && NoOther(h, l)
  }

  ghost predicate NoOther(h: Headers, l: seq<Blk>) {
    forall a :: a in h ==> exists i :: 0 <= i < |l| && l[i].addr == a
  }

  ghost predicate Positive(l: seq<Blk>) {
    forall k :: 0 <= k < |l| ==> l[k].addr > 0
  }

  function SplitHeaders(h: Headers, a: nat, size: nat): Headers
    requires a in h && CanSplit(Blk(a, h[a].size, true), size) && (h[a].next != 0 ==> h[a].next in h)
  {
    var b, n := h[a], a + HEADER + size;
    var h1 := h[n := Header(b.size - size - HEADER, true, b.next, a)];
    var h2 := if b.next != 0 then h1[b.next := h1[b.next].(prev := n)] else h1;
    h2[a := h2[a].(next := n, size := size)]
  }

  function AbsorbHeaders(h: Headers, a: nat): Headers
    requires a in h && h[a].next in h && h[a].next != a
    requires h[h[a].next].next != 0 ==> h[h[a].next].next in h
  {
    var n := h[a].next;
    var h1 := h[a := h[a].(size := h[a].size + HEADER + h[n].size, next := h[n].next)];
    var h2 := if h[n].next != 0 then h1[h[n].next := h1[h[n].next].(prev := a)] else h1;
    h2 - {n}
  }

  lemma SplitRepr(h: Headers, l: seq<Blk>, i: nat, size: nat)
    requires Repr(h, l) && Ordered(l) && Positive(l) && i < |l| && CanSplit(l[i], size)
    ensures HeaderOk(h, l, i) && (h[l[i].addr].next != 0 ==> h[l[i].addr].next in h)
    ensures Repr(SplitHeaders(h, l[i].addr, size), Split(l, i, size))
  {
    hide Ordered, NoOther, Split;
    Reads(h, l, i);
    SplitNoOther(h, l, i, size);
    SplitAt(l, i, size);
    forall k | 0 <= k < |Split(l, i, size)| ensures HeaderOk(SplitHeaders(h, l[i].addr, size), Split(l, i, size), k) {
      SplitHeaderOk(h, l, i, size, k);
    }
  }

  lemma TwoForOne(l: seq<Blk>, i: nat, a: Blk, b: Blk)
    requires i < |l|
    ensures var r := l[..i] + [a, b] + l[i + 1..];
      && |r| == |l| + 1 && r[i] == a && r[i + 1] == b
      && (forall k :: 0 <= k < i ==> r[k] == l[k]) && forall k :: i + 1 < k < |r| ==> r[k] == l[k - 1]
  {
    var r := l[..i] + [a, b] + l[i + 1..];
    forall k | i + 1 < k < |r| ensures r[k] == l[k - 1] { assert r[k] == l[i + 1..][k - i - 2]; }
  }

  lemma SplitAt(l: seq<Blk>, i: nat, size: nat)
    requires i < |l| && CanSplit(l[i], size)
    ensures var r := Split(l, i, size);
      && |r| == |l| + 1 && r[i] == l[i].(size := size)
      && r[i + 1] == Blk(l[i].addr + HEADER + size, l[i].size - size - HEADER, true)
      && (forall k :: 0 <= k < i ==> r[k] == l[k]) && forall k :: i + 1 < k < |r| ==> r[k] == l[k - 1]
  {
    TwoForOne(l, i, l[i].(size := size), Blk(l[i].addr + HEADER + size, l[i].size - size - HEADER, true));
  }

  /** Following the links from a block finds its neighbours. */
  lemma Reads(h: Headers, l: seq<Blk>, i: nat)
    requires Repr(h, l) && i < |l|
    ensures HeaderOk(h, l, i)
    ensures i + 1 < |l| ==> HeaderOk(h, l, i + 1) && h[l[i].addr].next == l[i + 1].addr
    ensures i + 1 == |l| ==> h[l[i].addr].next == 0
    ensures i > 0 ==> HeaderOk(h, l, i - 1) && h[l[i].addr].prev == l[i - 1].addr
    ensures i == 0 ==> h[l[i].addr].prev == 0
  {
    hide NoOther;
    assert HeaderOk(h, l, i);
    assert i + 1 < |l| ==> HeaderOk(h, l, i + 1);
    assert i > 0 ==> HeaderOk(h, l, i - 1);
  }

  /** Distinct blocks have distinct addresses, and a split-off block has a new one. */
  lemma Addresses(l: seq<Blk>, i: nat, k: nat, n: nat)
    requires Ordered(l) && i < |l| && k < |l| && l[i].addr < n < l[i].End()
    ensures l[k].addr != n && (l[k].addr == l[i].addr <==> k == i)
  {
  }

  lemma FreshAddress(h: Headers, l: seq<Blk>, i: nat, n: nat)
    requires NoOther(h, l) && Ordered(l) && i < |l| && l[i].addr < n < l[i].End()
    ensures n !in h
  {
    if n in h {
      var j :| 0 <= j < |l| && l[j].addr == n;
      Addresses(l, i, j, n);
    }
  }

  lemma SplitNoOther(h: Headers, l: seq<Blk>, i: nat, size: nat)
    requires NoOther(h, l) && i < |l| && CanSplit(l[i], size)
    requires l[i].addr in h && h[l[i].addr].size == l[i].size && (h[l[i].addr].next != 0 ==> h[l[i].addr].next in h)
    ensures NoOther(SplitHeaders(h, l[i].addr, size), Split(l, i, size))
  {
    var h', r := SplitHeaders(h, l[i].addr, size), Split(l, i, size);
    SplitAt(l, i, size);
    hide Split;
    forall a | a in h' ensures exists k :: 0 <= k < |r| && r[k].addr == a {
      if a == r[i + 1].addr {
      } else {
        var k :| 0 <= k < |l| && l[k].addr == a;
        assert r[if k <= i then k else k + 1].addr == a;
      }
    }
  }

  /** What the writes of `split_block` leave at each address. */
  lemma SplitWrites(h: Headers, a: nat, size: nat)
    requires a in h && CanSplit(Blk(a, h[a].size, true), size) && (h[a].next != 0 ==> h[a].next in h)
    requires h[a].next != a && a + HEADER + size !in h
    ensures var b, n, h' := h[a], a + HEADER + size, SplitHeaders(h, a, size);
      && a in h' && h'[a] == b.(next := n, size := size)
      && n in h' && h'[n] == Header(b.size - size - HEADER, true, b.next, a)
      && (b.next != 0 ==> b.next in h' && h'[b.next] == h[b.next].(prev := n))
      && (forall x :: x in h && x != a && x != b.next ==> x in h' && h'[x] == h[x])
  {
  }

  lemma SplitHeaderOk(h: Headers, l: seq<Blk>, i: nat, size: nat, k: nat)
    requires Repr(h, l) && Ordered(l) && Positive(l) && i < |l| && CanSplit(l[i], size)
    requires HeaderOk(h, l, i) && (h[l[i].addr].next != 0 ==> h[l[i].addr].next in h) && k <= |l|
    ensures k < |Split(l, i, size)|
    ensures HeaderOk(SplitHeaders(h, l[i].addr, size), Split(l, i, size), k)
  {
    hide Split, Ordered, SplitHeaders, NoOther;
    SplitAt(l, i, size);
    Reads(h, l, i);
    FreshAddress(h, l, i, l[i].addr + HEADER + size);
    if i + 1 < |l| { Distinct(l, i, i + 1); }
    SplitWrites(h, l[i].addr, size);
    if k != i + 1 {
      var j := if k <= i then k else k - 1;
      Reads(h, l, j);
      Distinct(l, i, j);
      if i + 1 < |l| { Distinct(l, j, i + 1); }
    }
  }

  lemma Distinct(l: seq<Blk>, i: nat, k: nat)
    requires Ordered(l) && i < |l| && k < |l|
    ensures l[k].addr == l[i].addr <==> k == i
  {
  }

  // ----- absorbing the next block -----

  lemma AbsorbAt(l: seq<Blk>, i: nat)
    requires i + 1 < |l|
    ensures var r := Absorb(l, i);
      && |r| == |l| - 1 && r[i] == l[i].(size := l[i].size + HEADER + l[i + 1].size)
      && (forall k :: 0 <= k < i ==> r[k] == l[k]) && forall k :: i < k < |r| ==> r[k] == l[k + 1]
  {
  }

  lemma AbsorbRepr(h: Headers, l: seq<Blk>, i: nat)
    requires Repr(h, l) && Ordered(l) && Positive(l) && i + 1 < |l|
    ensures HeaderOk(h, l, i) && h[l[i].addr].next == l[i + 1].addr != l[i].addr && l[i + 1].addr in h
    ensures h[l[i + 1].addr].next != 0 ==> h[l[i + 1].addr].next in h
    ensures Repr(AbsorbHeaders(h, l[i].addr), Absorb(l, i))
  {
    hide Ordered, NoOther, Absorb;
    Reads(h, l, i); Reads(h, l, i + 1); Distinct(l, i, i + 1);
    AbsorbNoOther(h, l, i);
    AbsorbAt(l, i);
    forall k | 0 <= k < |Absorb(l, i)| ensures HeaderOk(AbsorbHeaders(h, l[i].addr), Absorb(l, i), k) {
      AbsorbHeaderOk(h, l, i, k);
    }
  }

  lemma AbsorbNoOther(h: Headers, l: seq<Blk>, i: nat)
    requires NoOther(h, l) && i + 1 < |l| && l[i].addr in h && h[l[i].addr].next == l[i + 1].addr != l[i].addr
    requires l[i + 1].addr in h && (h[l[i + 1].addr].next != 0 ==> h[l[i + 1].addr].next in h)
    ensures NoOther(AbsorbHeaders(h, l[i].addr), Absorb(l, i))
  {
    var h', r := AbsorbHeaders(h, l[i].addr), Absorb(l, i);
    AbsorbAt(l, i);
    hide Absorb;
    forall a | a in h' ensures exists k :: 0 <= k < |r| && r[k].addr == a {
      var k :| 0 <= k < |l| && l[k].addr == a;
      assert k != i + 1;
      assert r[if k <= i then k else k - 1].addr == a;
    }
  }

  lemma AbsorbHeaderOk(h: Headers, l: seq<Blk>, i: nat, k: nat)
    requires Repr(h, l) && Ordered(l) && Positive(l) && i + 1 < |l| && k < |l| - 1
    requires HeaderOk(h, l, i) && h[l[i].addr].next == l[i + 1].addr != l[i].addr && l[i + 1].addr in h
    requires h[l[i + 1].addr].next != 0 ==> h[l[i + 1].addr].next in h
    ensures k < |Absorb(l, i)|
    ensures HeaderOk(AbsorbHeaders(h, l[i].addr), Absorb(l, i), k)
  {
    hide NoOther, Ordered;
    var h', r := AbsorbHeaders(h, l[i].addr), Absorb(l, i);
    AbsorbAt(l, i);
    hide Absorb;
    Reads(h, l, i); Reads(h, l, i + 1);
    var j := if k <= i then k else k + 1;
    Reads(h, l, j);
    Distinct(l, j, i); Distinct(l, j, i + 1);
    if i + 2 < |l| { Distinct(l, j, i + 2); Distinct(l, i, i + 2); Distinct(l, i + 1, i + 2); }
  }
}
