/** Heap memory as bytes: block headers and payloads share one array. */
module HeapBytes {
  import opened Machine
  import opened Packing
  import opened HeapList
  import opened HeapHeaders

  const BLOCK_MAGIC: nat := 0xDEADBEEF

  /** Byte `o` of the heap region belongs to the payload of `b`. */
  predicate Covers(b: Blk, o: nat) { b.Ptr() <= HEAP_START + o < b.End() }

  /** The payload bytes of the blocks in `bs` are the same in both memories. */
  ghost predicate SameOn(bs: set<Blk>, m0: seq<u8>, m1: seq<u8>) {
    |m0| == |m1| && forall b, o: nat :: b in bs && Covers(b, o) && o < |m0| ==> m1[o] == m0[o]
  }

  /** Outside `[lo, hi)` the memories agree. */
  ghost predicate SameOutside(lo: nat, hi: nat, m0: seq<u8>, m1: seq<u8>) {
    |m0| == |m1| && forall o :: 0 <= o < |m0| && !(lo <= HEAP_START + o < hi) ==> m1[o] == m0[o]
  }

  /** The memories agree but for the headers at these addresses. */
  ghost predicate HeadersOnly(keys: set<nat>, m0: seq<u8>, m1: seq<u8>) {
    |m0| == |m1| && forall o: nat | o < |m0| && !InHeader(keys, o) :: m1[o] == m0[o]
  }

  ghost predicate InHeader(keys: set<nat>, o: nat) { exists a | a in keys :: a <= HEAP_START + o < a + HEADER }

  predicate Inside(m: seq<u8>, a: nat, n: nat) { HEAP_START <= a && a + n <= HEAP_START + |m| }

  /** The `n` bytes at address `a`. */
  function Slice(m: seq<u8>, a: nat, n: nat): (s: seq<u8>)
    requires Inside(m, a, n)
    ensures |s| == n
  {
    m[a - HEAP_START..a - HEAP_START + n]
  }

  /** The little-endian word of `n` bytes at address `a`. */
  function Word(m: seq<u8>, a: nat, n: nat): nat
    requires Inside(m, a, n)
  {
    FromBytes(Slice(m, a, n))
  }

  /** `struct BlockHeader`: magic, size, free (4 bytes, then padding), next, prev. */
  function Decode(m: seq<u8>, a: nat): Option<Header>
    requires Inside(m, a, HEADER)
  {
    if Word(m, a, 8) == BLOCK_MAGIC then
      Some(Header(Word(m, a + 8, 8), Word(m, a + 16, 4) != 0, Word(m, a + 24, 8), Word(m, a + 32, 8)))
    else None
  }

  ghost predicate StoredAt(m: seq<u8>, h: Headers, a: nat) {
    a in h && Inside(m, a, HEADER) && Decode(m, a) == Some(h[a])
  }

  /** Memory holds these headers. */
  ghost predicate Stored(m: seq<u8>, h: Headers) {
    forall a {:trigger StoredAt(m, h, a)} | a in h :: StoredAt(m, h, a)
  }

  /** No two headers overlap. */
  ghost predicate Spaced(keys: set<nat>) {
    forall a, b | a in keys && b in keys && a < b :: a + HEADER <= b
  }

  // ----- reading back -----

  lemma WordKept(m0: seq<u8>, m1: seq<u8>, lo: nat, hi: nat, a: nat, n: nat)
    requires SameOutside(lo, hi, m0, m1) && Inside(m0, a, n) && (a + n <= lo || hi <= a)
    ensures Word(m1, a, n) == Word(m0, a, n)
  {
    hide FromBytes;
    forall k | 0 <= k < n ensures Slice(m1, a, n)[k] == Slice(m0, a, n)[k] {
      assert Slice(m1, a, n)[k] == m1[a - HEAP_START + k];
    }
    assert Slice(m1, a, n) == Slice(m0, a, n);
  }

  lemma DecodeKept(m0: seq<u8>, m1: seq<u8>, lo: nat, hi: nat, a: nat)
    requires SameOutside(lo, hi, m0, m1) && Inside(m0, a, HEADER) && (a + HEADER <= lo || hi <= a)
    ensures Decode(m1, a) == Decode(m0, a)
  {
    hide Word, SameOutside;
    WordKept(m0, m1, lo, hi, a, 8);
    WordKept(m0, m1, lo, hi, a + 8, 8);
    WordKept(m0, m1, lo, hi, a + 16, 4);
    WordKept(m0, m1, lo, hi, a + 24, 8);
    WordKept(m0, m1, lo, hi, a + 32, 8);
  }

  /** A header survives writes to the other headers. */
  lemma StoredElsewhere(m0: seq<u8>, m1: seq<u8>, h: Headers, h': Headers, a: nat)
    requires Stored(m0, h) && SameOutside(a, a + HEADER, m0, m1) && Spaced(h.Keys + {a})
    requires forall b | b in h' && b != a :: b in h && h'[b] == h[b]
    requires a in h' ==> StoredAt(m1, h', a)
    ensures Stored(m1, h')
  {
    hide Decode, SameOutside;
    forall b | b in h' ensures StoredAt(m1, h', b) {
      if b != a {
        assert StoredAt(m0, h, b);
        DecodeKept(m0, m1, a, a + HEADER, b);
        SameLength(m0, m1, a, a + HEADER);
      }
    }
  }

  lemma SameLength(m0: seq<u8>, m1: seq<u8>, lo: nat, hi: nat)
    requires SameOutside(lo, hi, m0, m1)
    ensures |m0| == |m1|
  {
  }

  lemma Widened(m0: seq<u8>, m1: seq<u8>, lo: nat, hi: nat, lo': nat, hi': nat)
    requires SameOutside(lo, hi, m0, m1) && lo' <= lo && hi <= hi'
    ensures SameOutside(lo', hi', m0, m1)
  {
  }

  lemma OutsideTrans(m0: seq<u8>, m1: seq<u8>, m2: seq<u8>, lo: nat, hi: nat)
    requires SameOutside(lo, hi, m0, m1) && SameOutside(lo, hi, m1, m2)
    ensures SameOutside(lo, hi, m0, m2)
  {
  }

  // ----- headers and payloads keep apart -----

  lemma HeadersSpaced(h: Headers, l: seq<Blk>, end: nat)
    requires Repr(h, l) && Layout(l, end)
    ensures Spaced(h.Keys)
  {
    LayoutOrdered(l, end);
    hide Layout, HeaderOk;
    forall a, b | a in h.Keys && b in h.Keys && a < b ensures a + HEADER <= b {
      var i :| 0 <= i < |l| && l[i].addr == a;
      var j :| 0 <= j < |l| && l[j].addr == b;
      InOrder(l, i, j);
    }
  }

  lemma InOrder(l: seq<Blk>, i: nat, j: nat)
    requires Ordered(l) && i < |l| && j < |l|
    ensures (i < j ==> l[i].End() <= l[j].addr) && (j < i ==> l[j].End() <= l[i].addr)
  {
  }

  lemma HeadersTrans(keys: set<nat>, fewer: set<nat>, m0: seq<u8>, m1: seq<u8>, m2: seq<u8>)
    requires HeadersOnly(keys, m0, m1) && fewer <= keys && HeadersOnly(fewer, m1, m2)
    ensures HeadersOnly(keys, m0, m2)
  {
    forall o: nat | o < |m0| && !InHeader(keys, o) ensures !InHeader(fewer, o) {
      assert forall a | a in fewer :: a in keys;
    }
  }

  lemma HeaderWritten(keys: set<nat>, a: nat, m0: seq<u8>, m1: seq<u8>, m2: seq<u8>)
    requires HeadersOnly(keys, m0, m1) && a in keys && SameOutside(a, a + HEADER, m1, m2)
    ensures HeadersOnly(keys, m0, m2)
  {
    forall o: nat | o < |m0| && !InHeader(keys, o) ensures m2[o] == m0[o] {
      assert !(a <= HEAP_START + o < a + HEADER);
    }
  }

  lemma NoHeaderYet(keys: set<nat>, m: seq<u8>)
    ensures HeadersOnly(keys, m, m)
  {
  }

  ghost predicate Within(b: Blk, l: seq<Blk>) { exists k :: 0 <= k < |l| && l[k].addr == b.addr && b.size <= l[k].size }

  /** The payload of a block lies in no header. */
  lemma PayloadAvoids(h: Headers, l: seq<Blk>, end: nat, b: Blk, o: nat)
    requires Repr(h, l) && Layout(l, end) && Within(b, l) && Covers(b, o)
    ensures !InHeader(h.Keys, o)
  {
    LayoutOrdered(l, end);
    hide Layout, HeaderOk;
    var k :| 0 <= k < |l| && l[k].addr == b.addr && b.size <= l[k].size;
    forall a | a in h.Keys ensures !(a <= HEAP_START + o < a + HEADER) {
      var j :| 0 <= j < |l| && l[j].addr == a;
      InOrder(l, j, k);
    }
  }

  /** Writing headers leaves every payload alone. */
  lemma PayloadsKept(h: Headers, l: seq<Blk>, end: nat, bs: set<Blk>, m0: seq<u8>, m1: seq<u8>)
    requires Repr(h, l) && Layout(l, end) && HeadersOnly(h.Keys, m0, m1) && forall b | b in bs :: Within(b, l)
    ensures SameOn(bs, m0, m1)
  {
    hide Repr, Layout, InHeader, Within;
    forall b, o: nat | b in bs && Covers(b, o) && o < |m0| ensures m1[o] == m0[o] { PayloadAvoids(h, l, end, b, o); }
  }

  /** Writing inside a payload leaves every header alone. */
  lemma HeadersKept(h: Headers, l: seq<Blk>, end: nat, i: nat, lo: nat, hi: nat, m0: seq<u8>, m1: seq<u8>)
    requires Repr(h, l) && Layout(l, end) && i < |l| && l[i].Ptr() <= lo && hi <= l[i].End() && Stored(m0, h)
    requires SameOutside(lo, hi, m0, m1)
    ensures Stored(m1, h)
  {
    LayoutOrdered(l, end);
    SameLength(m0, m1, lo, hi);
    hide Layout, HeaderOk, Decode, SameOutside;
    forall a | a in h ensures StoredAt(m1, h, a) {
      assert StoredAt(m0, h, a);
      var j :| 0 <= j < |l| && l[j].addr == a;
      InOrder(l, i, j);
      DecodeKept(m0, m1, lo, hi, a);
    }
  }

  // ----- writing one field -----

  lemma SizeWritten(m0: seq<u8>, m1: seq<u8>, a: nat, x: nat)
    requires Inside(m0, a, HEADER) && Decode(m0, a).Some? && SameOutside(a + 8, a + 16, m0, m1) && |m1| == |m0|
      && Word(m1, a + 8, 8) == x
    ensures Decode(m1, a) == Some(Decode(m0, a).value.(size := x)) && SameOutside(a, a + HEADER, m0, m1)
  {
    hide Word;
    WordKept(m0, m1, a + 8, a + 16, a, 8);
    WordKept(m0, m1, a + 8, a + 16, a + 16, 4);
    WordKept(m0, m1, a + 8, a + 16, a + 24, 8);
    WordKept(m0, m1, a + 8, a + 16, a + 32, 8);
  }

  lemma FreeWritten(m0: seq<u8>, m1: seq<u8>, a: nat, free: bool)
    requires Inside(m0, a, HEADER) && Decode(m0, a).Some? && SameOutside(a + 16, a + 20, m0, m1) && |m1| == |m0|
    requires Word(m1, a + 16, 4) == if free then 1 else 0
    ensures Decode(m1, a) == Some(Decode(m0, a).value.(free := free)) && SameOutside(a, a + HEADER, m0, m1)
  {
    hide Word;
    WordKept(m0, m1, a + 16, a + 20, a, 8);
    WordKept(m0, m1, a + 16, a + 20, a + 8, 8);
    WordKept(m0, m1, a + 16, a + 20, a + 24, 8);
    WordKept(m0, m1, a + 16, a + 20, a + 32, 8);
  }

  lemma NextWritten(m0: seq<u8>, m1: seq<u8>, a: nat, x: nat)
    requires Inside(m0, a, HEADER) && Decode(m0, a).Some? && SameOutside(a + 24, a + 32, m0, m1) && |m1| == |m0|
      && Word(m1, a + 24, 8) == x
    ensures Decode(m1, a) == Some(Decode(m0, a).value.(next := x)) && SameOutside(a, a + HEADER, m0, m1)
  {
    hide Word;
    WordKept(m0, m1, a + 24, a + 32, a, 8);
    WordKept(m0, m1, a + 24, a + 32, a + 8, 8);
    WordKept(m0, m1, a + 24, a + 32, a + 16, 4);
    WordKept(m0, m1, a + 24, a + 32, a + 32, 8);
  }

  lemma PrevWritten(m0: seq<u8>, m1: seq<u8>, a: nat, x: nat)
    requires Inside(m0, a, HEADER) && Decode(m0, a).Some? && SameOutside(a + 32, a + 40, m0, m1) && |m1| == |m0|
      && Word(m1, a + 32, 8) == x
    ensures Decode(m1, a) == Some(Decode(m0, a).value.(prev := x)) && SameOutside(a, a + HEADER, m0, m1)
  {
    hide Word;
    WordKept(m0, m1, a + 32, a + 40, a, 8);
    WordKept(m0, m1, a + 32, a + 40, a + 8, 8);
    WordKept(m0, m1, a + 32, a + 40, a + 16, 4);
    WordKept(m0, m1, a + 32, a + 40, a + 24, 8);
  }
}
