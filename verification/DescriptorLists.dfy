/** The descriptor table of a split virtqueue: a free list and in-flight chains threaded through the same `next`
    fields. */
module DescriptorLists {
  import opened Machine

  const NONE: u16 := 0xFFFF
  const F_NEXT: u16 := 1
  const F_WRITE: u16 := 2

  datatype Desc = Desc(addr: u64, len: u32, flags: u16, next: u16)

  /** Where a descriptor is: on the free list, or in the chain that starts at `head`. */
  datatype Home = Free | In(head: u16)

  function Nth(ids: seq<u16>, i: int): u16 { if 0 <= i < |ids| then ids[i] else NONE }

  ghost predicate LinkAt(d: seq<Desc>, ids: seq<u16>, i: int)
    requires 0 <= i < |ids|
  {
    ids[i] < |d| && d[ids[i]].next == Nth(ids, i + 1)
  }

  /** From `head`, the `next` fields spell out `ids` and then end. */
  ghost predicate Spells(d: seq<Desc>, head: u16, ids: seq<u16>) {
    head == Nth(ids, 0) && forall i {:trigger LinkAt(d, ids, i)} | 0 <= i < |ids| :: LinkAt(d, ids, i)
  }

  lemma SpellsFrame(d: seq<Desc>, d': seq<Desc>, head: u16, ids: seq<u16>)
    requires Spells(d, head, ids) && |d'| == |d| && forall i | i in ids && i < |d| :: d'[i] == d[i]
    ensures Spells(d', head, ids)
  {
    forall i | 0 <= i < |ids| ensures LinkAt(d', ids, i) { assert LinkAt(d, ids, i) && ids[i] in ids; }
  }

  ghost predicate ChainHome(ids: seq<u16>, home: seq<Home>, h: u16) {
    NoDup(ids) && ids != [] && ids[0] == h && forall i: u16 :: i in ids <==> i < |home| && home[i] == In(h)
  }

  /** Every descriptor is in exactly one place, and the links say which. */
  ghost predicate Lists(d: seq<Desc>, freeHead: u16, free: seq<u16>, chains: map<u16, seq<u16>>, home: seq<Home>) {
    && |home| == |d| < 0x1_0000
    && Spells(d, freeHead, free) && NoDup(free) && (forall i: u16 :: i in free <==> i < |home| && home[i] == Free)
    && (forall h | h in chains :: ChainHome(chains[h], home, h) && Spells(d, h, chains[h]))
    && (forall i: u16 | i < |home| && home[i].In? :: home[i].head in chains)
  }

  /** The free list and the chains partition the table. */
  lemma Partition(d: seq<Desc>, freeHead: u16, free: seq<u16>, chains: map<u16, seq<u16>>, home: seq<Home>, i: u16)
    requires Lists(d, freeHead, free, chains, home) && i < |d|
    ensures i in free <==> !exists h :: h in chains && i in chains[h]
    ensures forall g, h | g in chains && h in chains && i in chains[g] && i in chains[h] :: g == h
  {
    if home[i].In? { assert home[i].head in chains && i in chains[home[i].head]; }
  }

  function Reversed(s: seq<u16>): seq<u16> {
    if s == [] then [] else Reversed(s[1..]) + [s[0]]
  }

  lemma {:induction false} ReversedIn(s: seq<u16>, x: u16)
    ensures |Reversed(s)| == |s| && (x in Reversed(s) <==> x in s)
  {
    if s != [] {
      ReversedIn(s[1..], x);
      assert s == [s[0]] + s[1..];
    }
  }

  lemma {:induction false} ReversedAppend(s: seq<u16>, x: u16)
    ensures Reversed(s + [x]) == [x] + Reversed(s)
  {
    if s != [] {
      assert (s + [x])[1..] == s[1..] + [x];
      ReversedAppend(s[1..], x);
    }
  }

  class Descriptors {
    const size: nat
    const desc: array<Desc>
    var freeHead: u16
    var numFree: u16
    ghost var free: seq<u16>
    ghost var chains: map<u16, seq<u16>>
    ghost var home: seq<Home>

    ghost predicate Valid()
      reads this, desc
    {
      desc.Length == size && 0 < size && Lists(desc[..], freeHead, free, chains, home) && numFree == |free|
    }

    /** The free-list set-up of `virtio_init_queue`. */
    constructor (size: nat)
      requires 0 < size < 0x1_0000
      ensures Valid() && this.size == size && fresh(desc) && chains == map[] && numFree == size
      ensures free == seq(size, j requires 0 <= j < size => j)
    {
      this.size := size;
      var d := new Desc[size](i => Desc(0, 0, 0, 0));
      var i := 0;
      while i < size
        invariant 0 <= i <= size && d.Length == size
        invariant forall j | 0 <= j < i :: d[j].next == if j + 1 < size then j + 1 else NONE
      {
        d[i] := d[i].(next := if i + 1 < size then i + 1 else NONE);
        i := i + 1;
      }
      desc := d;
      freeHead := 0;
      numFree := size;
      free := seq(size, j requires 0 <= j < size => j as u16);
      chains := map[];
      home := seq(size, _ => Free);
      new;
      forall j | 0 <= j < |free| ensures LinkAt(desc[..], free, j) {}
      forall j: u16 | j < size ensures j in free { assert free[j] == j; }
    }

    /** `virtq_alloc_desc` */
    method AllocDesc() returns (idx: u16)
      requires Valid()
      modifies this, desc
      ensures Valid()
      ensures old(free) == [] ==> idx == NONE && free == old(free) && chains == old(chains) && desc[..] == old(desc[..])
      ensures old(free) != [] ==>
        && idx == old(free)[0] != NONE && free == old(free)[1..] && idx !in old(chains)
          && chains == old(chains)[idx := [idx]]
        && idx < size && desc[..] == old(desc[..])[idx := old(desc[..])[idx].(next := NONE)]
    {
      if numFree == 0 { return NONE; }
      idx := freeHead;
      assert LinkAt(desc[..], free, 0);
      AllocKeeps(desc[..], freeHead, free, chains, home);
      freeHead := desc[idx].next;
      numFree := numFree - 1;
      desc[idx] := desc[idx].(next := NONE);
      free, chains, home := free[1..], chains[idx := [idx]], home[idx := In(idx)];
    }

    /** Fills the last descriptor of chain `a` and lets it lead on to chain `b`. */
    method Join(a: u16, last: u16, b: u16, addr: u64, len: u32, flags: u16)
      requires Valid() && a in chains && b in chains && a != b && chains[a] != [] && last == chains[a][|chains[a]| - 1]
      modifies this`chains, this`home, desc
      ensures Valid() && chains == (old(chains) - {b})[a := old(chains)[a] + old(chains)[b]]
      ensures last < size && desc[..] == old(desc[..])[last := Desc(addr, len, flags, b)]
    {
      hide Lists;
      JoinKeeps(desc[..], freeHead, free, chains, home, a, b, Desc(addr, len, flags, b));
      desc[last] := Desc(addr, len, flags, b);
      home := Merged(home, a, b);
      chains := (chains - {b})[a := chains[a] + chains[b]];
    }

    /** Fills the last descriptor of chain `a`. */
    method Finish(a: u16, last: u16, addr: u64, len: u32, flags: u16)
      requires Valid() && a in chains && chains[a] != [] && last == chains[a][|chains[a]| - 1]
      modifies desc
      ensures Valid() && last < size && desc[..] == old(desc[..])[last := Desc(addr, len, flags, NONE)]
    {
      hide Lists;
      FinishKeeps(desc[..], freeHead, free, chains, home, a, Desc(addr, len, flags, NONE));
      desc[last] := Desc(addr, len, flags, NONE);
    }

    /** The last descriptor of a chain. */
    method TailOf(head: u16) returns (last: u16)
      requires Valid() && head in chains
      ensures chains[head] != [] && last == chains[head][|chains[head]| - 1]
    {
      ghost var chain, i := chains[head], 0;
      assert ChainHome(chain, home, head) && Spells(desc[..], head, chain);
      last := head;
      assert LinkAt(desc[..], chain, 0);
      while desc[last].next != NONE
        invariant 0 <= i < |chain| && last == chain[i] && LinkAt(desc[..], chain, i)
        decreases |chain| - i
      {
        i := i + 1;
        last := desc[last].next;
        assert LinkAt(desc[..], chain, i);
      }
      assert i + 1 < |chain| ==> LinkAt(desc[..], chain, i + 1);
    }

    /** One turn of the loop of `virtq_free_chain`. */
    method FreeOne(idx: u16) returns (next: u16)
      requires Valid() && idx in chains
      modifies this, desc
      ensures Valid() && free == [idx] + old(free) && chains == Beheaded(old(chains), idx)
      ensures next == Nth(old(chains)[idx], 1)
    {
      hide Lists;
      FreeOneKeeps(desc[..], freeHead, free, chains, home, idx);
      FreeRoom(desc[..], freeHead, free, chains, home, idx);
      next := desc[idx].next;
      desc[idx] := Desc(0, 0, 0, freeHead);
      freeHead := idx;
      numFree := numFree + 1;
      home := Rehomed(home, chains[idx]);
      free, chains := [idx] + free, Beheaded(chains, idx);
    }

    /** `virtq_free_chain` */
    method FreeChain(head: u16)
      requires Valid() && head in chains
      modifies this, desc
      ensures Valid() && free == Reversed(old(chains)[head]) + old(free) && chains == old(chains) - {head}
    {
      hide Lists;
      ghost var chain, rest, done := chains[head], chains - {head}, 0;
      assert chains == rest[head := chain] && chain != [] && chain[0] == head by {
        ChainStart(desc[..], freeHead, free, chains, home, head);
      }
      var idx := head;
      while true
        invariant Valid() && 0 <= done < |chain| && idx == chain[done] && idx !in rest
        invariant chains == rest[idx := chain[done..]] && free == Reversed(chain[..done]) + old(free)
        decreases |chain| - done
      {
        ChainStart(desc[..], freeHead, free, chains, home, idx);
        var next := FreeOne(idx);
        assert chain[..done + 1] == chain[..done] + [idx];
        ReversedAppend(chain[..done], idx);
        done := done + 1;
        if next == NONE { break; }
        idx := next;
      }
      assert chain[..done] == chain;
    }
  }

  lemma HeadHome(d: seq<Desc>, freeHead: u16, free: seq<u16>, chains: map<u16, seq<u16>>, home: seq<Home>, h: u16)
    requires Lists(d, freeHead, free, chains, home) && h in chains
    ensures chains[h] != [] && chains[h][0] == h < |d| && home[h] == In(h)
  {
    assert ChainHome(chains[h], home, h) && chains[h][0] in chains[h];
  }

  lemma ChainStart(d: seq<Desc>, freeHead: u16, free: seq<u16>, chains: map<u16, seq<u16>>, home: seq<Home>, h: u16)
    requires Lists(d, freeHead, free, chains, home) && h in chains
    ensures chains[h] != [] && chains[h][0] == h < |d|
      && (|chains[h]| > 1 ==> chains[h][1] !in chains && chains[h][1] != NONE)
  {
    HeadHome(d, freeHead, free, chains, home, h);
    if |chains[h]| > 1 {
      var x := chains[h][1];
      assert x in chains[h] && home[x] == In(h) && x != h;
      if x in chains { HeadHome(d, freeHead, free, chains, home, x); }
    }
  }

  /** The chain at `h` loses its first descriptor; what is left is a chain of its own. */
  ghost function Beheaded(chains: map<u16, seq<u16>>, h: u16): map<u16, seq<u16>>
    requires h in chains
  {
    if |chains[h]| > 1 then (chains - {h})[chains[h][1] := chains[h][1..]] else chains - {h}
  }

  ghost function Rehomed(home: seq<Home>, c: seq<u16>): seq<Home>
    requires c != []
  {
    seq(|home|, i requires 0 <= i < |home| => if i == c[0] then Free
      else if home[i] == In(c[0]) then In(Nth(c, 1)) else home[i])
  }

  lemma FreeRoom(d: seq<Desc>, freeHead: u16, free: seq<u16>, chains: map<u16, seq<u16>>, home: seq<Home>, h: u16)
    requires Lists(d, freeHead, free, chains, home) && h in chains
    ensures |free| < |d|
  {
    var s := set i | i in free;
    NoDupBound(free, s);
    BelowSize(|home|);
    HeadHome(d, freeHead, free, chains, home, h);
    SubsetSize(s, Below(|home|) - {h});
  }

  lemma AllocKeeps(d: seq<Desc>, freeHead: u16, free: seq<u16>, chains: map<u16, seq<u16>>, home: seq<Home>)
    requires Lists(d, freeHead, free, chains, home) && free != []
    ensures freeHead == free[0] < |d| && freeHead !in chains
    ensures Lists(d[freeHead := d[freeHead].(next := NONE)], d[freeHead].next, free[1..],
      chains[freeHead := [freeHead]], home[freeHead := In(freeHead)])
  {
    var x := free[0];
    assert LinkAt(d, free, 0) && x in free;
    var d', home' := d[x := d[x].(next := NONE)], home[x := In(x)];
    assert Spells(d', d[x].next, free[1..]) by {
      forall i | 0 <= i < |free[1..]| ensures LinkAt(d', free[1..], i) { assert LinkAt(d, free, i + 1); }
    }
    assert forall i: u16 :: i in free <==> i == x || i in free[1..] by { assert free == [x] + free[1..]; }
    assert Spells(d', x, [x]);
    forall h | h in chains && h != x ensures ChainHome(chains[h], home', h) && Spells(d', h, chains[h]) {
      SpellsFrame(d, d', h, chains[h]);
    }
  }

  lemma PushSpells(d: seq<Desc>, freeHead: u16, free: seq<u16>, h: u16)
    requires Spells(d, freeHead, free) && h < |d| && h !in free
    ensures Spells(d[h := Desc(0, 0, 0, freeHead)], h, [h] + free)
  {
    var d', free' := d[h := Desc(0, 0, 0, freeHead)], [h] + free;
    forall i | 0 <= i < |free'| ensures LinkAt(d', free', i) {
      if i > 0 { assert LinkAt(d, free, i - 1) && free[i - 1] in free; }
    }
  }

  lemma TailSpells(d: seq<Desc>, c: seq<u16>, x: Desc)
    requires c != [] && NoDup(c) && Spells(d, c[0], c) && c[0] < |d|
    ensures Spells(d[c[0] := x], Nth(c, 1), c[1..])
  {
    var d', rest := d[c[0] := x], c[1..];
    forall i | 0 <= i < |rest| ensures LinkAt(d', rest, i) { assert LinkAt(d, c, i + 1); }
  }

  lemma FreeOneKeeps(d: seq<Desc>, freeHead: u16, free: seq<u16>, chains: map<u16, seq<u16>>, home: seq<Home>, h: u16)
    requires Lists(d, freeHead, free, chains, home) && h in chains
    ensures h < |d| && chains[h] != [] && d[h].next == Nth(chains[h], 1)
    ensures Lists(d[h := Desc(0, 0, 0, freeHead)], h, [h] + free, Beheaded(chains, h), Rehomed(home, chains[h]))
  {
    var c := chains[h];
    assert LinkAt(d, c, 0) && h in c;
    var d', chains', home' := d[h := Desc(0, 0, 0, freeHead)], Beheaded(chains, h), Rehomed(home, c);
    PushSpells(d, freeHead, free, h);
    TailSpells(d, c, Desc(0, 0, 0, freeHead));
    assert forall i: u16 :: i in c <==> i == h || i in c[1..] by { assert c == [h] + c[1..]; }
    assert |c| > 1 ==> c[1] in c[1..];
    forall g | g in chains' ensures ChainHome(chains'[g], home', g) && Spells(d', g, chains'[g]) {
      if |c| <= 1 || g != c[1] { SpellsFrame(d, d', g, chains[g]); }
    }
  }

  ghost function Merged(home: seq<Home>, a: u16, b: u16): seq<Home> {
    seq(|home|, i requires 0 <= i < |home| => if home[i] == In(b) then In(a) else home[i])
  }

  lemma JoinSpells(d: seq<Desc>, a: seq<u16>, b: seq<u16>, x: Desc)
    requires a != [] && b != [] && NoDup(a) && Spells(d, a[0], a) && Spells(d, b[0], b) && x.next == b[0]
    requires a[|a| - 1] < |d| && forall i | i in b :: i !in a
    ensures Spells(d[a[|a| - 1] := x], a[0], a + b)
  {
    var d', c := d[a[|a| - 1] := x], a + b;
    forall i | 0 <= i < |c| ensures LinkAt(d', c, i) {
      if i < |a| { assert LinkAt(d, a, i); } else { assert LinkAt(d, b, i - |a|) && b[i - |a|] in b; }
    }
  }

  lemma NoDupJoin(a: seq<u16>, b: seq<u16>)
    requires NoDup(a) && NoDup(b) && forall i | i in b :: i !in a
    ensures NoDup(a + b)
  {
    forall i, j | 0 <= i < j < |a + b| ensures (a + b)[i] != (a + b)[j] {
      if i < |a| <= j { assert b[j - |a|] in b; }
    }
  }

  lemma LastIn(d: seq<Desc>, freeHead: u16, free: seq<u16>, chains: map<u16, seq<u16>>, home: seq<Home>, a: u16)
    requires Lists(d, freeHead, free, chains, home) && a in chains
    ensures chains[a] != [] && chains[a][|chains[a]| - 1] < |d| && home[chains[a][|chains[a]| - 1]] == In(a)
  {
    assert ChainHome(chains[a], home, a) && chains[a][|chains[a]| - 1] in chains[a];
  }

  lemma JoinKeeps(d: seq<Desc>, freeHead: u16, free: seq<u16>, chains: map<u16, seq<u16>>, home: seq<Home>, a: u16,
                  b: u16, x: Desc)
    requires Lists(d, freeHead, free, chains, home) && a in chains && b in chains && a != b && x.next == b
    ensures chains[a] != [] && chains[a][|chains[a]| - 1] < |d|
    ensures Lists(d[chains[a][|chains[a]| - 1] := x], freeHead, free, (chains - {b})[a := chains[a] + chains[b]],
      Merged(home, a, b))
  {
    LastIn(d, freeHead, free, chains, home, a);
    HeadHome(d, freeHead, free, chains, home, b);
    var last := chains[a][|chains[a]| - 1];
    var d', chains', home' := d[last := x], (chains - {b})[a := chains[a] + chains[b]], Merged(home, a, b);
    JoinSpells(d, chains[a], chains[b], x);
    NoDupJoin(chains[a], chains[b]);
    SpellsFrame(d, d', freeHead, free);
    forall g | g in chains' ensures ChainHome(chains'[g], home', g) && Spells(d', g, chains'[g]) {
      if g != a { SpellsFrame(d, d', g, chains[g]); }
    }
  }

  lemma FinishKeeps(d: seq<Desc>, freeHead: u16, free: seq<u16>, chains: map<u16, seq<u16>>, home: seq<Home>, a: u16,
                    x: Desc)
    requires Lists(d, freeHead, free, chains, home) && a in chains && x.next == NONE
    ensures chains[a] != [] && chains[a][|chains[a]| - 1] < |d|
    ensures Lists(d[chains[a][|chains[a]| - 1] := x], freeHead, free, chains, home)
  {
    LastIn(d, freeHead, free, chains, home, a);
    var c := chains[a];
    var d' := d[c[|c| - 1] := x];
    SpellsFrame(d, d', freeHead, free);
    forall g | g in chains ensures Spells(d', g, chains[g]) {
      if g != a { SpellsFrame(d, d', g, chains[g]); } else {
        forall i | 0 <= i < |c| ensures LinkAt(d', c, i) { assert LinkAt(d, c, i); }
      }
    }
  }

  // ----- counting -----

  lemma {:induction false} NoDupBound(s: seq<u16>, t: set<u16>)
    requires NoDup(s) && forall i :: i in s <==> i in t
    ensures |s| == |t|
  {
    if s != [] {
      assert s == [s[0]] + s[1..];
      NoDupBound(s[1..], t - {s[0]});
    } else {
      assert t == {};
    }
  }

  ghost function Below(n: nat): set<u16>
    requires n <= 0x1_0000
  {
    if n == 0 then {} else Below(n - 1) + {n - 1}
  }

  lemma {:induction false} BelowSize(n: nat)
    requires n <= 0x1_0000
    ensures |Below(n)| == n && forall i: u16 :: i in Below(n) <==> i < n
  {
    if n > 0 { BelowSize(n - 1); }
  }
}
