/** The file allocation table: an array of links whose low 28 bits say where a chain goes next. */
module FatTable {
  import opened Machine

  const MASK: nat := 0x1000_0000              // entries carry 28 bits; the top four are reserved
  const FREE: nat := 0
  const BAD: nat := 0x0FFF_FFF7
  const EOC: nat := 0x0FFF_FFF8

  function Low(v: u32): nat { v % MASK }
  function High(v: u32): nat { v / MASK }
  /** `(v & ~MASK) | x` */
  function WithLow(v: u32, x: nat): (r: u32)
    requires x < MASK
    ensures Low(r) == x && High(r) == High(v)
  {
    v / MASK * MASK + x
  }

  /** `fat32_next_cluster`; 0 ends a chain. */
  function Next(fat: seq<u32>, c: nat): (n: nat)
    requires c < |fat|
  {
    var e := Low(fat[c]);
    if e >= EOC then 0 else if e == BAD then 0 else e
  }

  /** A table with an entry for each of `total` clusters, all of them distinguishable from the marks. */
  ghost predicate Sized(fat: seq<u32>, total: nat) { total + 2 <= |fat| && total + 2 <= BAD }

  predicate InRange(c: nat, total: nat) { 2 <= c < total + 2 }

  /** `s` is followed link by link from its first cluster, never revisits one, and ends in an end mark. */
  ghost predicate IsChain(fat: seq<u32>, total: nat, s: seq<nat>)
    requires Sized(fat, total)
  {
    && NoDup(s)
    && (forall i :: 0 <= i < |s| ==> InRange(s[i], total))
    && (forall i :: 0 <= i < |s| - 1 ==> Low(fat[s[i]]) == s[i + 1])
    && (|s| > 0 ==> Low(fat[s[|s| - 1]]) >= EOC)
  }

  ghost predicate Disjoint(s: seq<nat>, t: seq<nat>) { forall c :: c in s ==> c !in t }

  /** Every file's clusters form a chain (an empty file has none) and no two files share a cluster. */
  ghost predicate Forest(fat: seq<u32>, total: nat, files: map<nat, seq<nat>>) {
    && Sized(fat, total)
    && (forall f :: f in files ==> IsChain(fat, total, files[f]))
    && (forall f, g :: f in files && g in files && f != g ==> Disjoint(files[f], files[g]))
  }

  ghost function FreeClusters(fat: seq<u32>, total: nat): set<nat>
    requires Sized(fat, total)
  {
    set c | 2 <= c < total + 2 && Low(fat[c]) == FREE
  }

  ghost function Elems(s: seq<nat>): set<nat> { set c | c in s }

  /** A free cluster belongs to no chain. */
  lemma FreeIsUnowned(fat: seq<u32>, total: nat, s: seq<nat>, c: nat)
    requires Sized(fat, total) && IsChain(fat, total, s) && c < |fat| && Low(fat[c]) == FREE
    ensures c !in s
  {
    forall i | 0 <= i < |s| ensures s[i] != c {
      assert i < |s| - 1 ==> InRange(s[i + 1], total);
    }
  }

  /** A chain survives writes to entries outside it. */
  lemma ChainKept(fat: seq<u32>, fat': seq<u32>, total: nat, s: seq<nat>)
    requires Sized(fat, total) && IsChain(fat, total, s) && |fat'| == |fat|
    requires forall c :: c in s ==> fat'[c] == fat[c]
    ensures IsChain(fat', total, s)
  {
    assert forall i :: 0 <= i < |s| ==> s[i] in s;
  }

  // ----- taking clusters -----

  function Taken(fat: seq<u32>, c: nat): seq<u32>
    requires c < |fat|
  {
    fat[c := WithLow(fat[c], EOC)]
  }

  function Linked(fat: seq<u32>, last: nat, c: nat): seq<u32>
    requires last < |fat| && c < MASK
  {
    fat[last := WithLow(fat[last], c)]
  }

  lemma TakenFree(fat: seq<u32>, total: nat, c: nat)
    requires Sized(fat, total) && c in FreeClusters(fat, total)
    ensures FreeClusters(Taken(fat, c), total) == FreeClusters(fat, total) - {c}
  {
    hide Low, High, WithLow;
  }

  /** `fat32_alloc_cluster` for an empty file: a chain of one. */
  lemma TakenForest(fat: seq<u32>, total: nat, files: map<nat, seq<nat>>, f: nat, c: nat)
    requires Forest(fat, total, files) && c in FreeClusters(fat, total) && f in files && files[f] == []
    ensures Forest(Taken(fat, c), total, files[f := [c]])
  {
    hide Low, High, WithLow;
    var fat', files' := Taken(fat, c), files[f := [c]];
    forall g | g in files ensures c !in files[g] { FreeIsUnowned(fat, total, files[g], c); }
    forall g | g in files' ensures IsChain(fat', total, files'[g]) {
      if g == f { OneCluster(fat', total, c); } else { ChainKept(fat, fat', total, files[g]); }
    }
  }

  lemma OneCluster(fat: seq<u32>, total: nat, c: nat)
    requires Sized(fat, total) && InRange(c, total) && Low(fat[c]) >= EOC
    ensures IsChain(fat, total, [c])
  {
  }

  /** `fat32_extend_chain`: the file's chain gains a cluster at its end, no other chain changes. */
  lemma ExtendedForest(fat: seq<u32>, total: nat, files: map<nat, seq<nat>>, f: nat, c: nat)
    requires Forest(fat, total, files) && c in FreeClusters(fat, total) && f in files && files[f] != []
    ensures var s := files[f]; var last := s[|s| - 1];
      && InRange(last, total) && last != c
      && Forest(Linked(Taken(fat, c), last, c), total, files[f := s + [c]])
      && FreeClusters(Linked(Taken(fat, c), last, c), total) == FreeClusters(fat, total) - {c}
  {
    hide Low, High, WithLow;
    var s := files[f];
    var last := s[|s| - 1];
    assert IsChain(fat, total, s) && last in s && InRange(last, total);
    forall g | g in files ensures c !in files[g] { FreeIsUnowned(fat, total, files[g], c); }
    var fat', files' := Linked(Taken(fat, c), last, c), files[f := s + [c]];
    assert FreeClusters(fat', total) == FreeClusters(fat, total) - {c};
    ExtendedChain(fat, total, s, c);
    hide IsChain;
    forall g | g in files' && g != f ensures IsChain(fat', total, files'[g]) {
      assert Disjoint(files[f], files[g]);
      ChainKept(fat, fat', total, files[g]);
    }
    forall g, h | g in files' && h in files' && g != h ensures Disjoint(files'[g], files'[h]) {
      assert Disjoint(files[g], files[h]);
    }
  }

  lemma ExtendedChain(fat: seq<u32>, total: nat, s: seq<nat>, c: nat)
    requires Sized(fat, total) && IsChain(fat, total, s) && s != [] && InRange(c, total) && c !in s
    ensures IsChain(Linked(Taken(fat, c), s[|s| - 1], c), total, s + [c])
  {
    hide Low, High, WithLow;
    var t, last := s + [c], s[|s| - 1];
    var fat' := Linked(Taken(fat, c), last, c);
    forall i | 0 <= i < |t| - 1 ensures Low(fat'[t[i]]) == t[i + 1] {
      if i < |s| - 1 { assert t[i] == s[i] && t[i + 1] == s[i + 1] && s[i] != last && s[i] in s; }
    }
  }

  // ----- giving clusters back -----

  function Freed(fat: seq<u32>, c: nat): seq<u32>
    requires c < |fat|
  {
    fat[c := WithLow(fat[c], FREE)]
  }

  ghost function Used(fat: seq<u32>, total: nat): set<nat>
    requires total + 2 <= |fat|
  {
    set c | 0 <= c < total + 2 && Low(fat[c]) != FREE
  }

  /** `fat32_free_chain`, on any table at all: each turn either uses up a link or is the last one. */
  function FreedFrom(fat: seq<u32>, total: nat, c: nat): (r: seq<u32>)
    requires total + 2 <= |fat|
    ensures |r| == |fat|
    ensures forall k :: 0 <= k < |fat| ==> High(r[k]) == High(fat[k]) && (r[k] == fat[k] || Low(r[k]) == FREE)
    decreases |Used(fat, total)|, c != 0 && c < total + 2
  {
    if c == 0 || c >= total + 2 then fat
    else
      ghost var step := FreeStep(fat, total, c);
      FreedFrom(Freed(fat, c), total, Next(fat, c))
  }

  ghost function FreeStep(fat: seq<u32>, total: nat, c: nat): bool
    requires total + 2 <= |fat| && c < total + 2
    ensures Low(fat[c]) == FREE ==> Used(Freed(fat, c), total) == Used(fat, total) && Next(fat, c) == 0
    ensures Low(fat[c]) != FREE ==> |Used(Freed(fat, c), total)| < |Used(fat, total)|
  {
    assert Used(Freed(fat, c), total) == Used(fat, total) - {c};
    assert Low(fat[c]) != FREE ==> c in Used(fat, total);
    true
  }

  /** On a chain it frees exactly the chain. */
  lemma {:induction false} FreedChain(fat: seq<u32>, total: nat, s: seq<nat>)
    requires Sized(fat, total) && IsChain(fat, total, s) && s != []
    ensures var r := FreedFrom(fat, total, s[0]);
      |r| == |fat| && forall k :: 0 <= k < |fat| ==> if k in s then Low(r[k]) == FREE else r[k] == fat[k]
    decreases |s|
  {
    hide Low, High, WithLow;
    var fat1 := Freed(fat, s[0]);
    assert InRange(s[0], total);
    if |s| > 1 {
      var t := s[1..];
      assert InRange(s[1], total);
      assert Next(fat, s[0]) == t[0];
      assert IsChain(fat1, total, t) by {
        forall i | 0 <= i < |t| ensures fat1[t[i]] == fat[t[i]] { assert t[i] == s[i + 1] != s[0]; }
      }
      FreedChain(fat1, total, t);
      assert forall k :: k in s <==> k == s[0] || k in t;
    } else {
      assert Next(fat, s[0]) == 0;
    }
  }

  /** `fat32_free_chain` on a file: its clusters become free, every other chain stays. */
  lemma FreedForest(fat: seq<u32>, total: nat, files: map<nat, seq<nat>>, f: nat)
    requires Forest(fat, total, files) && f in files && files[f] != []
    ensures var r := FreedFrom(fat, total, files[f][0]);
      && Forest(r, total, files[f := []])
      && FreeClusters(r, total) == FreeClusters(fat, total) + Elems(files[f])
  {
    hide Low, High, WithLow;
    var s := files[f];
    var r := FreedFrom(fat, total, s[0]);
    FreedChain(fat, total, s);
    forall g | g in files && g != f ensures IsChain(r, total, files[g]) {
      assert Disjoint(files[f], files[g]);
      ChainKept(fat, r, total, files[g]);
    }
    assert IsChain(r, total, []);
    assert forall c :: c in s ==> InRange(c, total);
  }

  /** Cutting a chain after `keep` clusters: mark the last one kept, then free the rest. */
  function Cut(fat: seq<u32>, total: nat, c: nat): seq<u32>
    requires total + 2 <= |fat| && c < |fat|
  {
    var marked := fat[c := WithLow(fat[c], EOC)];
    if Next(fat, c) != 0 then FreedFrom(marked, total, Next(fat, c)) else marked
  }

  /** `fat32_truncate` on a chain long enough: exactly the first `keep` clusters stay, the rest become free. */
  lemma CutForest(fat: seq<u32>, total: nat, files: map<nat, seq<nat>>, f: nat, keep: nat)
    requires Forest(fat, total, files) && f in files && 0 < keep <= |files[f]|
    ensures files[f][keep - 1] < |fat|
    ensures var s := files[f]; var r := Cut(fat, total, s[keep - 1]);
      && Forest(r, total, files[f := s[..keep]])
      && FreeClusters(r, total) == FreeClusters(fat, total) + Elems(s[keep..])
  {
    hide IsChain, Cut;
    var s := files[f];
    CutEffect(fat, total, s, keep);
    var r := Cut(fat, total, s[keep - 1]);
    HeadChain(fat, r, total, s, keep);
    PartsIn(s, keep);
    var files' := files[f := s[..keep]];
    forall g | g in files && g != f ensures IsChain(r, total, files[g]) {
      assert Disjoint(files[f], files[g]);
      InRangeAll(fat, total, files[g]);
      ChainKept(fat, r, total, files[g]);
    }
    forall g, h | g in files' && h in files' && g != h ensures Disjoint(files'[g], files'[h]) {
      assert Disjoint(files[g], files[h]);
    }
    InRangeAll(fat, total, s);
    CutFree(fat, r, total, s, keep);
  }

  lemma CutFree(fat: seq<u32>, r: seq<u32>, total: nat, s: seq<nat>, keep: nat)
    requires Sized(fat, total) && IsChain(fat, total, s) && 0 < keep <= |s| && CutTo(fat, r, s, keep)
    ensures FreeClusters(r, total) == FreeClusters(fat, total) + Elems(s[keep..])
  {
    hide Low, High, WithLow;
    InRangeAll(fat, total, s);
    PartsIn(s, keep);
    assert !(Low(fat[s[keep - 1]]) == FREE) by {
      if Low(fat[s[keep - 1]]) == FREE {
        FreeIsUnowned(fat, total, s, s[keep - 1]);
      }
    }
  }

  lemma PartsIn(s: seq<nat>, keep: nat)
    requires keep <= |s|
    ensures forall k :: k in s[..keep] ==> k in s
    ensures forall k :: k in s[keep..] ==> k in s
  {
  }

  lemma InRangeAll(fat: seq<u32>, total: nat, s: seq<nat>)
    requires Sized(fat, total) && IsChain(fat, total, s)
    ensures forall c :: c in s ==> InRange(c, total)
  {
  }

  /** From `fat` to `r`: the entries of `s[keep..]` are free, `s[keep - 1]` is an end, the others are as before. */
  ghost predicate CutTo(fat: seq<u32>, r: seq<u32>, s: seq<nat>, keep: nat) {
    && |r| == |fat| && 0 < keep <= |s|
    && forall k :: 0 <= k < |fat| ==>
         if k in s[keep..] then Low(r[k]) == FREE else if k == s[keep - 1] then Low(r[k]) >= EOC else r[k] == fat[k]
  }

  lemma CutEffect(fat: seq<u32>, total: nat, s: seq<nat>, keep: nat)
    requires Sized(fat, total) && IsChain(fat, total, s) && 0 < keep <= |s|
    ensures s[keep - 1] < |fat| && s[keep - 1] !in s[keep..] && CutTo(fat, Cut(fat, total, s[keep - 1]), s, keep)
  {
    hide Low, High, WithLow;
    var c := s[keep - 1];
    assert InRange(c, total);
    forall i | 0 <= i < |s[keep..]| ensures s[keep..][i] != c { assert s[keep..][i] == s[keep + i]; }
    var marked := fat[c := WithLow(fat[c], EOC)];
    if keep < |s| {
      assert InRange(s[keep], total) && Next(fat, c) == s[keep];
      TailChain(fat, total, s, keep);
      assert s[keep..][0] == s[keep];
      FreedChain(marked, total, s[keep..]);
    }
  }

  lemma TailChain(fat: seq<u32>, total: nat, s: seq<nat>, keep: nat)
    requires Sized(fat, total) && IsChain(fat, total, s) && 0 < keep < |s|
    ensures var c := s[keep - 1]; c < |fat| && IsChain(fat[c := WithLow(fat[c], EOC)], total, s[keep..])
  {
    hide Low, High, WithLow;
    var t := s[keep..];
    assert forall i :: 0 <= i < |t| ==> t[i] == s[keep + i] && t[i] != s[keep - 1];
  }

  lemma HeadChain(fat: seq<u32>, r: seq<u32>, total: nat, s: seq<nat>, keep: nat)
    requires Sized(fat, total) && IsChain(fat, total, s) && 0 < keep <= |s| && |r| == |fat|
    requires Low(r[s[keep - 1]]) >= EOC
    requires forall k :: 0 <= k < |fat| && k !in s[keep..] && k != s[keep - 1] ==> r[k] == fat[k]
    ensures IsChain(r, total, s[..keep])
  {
    hide Low, High, WithLow;
    var t := s[..keep];
    forall i | 0 <= i < |t| - 1 ensures r[t[i]] == fat[t[i]] {
      assert t[i] == s[i] && s[i] != s[keep - 1];
      assert forall j :: 0 <= j < |s[keep..]| ==> s[keep..][j] == s[keep + j] != s[i];
    }
  }

  // ----- conservation -----

  lemma {:induction false} ElemsCount(s: seq<nat>)
    requires NoDup(s)
    ensures |Elems(s)| == |s|
    decreases |s|
  {
    if s != [] {
      var t := s[..|s| - 1];
      ElemsCount(t);
      assert s == t + [s[|s| - 1]];
      assert Elems(s) == Elems(t) + {s[|s| - 1]};
    }
  }

  /** The clusters of file `f`, by position. */
  ghost function Places(f: nat, n: nat): set<(nat, nat)> { set i | 0 <= i < n :: (f, i) }

  lemma {:induction false} PlacesCount(f: nat, n: nat)
    ensures |Places(f, n)| == n
  {
    if n > 0 {
      PlacesCount(f, n - 1);
      assert Places(f, n) == Places(f, n - 1) + {(f, n - 1)};
    }
  }

  ghost function AllPlaces(files: map<nat, seq<nat>>): set<(nat, nat)> {
    set f, i | f in files && 0 <= i < |files[f]| :: (f, i)
  }

  /** The lengths of all chains, added up. */
  ghost function TotalLength(files: map<nat, seq<nat>>): nat { |AllPlaces(files)| }

  lemma OneChainChanged(files: map<nat, seq<nat>>, f: nat, t: seq<nat>)
    requires f in files
    ensures TotalLength(files[f := t]) + |files[f]| == TotalLength(files) + |t|
  {
    PlacesOfOne(files, f);
    PlacesOfOne(files[f := t], f);
    assert files[f := t] - {f} == files - {f};
  }

  lemma PlacesOfOne(files: map<nat, seq<nat>>, f: nat)
    requires f in files
    ensures |AllPlaces(files)| == |AllPlaces(files - {f})| + |files[f]|
  {
    PlacesCount(f, |files[f]|);
    assert AllPlaces(files) == AllPlaces(files - {f}) + Places(f, |files[f]|);
  }

  lemma OneMoreChained(free: set<nat>, files: map<nat, seq<nat>>, f: nat, c: nat)
    requires f in files && c in free
    ensures |free - {c}| + TotalLength(files[f := files[f] + [c]]) == |free| + TotalLength(files)
  {
    hide TotalLength;
    OneChainChanged(files, f, files[f] + [c]);
  }

  /** An operation that moves clusters between the free ones and one chain keeps free entries plus total
      chain length. */
  lemma Conserved(fat: seq<u32>, fat': seq<u32>, total: nat, files: map<nat, seq<nat>>, f: nat, t: seq<nat>)
    requires Forest(fat, total, files) && f in files && Forest(fat', total, files[f := t])
    requires FreeClusters(fat', total) + Elems(t) == FreeClusters(fat, total) + Elems(files[f])
    ensures |FreeClusters(fat', total)| + |t| == |FreeClusters(fat, total)| + |files[f]|
    ensures |FreeClusters(fat', total)| + TotalLength(files[f := t]) == |FreeClusters(fat, total)| + TotalLength(files)
  {
    hide Low, Next, TotalLength;
    assert IsChain(fat, total, files[f]);
    assert files[f := t][f] == t && IsChain(fat', total, t);
    ElemsCount(files[f]); ElemsCount(t);
    forall c | c in FreeClusters(fat, total) ensures c !in Elems(files[f]) { FreeIsUnowned(fat, total, files[f], c); }
    forall c | c in FreeClusters(fat', total) ensures c !in Elems(t) { FreeIsUnowned(fat', total, t, c); }
    UnionCount(FreeClusters(fat, total), Elems(files[f]));
    UnionCount(FreeClusters(fat', total), Elems(t));
    OneChainChanged(files, f, t);
  }

  lemma UnionCount(a: set<nat>, b: set<nat>)
    requires a !! b
    ensures |a + b| == |a| + |b|
  {
  }
}
