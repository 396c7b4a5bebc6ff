/** Clusters on the device, and a chain of them seen as one byte array. */
module FatData {
  import opened Machine

  const SECTOR: nat := 512

  datatype Geometry = Geometry(dataStart: nat, spc: nat, total: nat)
  {
    function Bpc(): nat { SECTOR * spc }
    /** `cluster_to_sector`, in bytes. */
    function Base(c: nat): nat
      requires c >= 2
    {
      SECTOR * (dataStart + (c - 2) * spc)
    }
  }

  ghost predicate Fits(g: Geometry, disk: seq<u8>) { g.spc > 0 && g.Base(g.total + 2) <= |disk| }

  /** Clusters occupy consecutive, separate stretches of the device. */
  lemma Apart(g: Geometry, c: nat, d: nat)
    requires 2 <= c < d
    ensures g.Base(c) + g.Bpc() <= g.Base(d)
  {
    Product(g.spc, d - c);
    assert (d - 2) * g.spc == (c - 2) * g.spc + (d - c) * g.spc;
  }

  /** The clusters tile the data region: the first, number 2, begins where it does, each ends where the next
      begins, and the last ends where it does. */
  lemma Tiling(g: Geometry, c: nat)
    requires c >= 2
    ensures g.Base(2) == 512 * g.dataStart && g.Base(c) + 512 * g.spc == g.Base(c + 1)
    ensures g.Base(g.total + 2) == 512 * (g.dataStart + g.total * g.spc)
  {
    assert (c + 1 - 2) * g.spc == (c - 2) * g.spc + g.spc;
  }

  lemma Product(x: nat, k: nat)
    requires k >= 1
    ensures k * x >= x
  {
  }

  predicate Data(g: Geometry, c: nat) { 2 <= c < g.total + 2 }

  function ClusterAt(g: Geometry, disk: seq<u8>, c: nat): (r: seq<u8>)
    requires Fits(g, disk) && Data(g, c)
    ensures |r| == g.Bpc()
  {
    Apart(g, c, g.total + 2);
    disk[g.Base(c)..g.Base(c) + g.Bpc()]
  }

  function PutCluster(g: Geometry, disk: seq<u8>, c: nat, buf: seq<u8>): (r: seq<u8>)
    requires Fits(g, disk) && Data(g, c) && |buf| == g.Bpc()
    ensures |r| == |disk|
  {
    Apart(g, c, g.total + 2);
    disk[..g.Base(c)] + buf + disk[g.Base(c) + g.Bpc()..]
  }

  /** A written cluster reads back, and no other cluster is touched. */
  lemma PutGet(g: Geometry, disk: seq<u8>, c: nat, buf: seq<u8>, d: nat)
    requires Fits(g, disk) && Data(g, c) && Data(g, d) && |buf| == g.Bpc()
    ensures ClusterAt(g, PutCluster(g, disk, c, buf), d) == if d == c then buf else ClusterAt(g, disk, d)
  {
    hide Geometry.Base, Geometry.Bpc;
    Apart(g, c, g.total + 2); Apart(g, d, g.total + 2);
    if c < d { Apart(g, c, d); } else if d < c { Apart(g, d, c); }
  }

  // ----- byte arrays -----

  function Flat(cs: seq<seq<u8>>): seq<u8> {
    if cs == [] then [] else Flat(cs[..|cs| - 1]) + cs[|cs| - 1]
  }

  lemma {:induction false} FlatAppend(a: seq<seq<u8>>, b: seq<seq<u8>>)
    ensures Flat(a + b) == Flat(a) + Flat(b)
    decreases |b|
  {
    if b == [] {
      assert a + b == a;
    } else {
      var c, x := b[..|b| - 1], b[|b| - 1];
      assert (a + b)[..|a + b| - 1] == a + c && (a + b)[|a + b| - 1] == x;
      FlatAppend(a, c);
      FlatLast(a + b);
      FlatLast(b);
      hide Flat;
      assert Flat(a) + (Flat(c) + x) == (Flat(a) + Flat(c)) + x;
    }
  }

  function Patch(base: seq<u8>, off: nat, b: seq<u8>): (r: seq<u8>)
    requires off + |b| <= |base|
    ensures |r| == |base|
  {
    base[..off] + b + base[off + |b|..]
  }

  function Zeros(n: nat): (z: seq<u8>)
    ensures |z| == n && forall i :: 0 <= i < n ==> z[i] == 0
  {
    seq(n, _ => 0)
  }

  function Pad(base: seq<u8>, n: nat): (r: seq<u8>)
    requires |base| <= n
    ensures |r| == n
  {
    base + Zeros(n - |base|)
  }

  /** Patching inside one cluster patches the whole array at that cluster's place. */
  lemma FlatPatch(cs: seq<seq<u8>>, j: nat, k: nat, b: seq<u8>)
    requires j < |cs| && k + |b| <= |cs[j]|
    ensures |Flat(cs[..j])| + k + |b| <= |Flat(cs)|
    ensures Flat(cs[j := Patch(cs[j], k, b)]) == Patch(Flat(cs), |Flat(cs[..j])| + k, b)
  {
    hide Flat, Patch;
    var x := Patch(cs[j], k, b);
    var left, right := Flat(cs[..j]), Flat(cs[j + 1..]);
    FlatAt(cs, j);
    FlatAt(cs[j := x], j);
    assert cs[j := x][..j] == cs[..j] && cs[j := x][j + 1..] == cs[j + 1..];
    PatchMiddle(left, cs[j], right, k, b);
  }

  lemma FlatAt(cs: seq<seq<u8>>, j: nat)
    requires j < |cs|
    ensures Flat(cs) == Flat(cs[..j]) + cs[j] + Flat(cs[j + 1..])
    ensures Flat(cs[..j + 1]) == Flat(cs[..j]) + cs[j]
  {
    FlatLast(cs[..j + 1]);
    hide Flat;
    assert cs[..j + 1][..j] == cs[..j];
    assert cs == cs[..j + 1] + cs[j + 1..];
    FlatAppend(cs[..j + 1], cs[j + 1..]);
  }

  lemma FlatLast(cs: seq<seq<u8>>)
    requires cs != []
    ensures Flat(cs) == Flat(cs[..|cs| - 1]) + cs[|cs| - 1]
  {
  }

  lemma PatchMiddle(left: seq<u8>, mid: seq<u8>, right: seq<u8>, k: nat, b: seq<u8>)
    requires k + |b| <= |mid|
    ensures left + Patch(mid, k, b) + right == Patch(left + mid + right, |left| + k, b)
  {
  }

  lemma PatchTwice(base: seq<u8>, off: nat, b: seq<u8>, c: seq<u8>)
    requires off + |b| + |c| <= |base|
    ensures Patch(Patch(base, off, b), off + |b|, c) == Patch(base, off, b + c)
  {
  }

  lemma PatchPadded(base: seq<u8>, off: nat, b: seq<u8>, more: nat)
    requires off + |b| <= |base|
    ensures Patch(base, off, b) + Zeros(more) == Patch(base + Zeros(more), off, b)
  {
  }

  lemma PadMore(base: seq<u8>, n: nat, more: nat)
    requires |base| <= n
    ensures Pad(base, n) + Zeros(more) == Pad(base, n + more)
  {
  }

  // ----- a chain of clusters as one byte array -----

  function Clusters(g: Geometry, disk: seq<u8>, s: seq<nat>): (r: seq<seq<u8>>)
    requires Fits(g, disk) && forall i :: 0 <= i < |s| ==> Data(g, s[i])
    ensures |r| == |s| && forall i :: 0 <= i < |s| ==> r[i] == ClusterAt(g, disk, s[i])
  {
    if s == [] then [] else Clusters(g, disk, s[..|s| - 1]) + [ClusterAt(g, disk, s[|s| - 1])]
  }

  ghost predicate AllData(g: Geometry, s: seq<nat>) { forall i :: 0 <= i < |s| ==> Data(g, s[i]) }

  function Bytes(g: Geometry, disk: seq<u8>, s: seq<nat>): seq<u8>
    requires Fits(g, disk) && AllData(g, s)
  {
    Flat(Clusters(g, disk, s))
  }

  /** The bytes that `n` clusters hold. */
  function Span(g: Geometry, n: nat): nat {
    if n == 0 then 0 else Span(g, n - 1) + g.Bpc()
  }

  lemma {:induction false} SpanGrows(g: Geometry, m: nat, n: nat)
    requires m <= n
    ensures Span(g, m) <= Span(g, n)
    decreases n
  {
    if m < n { SpanGrows(g, m, n - 1); }
  }

  lemma {:induction false} FlatSpan(g: Geometry, cs: seq<seq<u8>>)
    requires forall i :: 0 <= i < |cs| ==> |cs[i]| == g.Bpc()
    ensures |Flat(cs)| == Span(g, |cs|)
    decreases |cs|
  {
    if cs != [] { FlatSpan(g, cs[..|cs| - 1]); }
  }

  lemma BytesSpan(g: Geometry, disk: seq<u8>, s: seq<nat>)
    requires Fits(g, disk) && AllData(g, s)
    ensures |Bytes(g, disk, s)| == Span(g, |s|)
  {
    hide ClusterAt, Flat;
    FlatSpan(g, Clusters(g, disk, s));
  }

  /** Cluster `j` of a chain is the stretch of bytes after the first `j` clusters. */
  lemma ClusterInBytes(g: Geometry, disk: seq<u8>, s: seq<nat>, j: nat)
    requires Fits(g, disk) && AllData(g, s) && j < |s|
    ensures Span(g, j) + g.Bpc() == Span(g, j + 1) <= |Bytes(g, disk, s)|
    ensures Bytes(g, disk, s)[Span(g, j)..Span(g, j + 1)] == ClusterAt(g, disk, s[j])
  {
    hide ClusterAt, Flat, Geometry.Bpc;
    var cs := Clusters(g, disk, s);
    FlatSpan(g, cs[..j]);
    FlatAt(cs, j);
    BytesSpan(g, disk, s);
    SpanGrows(g, j + 1, |s|);
  }

  /** The array does not change when clusters outside the chain are written. */
  lemma BytesKept(g: Geometry, disk: seq<u8>, disk': seq<u8>, s: seq<nat>)
    requires Fits(g, disk) && Fits(g, disk') && AllData(g, s)
    requires forall i :: 0 <= i < |s| ==> ClusterAt(g, disk', s[i]) == ClusterAt(g, disk, s[i])
    ensures Bytes(g, disk', s) == Bytes(g, disk, s)
  {
    hide ClusterAt, Flat, Fits;
    assert Clusters(g, disk', s) == Clusters(g, disk, s);
  }

  lemma BytesExtended(g: Geometry, disk: seq<u8>, s: seq<nat>, c: nat)
    requires Fits(g, disk) && AllData(g, s) && Data(g, c)
    ensures AllData(g, s + [c]) && Bytes(g, disk, s + [c]) == Bytes(g, disk, s) + ClusterAt(g, disk, c)
  {
    hide ClusterAt, Flat, Fits;
    assert (s + [c])[..|s|] == s;
    FlatLast(Clusters(g, disk, s + [c]));
    assert Clusters(g, disk, s + [c]) == Clusters(g, disk, s) + [ClusterAt(g, disk, c)];
  }

  /** Writing part of one cluster of a chain patches the chain's byte array. */
  lemma BytesPatched(g: Geometry, disk: seq<u8>, s: seq<nat>, j: nat, k: nat, b: seq<u8>)
    requires Fits(g, disk) && AllData(g, s) && j < |s| && k + |b| <= g.Bpc()
    requires forall i :: 0 <= i < |s| && i != j ==> s[i] != s[j]
    ensures Span(g, j) + k + |b| <= |Bytes(g, disk, s)|
    ensures var disk' := PutCluster(g, disk, s[j], Patch(ClusterAt(g, disk, s[j]), k, b));
      Bytes(g, disk', s) == Patch(Bytes(g, disk, s), Span(g, j) + k, b)
  {
    hide ClusterAt, Flat, Fits, PutCluster, Patch, Geometry.Bpc;
    var x := Patch(ClusterAt(g, disk, s[j]), k, b);
    var cs := Clusters(g, disk, s);
    PutInChain(g, disk, s, j, x);
    FlatSpan(g, cs[..j]);
    FlatPatch(cs, j, k, b);
  }

  lemma PutInChain(g: Geometry, disk: seq<u8>, s: seq<nat>, j: nat, x: seq<u8>)
    requires Fits(g, disk) && AllData(g, s) && j < |s| && |x| == g.Bpc()
    requires forall i :: 0 <= i < |s| && i != j ==> s[i] != s[j]
    ensures Fits(g, PutCluster(g, disk, s[j], x))
    ensures Clusters(g, PutCluster(g, disk, s[j], x), s) == Clusters(g, disk, s)[j := x]
  {
    hide ClusterAt, PutCluster, Geometry.Bpc;
    var disk' := PutCluster(g, disk, s[j], x);
    forall i | 0 <= i < |s| ensures ClusterAt(g, disk', s[i]) == if i == j then x else ClusterAt(g, disk, s[i]) {
      PutGet(g, disk, s[j], x, s[i]);
    }
  }

  // ----- where a byte of a file is on the device -----

  /** Byte `r` of the `j`-th cluster of chain `s` is `b`; cluster 2 is at the start of the data region. */
  ghost predicate InCluster(g: Geometry, disk: seq<u8>, s: seq<nat>, j: int, r: int, b: u8) {
    && 0 <= j < |s|
    && var at := 512 * g.dataStart + (s[j] - 2) * (512 * g.spc) + r;
       0 <= at < |disk| && disk[at] == b
  }

  /** Byte `i` of the file with chain `s` is `b`. */
  ghost predicate OnDisk(g: Geometry, disk: seq<u8>, s: seq<nat>, i: nat, b: u8) {
    g.spc > 0 && InCluster(g, disk, s, i / (512 * g.spc), i % (512 * g.spc), b)
  }

  lemma BaseIs(g: Geometry, c: nat)
    requires c >= 2
    ensures g.Base(c) == 512 * g.dataStart + (c - 2) * (512 * g.spc)
  {
    assert 512 * ((c - 2) * g.spc) == (c - 2) * (512 * g.spc);
  }

  lemma {:induction false} SpanTimes(g: Geometry, n: nat)
    ensures Span(g, n) == n * g.Bpc()
  {
    hide Geometry.Bpc;
    if n > 0 { SpanTimes(g, n - 1); }
  }

  lemma Reaches(last: nat, b: nat, n: nat)
    requires b > 0
    ensures last < n * b <==> last / b + 1 <= n
  {
    var q := last / b;
    assert last == q * b + last % b;
    if n <= q { assert n * b <= q * b; } else { assert (q + 1) * b <= n * b; }
  }

  lemma FileByte(g: Geometry, disk: seq<u8>, s: seq<nat>, i: nat)
    requires Fits(g, disk) && AllData(g, s) && i < |Bytes(g, disk, s)|
    ensures OnDisk(g, disk, s, i, Bytes(g, disk, s)[i])
  {
    hide Geometry.Base, Bytes, Fits, AllData, InCluster;
    BytesSpan(g, disk, s);
    SpanTimes(g, |s|);
    SomeBytes(|s|, g.spc, i);
    var b := 512 * g.spc;
    Reaches(i, b, |s|);
    ByteAt(g, disk, s, i, i / b, i % b);
  }

  lemma SomeBytes(n: nat, spc: nat, i: nat)
    requires i < n * (512 * spc)
    ensures spc > 0
  {
  }

  lemma ByteAt(g: Geometry, disk: seq<u8>, s: seq<nat>, i: nat, j: nat, r: nat)
    requires Fits(g, disk) && AllData(g, s) && i < |Bytes(g, disk, s)| && j < |s|
    requires r < g.Bpc() && i == j * g.Bpc() + r
    ensures InCluster(g, disk, s, j, r, Bytes(g, disk, s)[i])
  {
    hide Geometry.Bpc, Geometry.Base, Bytes, Fits, AllData;
    SpanTimes(g, j);
    ClusterInBytes(g, disk, s, j);
    ByteOfCluster(g, disk, s, j, r);
    var all := Bytes(g, disk, s);
    assert all[Span(g, j)..Span(g, j + 1)][r] == all[Span(g, j) + r];
  }

  lemma ByteOfCluster(g: Geometry, disk: seq<u8>, s: seq<nat>, j: nat, r: nat)
    requires Fits(g, disk) && AllData(g, s) && j < |s| && r < g.Bpc()
    ensures Data(g, s[j]) && g.Base(s[j]) + r < |disk| && ClusterAt(g, disk, s[j])[r] == disk[g.Base(s[j]) + r]
    ensures g.Base(s[j]) == 512 * g.dataStart + (s[j] - 2) * (512 * g.spc)
  {
    Apart(g, s[j], g.total + 2);
    BaseIs(g, s[j]);
  }
}
