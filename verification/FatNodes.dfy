/** Files as their users see them: a size, the bytes up to it, and the directory entry that records both. */
module FatNodes {
  import opened Machine
  import opened FatTable
  import opened FatData
  import opened Fat32
  import Counters

  const ENTRY_SIZE: nat := 32

  // ----- the directory entry -----

  function Le16(x: nat): seq<u8>
    requires x < 0x1_0000
  {
    [x % 256, x / 256]
  }

  function Word(low: nat, high: nat): nat { low + high * 256 }

  predicate EntryBytes(e: seq<u8>) { |e| == ENTRY_SIZE }

  /** `fat32_entry_cluster` */
  function EntryCluster(e: seq<u8>): nat
    requires EntryBytes(e)
  {
    Word(e[20], e[21]) * 0x1_0000 + Word(e[26], e[27])
  }

  function EntryLength(e: seq<u8>): nat
    requires EntryBytes(e)
  {
    Word(e[30], e[31]) * 0x1_0000 + Word(e[28], e[29])
  }

  /** The entry with a new size and, by `fat32_set_entry_cluster`, a new first cluster. */
  function WithFile(e: seq<u8>, cluster: u32, size: u32): (r: seq<u8>)
    requires EntryBytes(e)
    ensures EntryBytes(r)
  {
    e[..20] + Le16(cluster / 0x1_0000) + e[22..26] + Le16(cluster % 0x1_0000) + Le16(size % 0x1_0000)
      + Le16(size / 0x1_0000)
  }

  /** What is recorded is found again, and the rest of the entry stays. */
  lemma RecordReadsBack(e: seq<u8>, cluster: u32, size: u32)
    requires EntryBytes(e)
    ensures var r := WithFile(e, cluster, size);
      && EntryCluster(r) == cluster && EntryLength(r) == size
      && r[..20] == e[..20] && r[22..26] == e[22..26]
  {
    var r := WithFile(e, cluster, size);
    assert r[20] == cluster / 0x1_0000 % 256 && r[21] == cluster / 0x1_0000 / 256;
    assert r[26] == cluster % 0x1_0000 % 256 && r[27] == cluster % 0x1_0000 / 256;
    assert r[28] == size % 0x1_0000 % 256 && r[29] == size % 0x1_0000 / 256;
    assert r[30] == size / 0x1_0000 % 256 && r[31] == size / 0x1_0000 / 256;
  }

  /** The fields of a directory entry in order, by size: name, attributes, four times and dates, first cluster
      (high half), two more, first cluster (low half), file size. */
  const ENTRY_FIELDS: seq<nat> := [11, 1, 1, 1, 2, 2, 2, 2, 2, 2, 2, 4]

  function FieldStart(k: nat): nat
    requires k <= |ENTRY_FIELDS|
  {
    if k == 0 then 0 else FieldStart(k - 1) + ENTRY_FIELDS[k - 1]
  }

  lemma FieldPlaces()
    ensures FieldStart(7) == 20 && FieldStart(8) == 22 && FieldStart(10) == 26 && FieldStart(11) == 28
      && FieldStart(12) == 32
  {
    assert FieldStart(4) == 14;
    assert FieldStart(7) == 20;
    assert FieldStart(10) == 26;
  }

  /** Only the two halves of the first cluster and the size change, and they are stored low byte first. */
  lemma RecordedInFields(e: seq<u8>, cluster: u32, size: u32)
    requires EntryBytes(e)
    ensures var r := WithFile(e, cluster, size);
      && r[..FieldStart(7)] == e[..FieldStart(7)]
        && r[FieldStart(8)..FieldStart(10)] == e[FieldStart(8)..FieldStart(10)]
      && r[FieldStart(7)..FieldStart(8)] == [cluster / 0x1_0000 % 256, cluster / 0x100_0000]
      && r[FieldStart(10)..FieldStart(11)] == [cluster % 256, cluster / 256 % 256]
      && r[FieldStart(11)..FieldStart(12)] == [size % 256, size / 256 % 256, size / 0x1_0000 % 256, size / 0x100_0000]
  {
    FieldPlaces();
    hide FieldStart;
    FourBytes(cluster);
    FourBytes(size);
    hide Le16;
    assert WithFile(e, cluster, size) == e[..20] + [cluster / 0x1_0000 % 256, cluster / 0x100_0000] + e[22..26]
      + [cluster % 256, cluster / 256 % 256] + [size % 256, size / 256 % 256, size / 0x1_0000 % 256, size / 0x100_0000];
  }

  lemma FourBytes(x: u32)
    ensures Le16(x % 0x1_0000) == [x % 256, x / 256 % 256] && Le16(x / 0x1_0000) == [x / 0x1_0000 % 256, x / 0x100_0000]
  {
    LowHalf(x);
    HighHalf(x);
  }

  lemma HighHalf(x: u32)
    ensures x / 0x1_0000 / 256 == x / 0x100_0000
  {
  }

  lemma LowHalf(x: u32)
    ensures x % 0x1_0000 % 256 == x % 256 && x % 0x1_0000 / 256 == x / 256 % 256
  {
    var high, low := x / 256 % 256, x % 256;
    assert x / 256 / 256 == x / 0x1_0000;
    assert x == x / 256 * 256 + low && x / 256 == x / 0x1_0000 * 256 + high;
    assert x % 0x1_0000 == high * 256 + low;
    TwoBytes(high, low);
  }

  lemma TwoBytes(high: nat, low: nat)
    requires high < 256 && low < 256
    ensures (high * 256 + low) / 256 == high && (high * 256 + low) % 256 == low
  {
  }

  // ----- all contents of a volume -----

  ghost function Contents(v: Volume): map<nat, seq<u8>>
    reads v, v.fat
    requires v.Valid()
  {
    map f | f in v.files :: v.Content(f)
  }

  ghost function OldContents(g: Geometry, o: Origin): map<nat, seq<u8>>
    requires Forest(o.fat, g.total, o.files) && Fits(g, o.disk)
  {
    map f | f in o.files :: OldContent(g, o, f)
  }

  lemma ContentsNow(v: Volume, o: Origin)
    requires v.Valid() && o == Origin(v.fat[..], v.disk, v.files, o.offset)
    ensures Contents(v) == OldContents(v.geo, o)
  {
    hide Forest, Fits, Bytes;
  }

  lemma WroteOne(v: Volume, f: nat, o: Origin, done: seq<u8>)
    requires v.Writing(f, o, done)
    ensures Contents(v) == OldContents(v.geo, o)[f := v.Content(f)]
  {
    hide Forest, Fits, Bytes, Written, OnlyIn;
    forall g | g in o.files && g != f ensures g in v.files && v.Content(g) == OldContent(v.geo, o, g) {
      OthersKept(v, f, o, done, g);
    }
  }

  /** A shorter chain on the same device holds the front of the bytes. */
  lemma BytesPrefix(g: Geometry, disk: seq<u8>, s: seq<nat>, n: nat)
    requires Fits(g, disk) && AllData(g, s) && n <= |s|
    ensures AllData(g, s[..n]) && Span(g, n) <= |Bytes(g, disk, s)|
      && Bytes(g, disk, s[..n]) == Bytes(g, disk, s)[..Span(g, n)]
  {
    hide ClusterAt, Flat, Geometry.Bpc;
    var cs := FatData.Clusters(g, disk, s);
    assert FatData.Clusters(g, disk, s[..n]) == cs[..n];
    assert cs == cs[..n] + cs[n..];
    FlatAppend(cs[..n], cs[n..]);
    FlatSpan(g, cs[..n]);
  }

  /** After an update the entry read from the directory's bytes is the one recorded. */
  lemma PatchedEntry(all: seq<u8>, at: nat, e: seq<u8>)
    requires |e| == ENTRY_SIZE && at + ENTRY_SIZE <= |all|
    ensures Patch(all, at, e)[at..at + ENTRY_SIZE] == e
  {
  }

  // ----- what a write past the end leaves in between -----

  /** The bytes after the file's end in the clusters it has are all zero. */
  predicate Clean(all: seq<u8>, size: nat) { forall i :: size <= i < |all| ==> all[i] == 0 }

  /** The bytes between the end and `offset`, where the file already has clusters, are zero. */
  predicate GapClean(all: seq<u8>, size: nat, offset: nat) { forall i :: size <= i < Min(offset, |all|) ==>
                                                            all[i] == 0 }

  lemma WrittenAt(before: seq<u8>, now: seq<u8>, offset: nat, buf: seq<u8>, i: nat)
    requires Written(before, now, offset, buf) && buf != [] && i < |now|
    ensures now[i] == if offset <= i < offset + |buf| then buf[i - offset] else if i < |before| then before[i] else 0
  {
  }

  /** The file after a write is the old one extended with zeroes and patched, exactly when the gap was clean. */
  lemma GapReadsZero(before: seq<u8>, now: seq<u8>, size: nat, offset: nat, buf: seq<u8>)
    requires Written(before, now, offset, buf) && buf != [] && size <= |before|
    ensures var end := Max(size, offset + |buf|);
      end <= |now| && (now[..end] == Patch(Pad(before[..size], end), offset, buf) <==> GapClean(before, size, offset))
  {
    hide Written;
    var end := Max(size, offset + |buf|);
    assert end <= |now| by { Longer(before, now, offset, buf); }
    var ideal := Patch(Pad(before[..size], end), offset, buf);
    forall i | 0 <= i < end
      ensures ideal[i] == (if offset <= i < offset + |buf| then buf[i - offset] else if i < size then before[i] else 0)
      ensures now[i] == if offset <= i < offset + |buf| then buf[i - offset] else if i < |before| then before[i] else 0
    {
      WrittenAt(before, now, offset, buf, i);
    }
    if GapClean(before, size, offset) {
      forall i | 0 <= i < end ensures now[i] == ideal[i] {}
    } else {
      var i :| size <= i < Min(offset, |before|) && before[i] != 0;
      assert now[..end][i] == now[i];
    }
  }

  /** A write that succeeds leaves nothing behind after the new end. */
  lemma StaysClean(before: seq<u8>, now: seq<u8>, size: nat, offset: nat, buf: seq<u8>)
    requires Written(before, now, offset, buf) && buf != [] && Clean(before, size)
    ensures Clean(now, Max(size, offset + |buf|))
  {
    hide Written;
    forall i | Max(size, offset + |buf|) <= i < |now| ensures now[i] == 0 { WrittenAt(before, now, offset, buf, i); }
  }

  class FileNode {
    const vol: Volume
    /** Where the directory entry is: the directory's first cluster and the index in it. */
    const dir: nat
    const idx: nat
    var first: nat
    var size: nat
    /** The file and its directory among the volume's chains. */
    ghost const f: nat
    ghost const g: nat

    /** The node of an entry that names a chain of the volume and a size it holds. */
    constructor (vol: Volume, dir: nat, idx: nat, first: nat, size: nat, ghost f: nat, ghost g: nat)
      requires vol.Valid() && f in vol.files && g in vol.files && f != g
      requires first == FirstOf(vol.files[f]) && dir == FirstOf(vol.files[g])
      requires size <= |vol.Content(f)| && size < 0x1_0000_0000 && (idx + 1) * ENTRY_SIZE <= |vol.Content(g)|
      requires (idx + 1) * ENTRY_SIZE + vol.geo.Bpc() < 0x1_0000_0000
      ensures Valid() && this.vol == vol && this.dir == dir && this.idx == idx && this.f == f && this.g == g
      ensures this.first == first && this.size == size
    {
      this.vol, this.dir, this.idx, this.first, this.size, this.f, this.g := vol, dir, idx, first, size, f, g;
    }

    ghost predicate Valid()
      reads this, vol, vol.fat
    {
      && vol.Valid() && f in vol.files && g in vol.files && f != g
      && first == FirstOf(vol.files[f]) && dir == FirstOf(vol.files[g])
      && size <= |vol.Content(f)| && size < 0x1_0000_0000
      && EntryEnd() <= |vol.Content(g)| && EntryEnd() + vol.geo.Bpc() < 0x1_0000_0000
    }

    ghost function EntryEnd(): nat { idx * ENTRY_SIZE + ENTRY_SIZE }

    /** The bytes of the file. */
    ghost function Bytes(): seq<u8>
      reads this, vol, vol.fat
      requires Valid()
    {
      vol.Content(f)[..size]
    }

    ghost function Entry(): seq<u8>
      reads this, vol, vol.fat
      requires Valid()
    {
      vol.Content(g)[idx * ENTRY_SIZE..EntryEnd()]
    }

    /** The entry on the device says what the node says. */
    ghost predicate Recorded()
      reads this, vol, vol.fat
      requires Valid()
    {
      EntryCluster(Entry()) == first && EntryLength(Entry()) == size
    }

    lemma SmallCluster()
      requires vol.Valid() && f in vol.files
      ensures FirstOf(vol.files[f]) < 0x1_0000_0000
    {
      if vol.files[f] != [] { FollowIn(vol.fat[..], vol.geo.total, vol.files, f, 0); }
    }

    /** Reading the entry, changing size and first cluster, and writing it back. It fits in the directory's
        clusters, so the write needs no new one; only a failed temporary allocation leaves the entry alone. */
    method UpdateEntry(readReady: bool, writeReady: bool)
      requires Valid()
      modifies vol, vol.fat
      ensures Valid() && vol.files == old(vol.files)
      ensures Contents(vol) == if readReady && writeReady
        then old(Contents(vol))[g := Patch(old(vol.Content(g)), idx * ENTRY_SIZE, WithFile(old(Entry()), first, size))]
        else old(Contents(vol))
    {
      hide Forest, Fits, FatData.Bytes, Written, OnlyIn, Span, Needed, FreeClusters, TotalLength, NoLonger, WithFile,
        Patch;
      ghost var before, mine := vol.Content(g), vol.Content(f);
      SmallCluster();
      EnoughClusters(vol, g, idx * ENTRY_SIZE, ENTRY_SIZE);
      var r, e := vol.ReadChain(dir, idx * ENTRY_SIZE, ENTRY_SIZE, readReady, g);
      if r <= 0 { return; }
      ghost var o := Origin(vol.fat[..], vol.disk, vol.files, idx * ENTRY_SIZE);
      ContentsNow(vol, o);
      assert OldContent(vol.geo, o, g) == OldContents(vol.geo, o)[g] && OldContents(vol.geo, o)[f] == mine;
      var w, first', done := vol.WriteChain(dir, idx * ENTRY_SIZE, WithFile(e, first, size), writeReady, g);
      WroteOne(vol, g, o, done);
      SameLength(o.files[g], vol.files[g]);
      assert vol.files == o.files;
      ContentLength(vol, g);
      InPlace(before, vol.Content(g), idx * ENTRY_SIZE, done);
      assert vol.Content(f) == Contents(vol)[f] && vol.Content(g) == Contents(vol)[g];
    }

    /** `fat32_read` */
    method Read(offset: nat, n: nat, ready: bool) returns (r: int, seen: seq<u8>)
      requires Valid() && offset + n + vol.geo.Bpc() < 0x1_0000_0000
      ensures ready || offset >= size ==>
        r == |seen| && seen == if offset >= size then [] else Bytes()[offset..][..Min(n, size - offset)]
      ensures !ready && offset < size ==> r == -ENOMEM && seen == []
    {
      hide Forest, Fits, FatData.Bytes, Span;
      if offset >= size { return 0, []; }
      EnoughClusters(vol, f, offset, 1);
      var count := if n > size - offset then size - offset else n;
      r, seen := vol.ReadChain(first, offset, count, ready, f);
      if ready {
        Window(vol.Content(f), size, offset, count);
      }
    }

    /** `fat32_write`. On success the size reaches to the end of the data and the entry records size and first
        cluster; a refused write leaves both as they were, although the chain may have grown. */
    method Write(buf: seq<u8>, offset: nat, ready: bool, readReady: bool, writeReady: bool)
      returns (ret: int, ghost done: seq<u8>)
      requires Valid() && offset + |buf| + vol.geo.Bpc() < 0x1_0000_0000
      modifies this`first, this`size, vol, vol.fat
      ensures Valid() && vol.geo.Bpc() > 0
      ensures ret == if !ready then -ENOMEM
        else if Needed(offset, |buf|, vol.geo.Bpc()) <= |old(vol.files)[f]| + |FreeClusters(old(vol.fat[..]),
          vol.geo.total)|
        then |buf| else -ENOSPC
      ensures Written(old(vol.Content(f)), vol.Content(f), offset, done) && (ret >= 0 ==> done == buf)
      ensures size == if ret > 0 then Max(old(size), offset + |buf|) else old(size)
      ensures old(vol.files)[f] <= vol.files[f]
      ensures ret == -ENOSPC ==> |vol.files[f]| == |old(vol.files)[f]| + |FreeClusters(old(vol.fat[..]), vol.geo.total)|
      ensures Contents(vol) == old(Contents(vol))[f := vol.Content(f)][g := vol.Content(g)]
      ensures vol.Content(g) == if ret > 0 && readReady && writeReady
        then Patch(old(vol.Content(g)), idx * ENTRY_SIZE, WithFile(old(Entry()), first, size)) else old(vol.Content(g))
    {
      hide Forest, Fits, FatData.Bytes, Written, OnlyIn, Span, Needed, FreeClusters, TotalLength, NoLonger, WithFile,
        Patch;
      ghost var o := Origin(vol.fat[..], vol.disk, vol.files, offset);
      ghost var all := Contents(vol);
      ContentsNow(vol, o);
      ContentLength(vol, f);
      assert OldContent(vol.geo, o, f) == all[f];
      ret, first, done := vol.WriteChain(first, offset, buf, ready, f);
      WroteOne(vol, f, o, done);
      Longer(all[f], vol.Content(f), offset, done);
      assert vol.Content(g) == Contents(vol)[g] == all[g];
      assert all[f := vol.Content(f)] == all[f := vol.Content(f)][g := all[g]];
      if ret <= 0 { return; }
      if offset + ret > size { size := offset + ret; }
      SmallCluster();
      ghost var data := vol.Content(f);
      UpdateEntry(readReady, writeReady);
      assert vol.Content(f) == Contents(vol)[f] == data && vol.Content(g) == Contents(vol)[g];
    }

    /** `fat32_truncate`: the file is cut to its first `newSize` bytes, never extended, and the entry records it. */
    method Truncate(newSize: nat, readReady: bool, writeReady: bool)
      requires Valid() && newSize + vol.geo.Bpc() < 0x1_0000_0000
      modifies this`first, this`size, vol, vol.fat
      ensures Valid() && size == Min(newSize, old(size)) && Bytes() == old(Bytes())[..size]
      ensures |vol.Content(f)| <= |old(vol.Content(f))| && vol.Content(f) == old(vol.Content(f))[..|vol.Content(f)|]
      ensures newSize == 0 ==> vol.Content(f) == []
      ensures Contents(vol) == old(Contents(vol))[f := vol.Content(f)][g := vol.Content(g)]
      ensures vol.Content(g) == if readReady && writeReady
        then Patch(old(vol.Content(g)), idx * ENTRY_SIZE, WithFile(old(Entry()), first, size)) else old(vol.Content(g))
    {
      hide Forest, Fits, FatData.Bytes, Span, FreeClusters, TotalLength, WithFile, Patch, ClustersFor, Prefix;
      ghost var o := Origin(vol.fat[..], vol.disk, vol.files, 0);
      ghost var all, size0 := Contents(vol), size;
      ContentsNow(vol, o);
      ContentLength(vol, f);
      first, size := vol.Truncate(first, size, newSize, f);
      CutContents(vol, o, f, size0, newSize);
      assert vol.Content(g) == Contents(vol)[g] == all[g];
      assert all[f := vol.Content(f)] == all[f := vol.Content(f)][g := all[g]];
      SmallCluster();
      ghost var data := vol.Content(f);
      UpdateEntry(readReady, writeReady);
      assert vol.Content(f) == Contents(vol)[f] == data && vol.Content(g) == Contents(vol)[g];
    }
  }

  /** Cutting a chain keeps the front of its bytes, enough for the new size, and every other file. */
  lemma CutContents(v: Volume, o: Origin, f: nat, size: nat, newSize: nat)
    requires v.Valid() && Forest(o.fat, v.geo.total, o.files) && Fits(v.geo, o.disk) && f in o.files && f in v.files
    requires v.disk == o.disk && v.files == o.files[f := v.files[f]] && v.geo.Bpc() > 0
    requires newSize == 0 ==> v.files[f] == []
    requires 0 < newSize < size ==> v.files[f] == Prefix(o.files[f], ClustersFor(newSize, v.geo.Bpc()))
    requires newSize > 0 && newSize >= size ==> v.files[f] == o.files[f]
    requires size <= |OldContent(v.geo, o, f)|
    ensures Contents(v) == OldContents(v.geo, o)[f := v.Content(f)]
    ensures |v.Content(f)| <= |OldContent(v.geo, o, f)| && v.Content(f) == OldContent(v.geo, o, f)[..|v.Content(f)|]
    ensures Min(newSize, size) <= |v.Content(f)| && (newSize == 0 ==> v.Content(f) == [])
  {
    hide Forest, Fits, FatData.Bytes, Span, ClustersFor;
    var s, b := o.files[f], v.geo.Bpc();
    ForestData(o.fat, v.geo, o.files, f);
    BytesSpan(v.geo, o.disk, s);
    ContentLength(v, f);
    if 0 < newSize < size {
      var n := ClustersFor(newSize, b);
      SpanReaches(v.geo, |s|, newSize - 1);
      ClustersReach(newSize, b);
      SpanReaches(v.geo, n, newSize - 1);
      BytesPrefix(v.geo, o.disk, s, n);
    } else if newSize == 0 {
      SpanZero(v.geo);
    }
  }

  lemma ClustersReach(size: nat, b: nat)
    requires size > 0 && b > 0
    ensures ClustersFor(size, b) == (size - 1) / b + 1
  {
    var q, r := (size - 1) / b, (size - 1) % b;
    Counters.QuotientIs(size + b - 1, b, q + 1, r) by {
      assert size - 1 == q * b + r;
      assert (q + 1) * b == q * b + b;
    }
  }

  lemma Window(all: seq<u8>, size: nat, offset: nat, count: nat)
    requires offset + count <= size <= |all|
    ensures all[..size][offset..][..count] == all[offset..offset + count]
  {
  }

  lemma Longer(before: seq<u8>, now: seq<u8>, offset: nat, done: seq<u8>)
    requires Written(before, now, offset, done)
    ensures |before| <= |now| && (done != [] ==> offset + |done| <= |now|)
  {
  }

  lemma EnoughClusters(v: Volume, f: nat, offset: nat, n: nat)
    requires v.Valid() && f in v.files && n > 0 && offset + n <= |v.Content(f)|
    ensures v.geo.Bpc() > 0 && Needed(offset, n, v.geo.Bpc()) <= |v.files[f]| && FirstOf(v.files[f]) != 0
    ensures |v.Content(f)| == Span(v.geo, |v.files[f]|)
  {
    hide Forest, Fits, FatData.Bytes;
    ContentLength(v, f);
    SpanReaches(v.geo, |v.files[f]|, offset + n - 1);
    FollowIn(v.fat[..], v.geo.total, v.files, f, 0);
  }

  lemma SameLength<T>(s: seq<T>, t: seq<T>)
    requires s <= t
    ensures |s| == |t| ==> s == t
  {
  }

  lemma InPlace(before: seq<u8>, now: seq<u8>, offset: nat, done: seq<u8>)
    requires Written(before, now, offset, done) && |now| == |before|
    ensures done == [] ==> now == before
    ensures done != [] ==> offset + |done| <= |before| && now == Patch(before, offset, done)
  {
    assert before + Zeros(0) == before;
  }

  /** Whether node and entry agree after a call that started with them in agreement: they do when the entry
      was updated, and otherwise exactly when neither size nor first cluster changed. */
  lemma RecordedAfter(n: FileNode, was: seq<u8>, first0: nat, size0: nat, updated: bool)
    requires n.Valid() && n.EntryEnd() <= |was| && n.first < 0x1_0000_0000
    requires var e := was[n.idx * ENTRY_SIZE..n.EntryEnd()]; EntryCluster(e) == first0 && EntryLength(e) == size0
    requires n.vol.Content(n.g) ==
      if updated then Patch(was, n.idx * ENTRY_SIZE, WithFile(was[n.idx * ENTRY_SIZE..n.EntryEnd()], n.first, n.size))
        else was
    ensures n.Recorded() <==> updated || (n.first == first0 && n.size == size0)
  {
    hide FatData.Bytes, Forest, Fits, Patch, WithFile, EntryCluster, EntryLength;
    var e := was[n.idx * ENTRY_SIZE..n.EntryEnd()];
    if updated {
      RecordReadsBack(e, n.first, n.size);
      PatchedEntry(was, n.idx * ENTRY_SIZE, WithFile(e, n.first, n.size));
    }
  }

  lemma EmptyChain(v: Volume, f: nat)
    requires v.Valid() && f in v.files
    ensures FirstOf(v.files[f]) < 0x1_0000_0000 && (FirstOf(v.files[f]) == 0 <==> v.files[f] == [])
  {
    if v.files[f] != [] { FollowIn(v.fat[..], v.geo.total, v.files, f, 0); }
  }

  /** A refused write leaves the entry out of date exactly when the file was empty and a cluster was to be had:
      the chain has begun and nothing on the device names it. */
  method RefusedWrite(n: FileNode, buf: seq<u8>, offset: nat)
    requires n.Valid() && n.Recorded() && offset + |buf| + n.vol.geo.Bpc() < 0x1_0000_0000 && n.vol.geo.Bpc() > 0
    requires Needed(offset, |buf|, n.vol.geo.Bpc()) > |n.vol.files[n.f]| + |FreeClusters(n.vol.fat[..],
      n.vol.geo.total)|
    modifies n`first, n`size, n.vol, n.vol.fat
    ensures n.Valid()
    ensures n.Recorded() <==> old(n.first) != 0 || FreeClusters(old(n.vol.fat[..]), n.vol.geo.total) == {}
  {
    hide Forest, Fits, FatData.Bytes, Written, Needed, WithFile, EntryCluster, EntryLength, Patch;
    ghost var was, first0, size0, s := n.vol.Content(n.g), n.first, n.size, n.vol.files[n.f];
    EmptyChain(n.vol, n.f);
    var ret, done := n.Write(buf, offset, true, true, true);
    EmptyChain(n.vol, n.f);
    RecordedAfter(n, was, first0, size0, false);
    assert s != [] ==> n.vol.files[n.f][0] == s[0];
  }

  /** A write that succeeds, then any read. The file is the old one, extended with zeroes and patched, exactly
      when the gap the write left held no earlier bytes; the entry records it, and what was clean stays clean. */
  method WriteThenReadFile(n: FileNode, buf: seq<u8>, offset: nat, at: nat, m: nat) returns (ret: int, seen: seq<u8>)
    requires n.Valid() && n.Recorded() && buf != []
    requires offset + |buf| + n.vol.geo.Bpc() < 0x1_0000_0000 && at + m + n.vol.geo.Bpc() < 0x1_0000_0000
    modifies n`first, n`size, n.vol, n.vol.fat
    ensures n.Valid() && (ret > 0 || ret == -ENOSPC)
    ensures ret > 0 ==> n.Recorded() && n.size == Max(old(n.size), offset + |buf|)
    ensures ret > 0 ==> seen == if at >= n.size then [] else n.Bytes()[at..][..Min(m, n.size - at)]
    ensures ret > 0 ==>
      (n.Bytes() == Patch(Pad(old(n.Bytes()), n.size), offset, buf)
       <==> GapClean(old(n.vol.Content(n.f)), old(n.size), offset))
    ensures ret > 0 && Clean(old(n.vol.Content(n.f)), old(n.size)) ==> Clean(n.vol.Content(n.f), n.size)
  {
    hide Forest, Fits, FatData.Bytes, Written, Needed, WithFile, EntryCluster, EntryLength, Patch, FreeClusters,
      Clean, GapClean;
    ghost var was, first0, size0, all := n.vol.Content(n.g), n.first, n.size, n.vol.Content(n.f);
    ghost var done;
    ret, done := n.Write(buf, offset, true, true, true);
    seen := [];
    if ret > 0 {
      EmptyChain(n.vol, n.f);
      RecordedAfter(n, was, first0, size0, true);
      GapReadsZero(all, n.vol.Content(n.f), size0, offset, buf);
      if Clean(all, size0) { StaysClean(all, n.vol.Content(n.f), size0, offset, buf); }
      var r;
      r, seen := n.Read(at, m, true);
    }
  }
}
