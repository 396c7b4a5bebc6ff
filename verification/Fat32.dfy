/** The FAT32 engine: allocating, extending, freeing, truncating, reading and writing cluster chains. */
module Fat32 {
  import opened Machine
  import opened FatTable
  import opened FatData

  const ENOMEM: int := 12
  const ENOSPC: int := 28

  function LastOf(s: seq<nat>): nat { if s == [] then 0 else s[|s| - 1] }
  function FirstOf(s: seq<nat>): nat { if s == [] then 0 else s[0] }
  /** The cluster at position `j` of a chain, 0 past its end. */
  function At(s: seq<nat>, j: nat): nat { if j < |s| then s[j] else 0 }

  /** No cluster outside `s` changed. */
  ghost predicate OnlyIn(g: Geometry, disk: seq<u8>, disk': seq<u8>, s: seq<nat>) {
    && Fits(g, disk) && Fits(g, disk')
    && forall d :: Data(g, d) && d !in s ==> ClusterAt(g, disk', d) == ClusterAt(g, disk, d)
  }

  class Volume {
    const geo: Geometry
    /** The cached table. */
    const fat: array<u32>
    /** The device, byte by byte. */
    var disk: seq<u8>
    var dirty: bool
    ghost var files: map<nat, seq<nat>>

    ghost predicate Valid()
      reads this, fat
    {
      Forest(fat[..], geo.total, files) && Fits(geo, disk)
    }

    /** A mounted volume whose files are `files`. */
    constructor (geo: Geometry, fat: array<u32>, disk: seq<u8>, ghost files: map<nat, seq<nat>>)
      requires Forest(fat[..], geo.total, files) && Fits(geo, disk)
      ensures Valid() && this.geo == geo && this.fat == fat && this.disk == disk && this.files == files
    {
      this.geo, this.fat, this.disk, this.dirty, this.files := geo, fat, disk, false, files;
    }

    /** `fat32_alloc_cluster`: the lowest free cluster, marked as the end of a chain. */
    method AllocCluster() returns (c: nat)
      requires Sized(fat[..], geo.total)
      modifies fat, this`dirty
      ensures c == 0 <==> FreeClusters(old(fat[..]), geo.total) == {}
      ensures c == 0 ==> fat[..] == old(fat[..])
      ensures c != 0 ==>
        && c in FreeClusters(old(fat[..]), geo.total)
          && (forall d :: d in FreeClusters(old(fat[..]), geo.total) ==> c <= d)
        && fat[..] == Taken(old(fat[..]), c)
    {
      hide Low, High, WithLow;
      c := 0;
      for i := 2 to geo.total + 2
        invariant fat[..] == old(fat[..])
        invariant forall d :: d in FreeClusters(old(fat[..]), geo.total) ==> i <= d
      {
        if Low(fat[i]) == FREE {
          assert i in FreeClusters(old(fat[..]), geo.total);
          fat[i] := WithLow(fat[i], EOC);
          dirty := true;
          return i;
        }
      }
    }

    /** `fat32_extend_chain` on the last cluster of file `f`, or 0 when the file has none. */
    method ExtendChain(last: nat, ghost f: nat) returns (c: nat)
      requires Valid() && f in files && last == LastOf(files[f])
      modifies fat, this`dirty, this`files
      ensures Valid()
      ensures c == 0 <==> FreeClusters(old(fat[..]), geo.total) == {}
      ensures c == 0 ==> fat[..] == old(fat[..]) && files == old(files)
      ensures c != 0 ==>
        && c in FreeClusters(old(fat[..]), geo.total) && files == old(files)[f := old(files)[f] + [c]]
        && FreeClusters(fat[..], geo.total) == FreeClusters(old(fat[..]), geo.total) - {c}
      ensures |FreeClusters(fat[..], geo.total)| + TotalLength(files)
           == |FreeClusters(old(fat[..]), geo.total)| + TotalLength(old(files))
    {
      hide Low, High, WithLow, IsChain, TotalLength;
      ghost var s := files[f];
      c := AllocCluster();
      if c == 0 { return; }
      OneMoreChained(FreeClusters(old(fat[..]), geo.total), files, f, c);
      if s == [] {
        TakenForest(old(fat[..]), geo.total, files, f, c);
        TakenFree(old(fat[..]), geo.total, c);
        assert s + [c] == [c];
      } else {
        ExtendedForest(old(fat[..]), geo.total, files, f, c);
      }
      if last != 0 {
        fat[last] := WithLow(fat[last], c);
        dirty := true;
      }
      files := files[f := s + [c]];
    }

    /** Extend file `f` and zero-fill the new cluster (`fat32_init_cluster`). */
    method AddCluster(last: nat, ghost f: nat) returns (c: nat)
      requires Valid() && f in files && last == LastOf(files[f])
      modifies fat, this`dirty, this`files, this`disk
      ensures Valid()
      ensures c == 0 ==>
        FreeClusters(fat[..], geo.total) == {} && files == old(files) && disk == old(disk) && fat[..] == old(fat[..])
      ensures c != 0 ==>
        && Data(geo, c) && c !in old(files)[f] && c in FreeClusters(old(fat[..]), geo.total)
        && files == old(files)[f := old(files)[f] + [c]]
        && FreeClusters(fat[..], geo.total) == FreeClusters(old(fat[..]), geo.total) - {c}
        && disk == PutCluster(geo, old(disk), c, Zeros(geo.Bpc()))
    {
      hide Low, High, WithLow, ClusterAt, PutCluster, Geometry.Bpc;
      FilesAvoidFree(fat[..], geo.total, files, f);
      c := ExtendChain(last, f);
      if c == 0 { return; }
      disk := PutCluster(geo, disk, c, Zeros(geo.Bpc()));
    }

    /** `fat32_free_chain`, on any table contents: it always ends, and only frees entries. */
    method FreeChain(start: nat)
      requires geo.total + 2 <= fat.Length
      modifies fat, this`dirty
      ensures fat[..] == FreedFrom(old(fat[..]), geo.total, start)
    {
      hide Low, High, WithLow, Next;
      var cluster: nat := start;
      while cluster != 0 && cluster < geo.total + 2
        invariant FreedFrom(fat[..], geo.total, cluster) == FreedFrom(old(fat[..]), geo.total, start)
        decreases |Used(fat[..], geo.total)|, cluster != 0 && cluster < geo.total + 2
      {
        ghost var step := FreeStep(fat[..], geo.total, cluster);
        ghost var before := fat[..];
        var next := Next(fat[..], cluster);
        fat[cluster] := WithLow(fat[cluster], FREE);
        assert fat[..] == Freed(before, cluster);
        dirty := true;
        cluster := next;
      }
    }

    /** The shrinking branch of `fat32_truncate`: walk to cluster `keep`, end the chain there, free the rest. */
    method ShrinkTo(first: nat, keep: nat, ghost f: nat)
      requires Valid() && f in files && first == FirstOf(files[f]) && keep >= 1
      modifies fat, this`dirty, this`files
      ensures Valid()
      ensures keep <= |old(files)[f]| ==>
        && files == old(files)[f := old(files)[f][..keep]]
        && FreeClusters(fat[..], geo.total) == FreeClusters(old(fat[..]), geo.total) + Elems(old(files)[f][keep..])
      ensures keep > |old(files)[f]| ==> files == old(files) && fat[..] == old(fat[..])
    {
      hide Low, High, WithLow, FreedFrom, Next, IsChain, FreeClusters, Forest, Fits;
      ghost var s := files[f];
      if s != [] { FollowIn(fat[..], geo.total, files, f, 0); }
      var cluster := first;
      var i := 1;
      while i < keep && cluster != 0
        invariant 1 <= i <= keep && cluster == At(s, i - 1) && (cluster == 0 ==> keep > |s|)
        invariant files == old(files) && fat[..] == old(fat[..])
      {
        FollowIn(fat[..], geo.total, files, f, i - 1);
        cluster := Next(fat[..], cluster);
        i := i + 1;
      }
      if cluster != 0 {
        FollowIn(fat[..], geo.total, files, f, keep - 1);
        CutForest(fat[..], geo.total, files, f, keep);
        var next := Next(fat[..], cluster);
        fat[cluster] := WithLow(fat[cluster], EOC);
        dirty := true;
        if next != 0 { FreeChain(next); }
        files := files[f := s[..keep]];
      }
    }

    /** `fat32_truncate` on the chain of file `f`. `fileSize` and `size'` are the node's size before and after. */
    method Truncate(first: nat, fileSize: nat, size: nat, ghost f: nat) returns (first': nat, size': nat)
      requires Valid() && f in files && first == FirstOf(files[f]) && size + geo.Bpc() < 0x1_0000_0000
      modifies fat, this`dirty, this`files
      ensures Valid() && f in files && first' == FirstOf(files[f]) && files == old(files)[f := files[f]]
      ensures size == 0 ==> files[f] == [] && size' == 0
      ensures 0 < size < fileSize ==>
        size' == size && geo.Bpc() > 0 && files[f] == Prefix(old(files)[f], ClustersFor(size, geo.Bpc()))
      ensures size > 0 && size >= fileSize ==> files == old(files) && fat[..] == old(fat[..]) && size' == fileSize
      ensures FreeClusters(fat[..], geo.total) + Elems(files[f])
           == FreeClusters(old(fat[..]), geo.total) + Elems(old(files)[f])
      ensures |FreeClusters(fat[..], geo.total)| + TotalLength(files)
           == |FreeClusters(old(fat[..]), geo.total)| + TotalLength(old(files))
    {
      hide FreedFrom, IsChain, FreeClusters, Forest, ClustersFor, TotalLength;
      ghost var s := files[f];
      first', size' := first, fileSize;
      if size == 0 {
        if s != [] { FollowIn(fat[..], geo.total, files, f, 0); }
        if first != 0 {
          FreedForest(fat[..], geo.total, files, f);
          FreeChain(first);
          first' := 0;
          files := files[f := []];
        }
        size' := 0;
      } else if size < fileSize {
        var keep := ClustersFor(size, geo.Bpc());
        if keep <= |s| { CutAt(s, keep); }
        ShrinkTo(first, keep, f);
        size' := size;
      }
      assert files == old(files)[f := files[f]];
      Conserved(old(fat[..]), fat[..], geo.total, old(files), f, files[f]);
    }

    /** The bytes of file `f`, all its clusters end to end. */
    ghost function Content(f: nat): seq<u8>
      reads this, fat
      requires Valid() && f in files
    {
      ForestData(fat[..], geo, files, f);
      Bytes(geo, disk, files[f])
    }

    /** `fat32_read_chain`: the bytes of the file from `offset` on, as many as it has up to `size`. */
    method ReadChain(start: nat, offset: nat, size: nat, haveBuffer: bool, ghost f: nat) returns (r: int, buf: seq<u8>)
      requires Valid() && f in files && start == FirstOf(files[f])
      requires offset + size + geo.Bpc() < 0x1_0000_0000
      ensures !haveBuffer && start != 0 ==> r == -ENOMEM && buf == []
      ensures haveBuffer || start == 0 ==>
        && r == |buf| == Min(size, Max(0, |Content(f)| - offset))
        && (offset <= |Content(f)| ==> buf == Content(f)[offset..offset + |buf|])
      ensures HeldAt(geo, disk, files[f], offset, buf)
    {
      hide ClusterAt, Geometry.Bpc, Forest, Next, Fits, Bytes, AllData, Reading, Span, OnDisk;
      ghost var s, all := files[f], Content(f);
      StartIn(fat[..], geo, files, f);
      BytesSpan(geo, disk, s);
      buf := [];
      if start == 0 { return 0, []; }
      if !haveBuffer { return -ENOMEM, []; }
      var cluster: nat, clusterOffset: nat;
      ghost var j: nat;
      cluster, clusterOffset, j := SkipTo(start, offset, f);
      SpanGrows(geo, j, |s|);
      ReadStart(all, offset, size, clusterOffset, geo.Bpc(), cluster == 0);
      while cluster != 0 && |buf| < size
        invariant Position(geo, s, j, cluster, clusterOffset)
        invariant Reading(all, buf, offset, size, clusterOffset, geo.Bpc(), cluster == 0)
        decreases |s| - j
      {
        AdvanceIn(fat[..], geo, files, f, disk, j, clusterOffset);
        var clusterBuf := ClusterAt(geo, disk, cluster);
        var inOff := if clusterOffset < offset then offset - clusterOffset else 0;
        BpcPositive(geo, disk);
        InOffset(all, buf, offset, size, clusterOffset, geo.Bpc());
        ReadStep(all, buf, clusterBuf, offset, size, clusterOffset, Next(fat[..], cluster) == 0);
        var toCopy := Min(size - |buf|, geo.Bpc() - inOff);
        buf := buf + clusterBuf[inOff..inOff + toCopy];
        clusterOffset := clusterOffset + geo.Bpc();
        cluster := Next(fat[..], cluster);
        j := j + 1;
      }
      ReadDone(all, buf, offset, size, clusterOffset, geo.Bpc(), cluster == 0);
      r := |buf|;
      if buf != [] { HeldHere(this, f, offset, buf); }
    }

    /** The loop that skips whole clusters before `offset`. */
    method SkipTo(start: nat, offset: nat, ghost f: nat) returns (cluster: nat, clusterOffset: nat, ghost j: nat)
      requires Valid() && f in files && start == FirstOf(files[f])
      ensures Position(geo, files[f], j, cluster, clusterOffset)
      ensures clusterOffset <= offset && (cluster != 0 ==> offset < clusterOffset + geo.Bpc())
    {
      hide ClusterAt, Geometry.Bpc, Forest, Next, Fits, Bytes, AllData;
      StartIn(fat[..], geo, files, f);
      cluster, clusterOffset, j := start, 0, 0;
      while cluster != 0 && clusterOffset + geo.Bpc() <= offset
        invariant Position(geo, files[f], j, cluster, clusterOffset) && clusterOffset <= offset
        decreases |files[f]| - j
      {
        AdvanceIn(fat[..], geo, files, f, disk, j, clusterOffset);
        clusterOffset := clusterOffset + geo.Bpc();
        cluster := Next(fat[..], cluster);
        j := j + 1;
      }
    }

    /** Part-way through a write that started from `o`: the chain has only grown at its end, `done` has been
        written at `o.offset` into a zero-extended copy of the old contents, and no other cluster has changed. */
    ghost predicate Writing(f: nat, o: Origin, done: seq<u8>)
      reads this, fat
    {
      && Valid() && Forest(o.fat, geo.total, o.files) && Fits(geo, o.disk) && f in o.files
      && f in files && files == o.files[f := files[f]] && o.files[f] <= files[f]
      && OnlyIn(geo, o.disk, disk, files[f])
      && FreeClusters(fat[..], geo.total) + Elems(files[f]) == FreeClusters(o.fat, geo.total) + Elems(o.files[f])
      && Written(OldContent(geo, o, f), Content(f), o.offset, done)
    }

    /** The file gains a zero-filled cluster in the middle of a write. */
    method GrowFile(last: nat, ghost f: nat, ghost o: Origin, ghost done: seq<u8>) returns (c: nat)
      requires Writing(f, o, done) && last == LastOf(files[f])
      modifies fat, this`dirty, this`files, this`disk
      ensures Writing(f, o, done)
      ensures c == 0 ==> FreeClusters(fat[..], geo.total) == {} && files == old(files)
      ensures c != 0 ==>
        files[f] == old(files)[f] + [c] && Content(f) == old(Content(f)) + Zeros(geo.Bpc()) && Data(geo, c)
    {
      hide FatData.Clusters, ClusterAt, PutCluster, Geometry.Bpc, Forest, Fits, Bytes, Written;
      ghost var disk0, s, all := disk, files[f], Content(f);
      ForestData(fat[..], geo, files, f);
      c := AddCluster(last, f);
      if c == 0 { return; }
      GrownBytes(geo, disk0, s, c);
      GrownElsewhere(geo, o.disk, disk0, s, c);
      WrittenGrows(OldContent(geo, o, f), all, o.offset, done, geo.Bpc());
      assert Elems(s + [c]) == Elems(s) + {c};
    }

    /** Read one cluster of the file, change part of it, write it back. */
    method PutPart(cluster: nat, inOff: nat, chunk: seq<u8>, ghost f: nat, ghost j: nat, ghost o: Origin,
                   ghost done: seq<u8>)
      requires Writing(f, o, done) && j < |files[f]| && cluster == files[f][j] && chunk != []
      requires inOff + |chunk| <= geo.Bpc() && Span(geo, j) + inOff == o.offset + |done|
      modifies this`disk
      ensures Writing(f, o, done + chunk)
    {
      hide ClusterAt, PutCluster, Geometry.Bpc, Fits, Bytes, Written, Patch, Span;
      ghost var s, all := files[f], Content(f);
      ForestData(fat[..], geo, files, f);
      OnceIn(fat[..], geo.total, files, f, j);
      BytesPatched(geo, disk, s, j, inOff, chunk);
      WrittenMore(OldContent(geo, o, f), all, o.offset, done, chunk);
      PatchedElsewhere(geo, o.disk, disk, s, j, Patch(ClusterAt(geo, disk, cluster), inOff, chunk));
      disk := PutCluster(geo, disk, cluster, Patch(ClusterAt(geo, disk, cluster), inOff, chunk));
    }

    /** The first half of `fat32_write_chain`: walk to the cluster holding `offset`, adding clusters as needed. */
    method Reach(first: nat, offset: nat, ghost f: nat, ghost o: Origin)
      returns (first': nat, cluster: nat, clusterOffset: nat, ghost j: nat)
      requires Writing(f, o, []) && first == FirstOf(files[f]) && o.offset == offset && o.files == files
      modifies fat, this`dirty, this`files, this`disk
      ensures Writing(f, o, []) && first' == FirstOf(files[f])
      ensures cluster == 0 ==> FreeClusters(fat[..], geo.total) == {} && Span(geo, |files[f]|) <= offset
      ensures cluster != 0 ==>
        Position(geo, files[f], j, cluster, clusterOffset) && clusterOffset <= offset < clusterOffset + geo.Bpc()
      ensures NoLonger(geo, o.files[f], files[f], offset)
    {
      hide ClusterAt, Geometry.Bpc, Fits, Bytes, Written, Forest, FreeClusters, AllData, OnlyIn, Next, Span;
      var prev := 0;
      cluster, clusterOffset, j, first' := first, 0, 0, first;
      SpanZero(geo);
      StartIn(fat[..], geo, files, f);
      BpcPositive(geo, disk);
      if cluster == 0 {
        cluster := GrowFile(0, f, o, []);
        if cluster == 0 { return; }
        first' := cluster;
        StartIn(fat[..], geo, files, f);
      }
      while cluster != 0 && clusterOffset + geo.Bpc() <= offset
        invariant Writing(f, o, []) && Position(geo, files[f], j, cluster, clusterOffset) && clusterOffset <= offset
        invariant files[f] != [] && first' == files[f][0] && prev == (if j > 0 then files[f][j - 1] else 0)
        invariant cluster == 0 ==> offset < clusterOffset + geo.Bpc()
        invariant NoLonger(geo, o.files[f], files[f], offset)
        decreases offset - clusterOffset
      {
        AdvanceIn(fat[..], geo, files, f, disk, j, clusterOffset);
        prev := cluster;
        clusterOffset := clusterOffset + geo.Bpc();
        cluster := Next(fat[..], cluster);
        j := j + 1;
        if cluster == 0 && clusterOffset + geo.Bpc() <= offset {
          cluster := GrowFile(prev, f, o, []);
          if cluster == 0 { return; }
        }
      }
      if cluster == 0 {
        cluster := GrowFile(prev, f, o, []);
      }
    }

    /** Step to the next cluster, extending the chain when there is `more` to write. */
    method Advance(cluster: nat, clusterOffset: nat, more: bool, ghost f: nat, ghost j: nat, ghost o: Origin,
                   ghost done: seq<u8>, ghost upTo: nat) returns (next: nat)
      requires Writing(f, o, done) && cluster != 0 && Position(geo, files[f], j, cluster, clusterOffset)
      requires NoLonger(geo, o.files[f], files[f], upTo) && (more ==> clusterOffset + geo.Bpc() <= upTo)
      modifies fat, this`dirty, this`files, this`disk
      ensures Writing(f, o, done) && old(files)[f] <= files[f] && NoLonger(geo, o.files[f], files[f], upTo)
      ensures Span(geo, |old(files)[f]|) <= Span(geo, |files[f]|)
      ensures next == 0 && more ==>
        FreeClusters(fat[..], geo.total) == {} && Span(geo, |files[f]|) == clusterOffset + geo.Bpc()
      ensures !(next == 0 && more) ==> Position(geo, files[f], j + 1, next, clusterOffset + geo.Bpc())
    {
      hide ClusterAt, Geometry.Bpc, Fits, Bytes, Written, Forest, FreeClusters, AllData, OnlyIn, Next, Span;
      AdvanceIn(fat[..], geo, files, f, disk, j, clusterOffset);
      next := Next(fat[..], cluster);
      if next == 0 && more {
        ghost var n := |files[f]|;
        next := GrowFile(cluster, f, o, done);
        SpanGrows(geo, n, |files[f]|);
      }
    }

    /** The data loop of `fat32_write_chain`, from the cluster holding `offset`. */
    method WriteData(start: nat, startOffset: nat, buf: seq<u8>, offset: nat, ghost f: nat, ghost j0: nat,
                     ghost o: Origin)
      returns (r: int, ghost done: seq<u8>)
      requires Writing(f, o, []) && start != 0 && Position(geo, files[f], j0, start, startOffset)
      requires o.offset == offset && startOffset <= offset < startOffset + geo.Bpc()
      requires NoLonger(geo, o.files[f], files[f], Max(o.offset, o.offset + |buf| - 1))
      modifies fat, this`dirty, this`files, this`disk
      ensures Writing(f, o, done) && files[f] != [] && old(files)[f] != [] && files[f][0] == old(files)[f][0]
      ensures r >= 0 ==> r == |buf| && done == buf && o.offset < |Content(f)|
      ensures r < 0 ==> r == -ENOSPC && done <= buf && FreeClusters(fat[..], geo.total) == {}
      ensures r < 0 ==> done != buf && Span(geo, |files[f]|) == o.offset + |done|
      ensures NoLonger(geo, o.files[f], files[f], Max(o.offset, o.offset + |buf| - 1))
    {
      hide ClusterAt, Geometry.Bpc, Fits, Bytes, Written, Forest, FreeClusters, AllData, OnlyIn, Next, Span;
      var written := 0;
      var cluster: nat, clusterOffset: nat := start, startOffset;
      ghost var j := j0;
      AdvanceIn(fat[..], geo, files, f, disk, j, clusterOffset);
      BytesSpan(geo, disk, files[f]);
      done := [];
      while cluster != 0 && written < |buf|
        invariant written <= |buf| && done == buf[..written] && Writing(f, o, done)
        invariant Position(geo, files[f], j, cluster, clusterOffset) && old(files)[f] <= files[f]
          && offset < Span(geo, |files[f]|)
        invariant InStep(offset, written, |buf|, clusterOffset, geo.Bpc())
        invariant cluster == 0 ==> written == |buf|
        invariant NoLonger(geo, o.files[f], files[f], Max(offset, offset + |buf| - 1))
        decreases |buf| - written
      {
        AdvanceIn(fat[..], geo, files, f, disk, j, clusterOffset);
        var inOff := if clusterOffset < offset then offset - clusterOffset else 0;
        var toCopy := Min(|buf| - written, geo.Bpc() - inOff);
        PutPart(cluster, inOff, buf[written..written + toCopy], f, j, o, done);
        assert buf[..written] + buf[written..written + toCopy] == buf[..written + toCopy];
        written := written + toCopy;
        done := buf[..written];
        cluster := Advance(cluster, clusterOffset, written < |buf|, f, j, o, done, Max(offset, offset + |buf| - 1));
        if cluster == 0 && written < |buf| { return -ENOSPC, done; }
        clusterOffset := clusterOffset + geo.Bpc();
        j := j + 1;
      }
      r := written;
      ForestData(fat[..], geo, files, f);
      BytesSpan(geo, disk, files[f]);
    }

    /** `fat32_write_chain`. `done` is how much of `buf` reached the file. */
    method WriteChain(first: nat, offset: nat, buf: seq<u8>, haveBuffer: bool, ghost f: nat)
      returns (r: int, first': nat, ghost done: seq<u8>)
      requires Valid() && f in files && first == FirstOf(files[f])
      requires offset + |buf| + geo.Bpc() < 0x1_0000_0000
      modifies fat, this`dirty, this`files, this`disk
      ensures Writing(f, Origin(old(fat[..]), old(disk), old(files), offset), done) && first' == FirstOf(files[f])
      ensures !haveBuffer ==>
        r == -ENOMEM && done == [] && files == old(files) && disk == old(disk) && fat[..] == old(fat[..])
      ensures haveBuffer && r >= 0 ==> r == |buf| && done == buf && offset < |Content(f)|
      ensures haveBuffer && r < 0 ==> r == -ENOSPC && done <= buf && FreeClusters(fat[..], geo.total) == {}
      ensures haveBuffer && r < 0 ==> |done| == Max(0, |Content(f)| - offset)
      ensures HeldAt(geo, disk, files[f], offset, done)
      ensures haveBuffer ==>
        && geo.Bpc() > 0
        && var needed, had := Needed(offset, |buf|, geo.Bpc()), |old(files)[f]|;
           var free := |FreeClusters(old(fat[..]), geo.total)|;
           (r >= 0 <==> needed <= had + free) && |files[f]| == if r >= 0 then Max(had, needed) else had + free
      ensures NoLonger(geo, old(files)[f], files[f], Max(offset, offset + |buf| - 1))
      ensures |FreeClusters(fat[..], geo.total)| + TotalLength(files)
           == |FreeClusters(old(fat[..]), geo.total)| + TotalLength(old(files))
    {
      hide ClusterAt, Geometry.Bpc, Fits, Bytes, Written, Forest, FreeClusters, OnlyIn, Next, Span, TotalLength, OnDisk;
      ghost var o := Origin(fat[..], disk, files, offset);
      NothingYet(this, f, o);
      first' := first;
      if !haveBuffer { return -ENOMEM, first, []; }
      var cluster: nat, clusterOffset: nat;
      ghost var j: nat;
      first', cluster, clusterOffset, j := Reach(first, offset, f, o);
      if cluster == 0 {
        r, done := -ENOSPC, [];
      } else {
        r, done := WriteData(cluster, clusterOffset, buf, offset, f, j, o);
      }
      Conserved(o.fat, fat[..], geo.total, o.files, f, files[f]);
      assert Sized(o.fat, geo.total) by { ForestSized(o.fat, geo.total, o.files); }
      ContentLength(this, f);
      if r >= 0 { ReachesEnd(OldContent(geo, o, f), Content(f), offset, buf); }
      if done != [] {
        WrittenPart(OldContent(geo, o, f), Content(f), offset, done);
        HeldHere(this, f, offset, done);
      }
      ExactRoom(geo, |FreeClusters(o.fat, geo.total)|, |FreeClusters(fat[..], geo.total)|, o.files[f], files[f],
                offset, |buf|, r >= 0);
    }
  }

  /** The chain is as it was, or its last cluster starts no later than `upTo`. */
  ghost predicate NoLonger(g: Geometry, s0: seq<nat>, s: seq<nat>, upTo: nat) {
    s == s0 || (s != [] && Span(g, |s| - 1) <= upTo)
  }

  lemma ForestSized(fat: seq<u32>, total: nat, files: map<nat, seq<nat>>)
    requires Forest(fat, total, files)
    ensures Sized(fat, total)
  {
  }

  lemma ContentLength(v: Volume, f: nat)
    requires v.Valid() && f in v.files
    ensures v.geo.Bpc() > 0 && |v.Content(f)| == Span(v.geo, |v.files[f]|)
  {
    hide ClusterAt, Bytes, Forest, Span;
    ForestData(v.fat[..], v.geo, v.files, f);
    BytesSpan(v.geo, v.disk, v.files[f]);
    BpcPositive(v.geo, v.disk);
  }

  /** These bytes lie at `offset` of the file with chain `s`, on the device. */
  ghost predicate HeldAt(g: Geometry, disk: seq<u8>, s: seq<nat>, offset: nat, buf: seq<u8>) {
    forall k :: 0 <= k < |buf| ==> OnDisk(g, disk, s, offset + k, buf[k])
  }

  lemma HeldHere(v: Volume, f: nat, offset: nat, buf: seq<u8>)
    requires v.Valid() && f in v.files && offset + |buf| <= |v.Content(f)|
    requires buf == v.Content(f)[offset..offset + |buf|]
    ensures HeldAt(v.geo, v.disk, v.files[f], offset, buf)
  {
    hide Bytes, Fits, Forest, OnDisk;
    ForestData(v.fat[..], v.geo, v.files, f);
    forall k | 0 <= k < |buf| ensures OnDisk(v.geo, v.disk, v.files[f], offset + k, buf[k]) {
      FileByte(v.geo, v.disk, v.files[f], offset + k);
    }
  }

  lemma WrittenPart(before: seq<u8>, now: seq<u8>, offset: nat, done: seq<u8>)
    requires Written(before, now, offset, done) && done != []
    ensures offset + |done| <= |now| && done == now[offset..offset + |done|]
  {
  }

  lemma ReachesEnd(before: seq<u8>, now: seq<u8>, offset: nat, buf: seq<u8>)
    requires Written(before, now, offset, buf)
    ensures buf != [] ==> offset + |buf| <= |now|
  {
  }

  /** The clusters a file must have to hold `size` bytes at `offset`; the one at `offset` even for none. */
  function Needed(offset: nat, size: nat, bpc: nat): (n: nat)
    requires bpc > 0
    ensures (n - 1) * bpc <= Max(offset, offset + size - 1) < n * bpc
  {
    Reaches(Max(offset, offset + size - 1), bpc, Max(offset, offset + size - 1) / bpc);
    Reaches(Max(offset, offset + size - 1), bpc, Max(offset, offset + size - 1) / bpc + 1);
    Max(offset, offset + size - 1) / bpc + 1
  }

  /** `n` clusters reach past byte `last` exactly when there are enough. */
  lemma SpanReaches(g: Geometry, n: nat, last: nat)
    requires g.Bpc() > 0
    ensures last < Span(g, n) <==> last / g.Bpc() + 1 <= n
  {
    hide Span, Geometry.Bpc;
    SpanTimes(g, n);
    Reaches(last, g.Bpc(), n);
  }

  /** What is spent and what is reached decide whether there was room. */
  lemma ExactRoom(g: Geometry, free: nat, free': nat, s0: seq<nat>, s: seq<nat>, offset: nat, size: nat, ok: bool)
    requires g.Bpc() > 0 && free' + |s| == free + |s0| && s0 <= s
    requires NoLonger(g, s0, s, Max(offset, offset + size - 1))
    requires ok ==> Max(offset, offset + size - 1) < Span(g, |s|)
    requires !ok ==> free' == 0 && Span(g, |s|) <= Max(offset, offset + size - 1)
    ensures var needed := Needed(offset, size, g.Bpc());
      (ok <==> needed <= |s0| + free) && |s| == if ok then Max(|s0|, needed) else |s0| + free
  {
    hide Span, Geometry.Bpc;
    var last := Max(offset, offset + size - 1);
    SpanReaches(g, |s|, last);
    if s != s0 { SpanReaches(g, |s| - 1, last); }
  }

  ghost predicate InStep(offset: nat, written: nat, size: nat, off: nat, bpc: nat) {
    written == size || off == offset + written || (written == 0 && off <= offset < off + bpc)
  }

  lemma SpanZero(g: Geometry)
    ensures Span(g, 0) == 0
  {
  }

  lemma NothingYet(v: Volume, f: nat, o: Origin)
    requires v.Valid() && f in v.files && o == Origin(v.fat[..], v.disk, v.files, o.offset)
    ensures v.Writing(f, o, [])
  {
    assert v.files == v.files[f := v.files[f]];
    assert v.Content(f) + Zeros(0) == v.Content(f);
  }

  lemma OnceIn(fat: seq<u32>, total: nat, files: map<nat, seq<nat>>, f: nat, j: nat)
    requires Forest(fat, total, files) && f in files && j < |files[f]|
    ensures forall i :: 0 <= i < |files[f]| && i != j ==> files[f][i] != files[f][j]
  {
    assert IsChain(fat, total, files[f]);
  }

  lemma PatchedElsewhere(g: Geometry, disk0: seq<u8>, disk: seq<u8>, s: seq<nat>, j: nat, x: seq<u8>)
    requires OnlyIn(g, disk0, disk, s) && j < |s| && Data(g, s[j]) && |x| == g.Bpc()
    ensures OnlyIn(g, disk0, PutCluster(g, disk, s[j], x), s)
  {
    hide ClusterAt, PutCluster, Geometry.Bpc;
    forall d | Data(g, d) && d !in s ensures ClusterAt(g, PutCluster(g, disk, s[j], x), d) == ClusterAt(g, disk0, d) {
      PutGet(g, disk, s[j], x, d);
    }
  }

  /** Where a write started. */
  datatype Origin = Origin(fat: seq<u32>, disk: seq<u8>, files: map<nat, seq<nat>>, offset: nat)

  ghost function OldContent(g: Geometry, o: Origin, f: nat): seq<u8>
    requires Forest(o.fat, g.total, o.files) && Fits(g, o.disk) && f in o.files
  {
    ForestData(o.fat, g, o.files, f);
    Bytes(g, o.disk, o.files[f])
  }

  /** `now` is `before`, zero-extended, with `done` written at `offset`. */
  ghost predicate Written(before: seq<u8>, now: seq<u8>, offset: nat, done: seq<u8>) {
    && |before| <= |now|
    && (done == [] ==> now == Pad(before, |now|))
    && (done != [] ==> offset + |done| <= |now| && now == Patch(Pad(before, |now|), offset, done))
  }

  lemma GrownBytes(g: Geometry, disk: seq<u8>, s: seq<nat>, c: nat)
    requires Fits(g, disk) && AllData(g, s) && Data(g, c) && c !in s
    ensures var disk' := PutCluster(g, disk, c, Zeros(g.Bpc()));
      Fits(g, disk') && AllData(g, s + [c]) && Bytes(g, disk', s + [c]) == Bytes(g, disk, s) + Zeros(g.Bpc())
  {
    hide ClusterAt, PutCluster, Geometry.Bpc, Bytes;
    var disk' := PutCluster(g, disk, c, Zeros(g.Bpc()));
    PutGet(g, disk, c, Zeros(g.Bpc()), c);
    forall i | 0 <= i < |s| ensures ClusterAt(g, disk', s[i]) == ClusterAt(g, disk, s[i]) {
      PutGet(g, disk, c, Zeros(g.Bpc()), s[i]);
    }
    BytesKept(g, disk, disk', s);
    BytesExtended(g, disk', s, c);
  }

  lemma GrownElsewhere(g: Geometry, disk0: seq<u8>, disk: seq<u8>, s: seq<nat>, c: nat)
    requires OnlyIn(g, disk0, disk, s) && Data(g, c)
    ensures OnlyIn(g, disk0, PutCluster(g, disk, c, Zeros(g.Bpc())), s + [c])
  {
    hide ClusterAt, PutCluster, Geometry.Bpc;
    var disk' := PutCluster(g, disk, c, Zeros(g.Bpc()));
    forall d | Data(g, d) && d !in s + [c] ensures ClusterAt(g, disk', d) == ClusterAt(g, disk0, d) {
      PutGet(g, disk, c, Zeros(g.Bpc()), d);
    }
  }

  lemma WrittenGrows(before: seq<u8>, now: seq<u8>, offset: nat, done: seq<u8>, n: nat)
    requires Written(before, now, offset, done)
    ensures Written(before, now + Zeros(n), offset, done)
  {
    PadMore(before, |now|, n);
    if done != [] { PatchPadded(Pad(before, |now|), offset, done, n); }
  }

  lemma WrittenMore(before: seq<u8>, now: seq<u8>, offset: nat, done: seq<u8>, more: seq<u8>)
    requires Written(before, now, offset, done) && offset + |done| + |more| <= |now| && more != []
    ensures Written(before, Patch(now, offset + |done|, more), offset, done + more)
  {
    if done == [] {
      assert done + more == more;
    } else {
      PatchTwice(Pad(before, |now|), offset, done, more);
    }
  }

  /** A walk along chain `s` stands at its position `j`, `off` bytes from the start. */
  ghost predicate Position(g: Geometry, s: seq<nat>, j: nat, cluster: nat, off: nat) {
    && j <= |s| && cluster == At(s, j) && (cluster == 0 <==> j == |s|) && off == Span(g, j)
  }

  lemma ForestData(fat: seq<u32>, g: Geometry, files: map<nat, seq<nat>>, f: nat)
    requires Forest(fat, g.total, files) && f in files
    ensures AllData(g, files[f])
  {
    InRangeAll(fat, g.total, files[f]);
  }

  lemma StartIn(fat: seq<u32>, g: Geometry, files: map<nat, seq<nat>>, f: nat)
    requires Forest(fat, g.total, files) && f in files
    ensures AllData(g, files[f]) && Position(g, files[f], 0, FirstOf(files[f]), 0)
  {
    ForestData(fat, g, files, f);
    assert files[f] != [] ==> Data(g, files[f][0]);
  }

  lemma AdvanceIn(fat: seq<u32>, g: Geometry, files: map<nat, seq<nat>>, f: nat, disk: seq<u8>, j: nat, off: nat)
    requires Forest(fat, g.total, files) && f in files && Fits(g, disk) && j < |files[f]|
    requires Position(g, files[f], j, files[f][j], off)
    ensures g.total + 2 <= |fat| && Data(g, files[f][j]) && AllData(g, files[f])
    ensures Position(g, files[f], j + 1, Next(fat, files[f][j]), off + g.Bpc())
    ensures off + g.Bpc() <= |Bytes(g, disk, files[f])|
    ensures Bytes(g, disk, files[f])[off..off + g.Bpc()] == ClusterAt(g, disk, files[f][j])
  {
    hide ClusterAt, Next, Bytes, Geometry.Bpc;
    FollowIn(fat, g.total, files, f, j);
    ForestData(fat, g, files, f);
    ClusterInBytes(g, disk, files[f], j);
  }

  /** Part-way through a read: `buf` holds what the walk has passed of `all` from `offset` on. */
  ghost predicate Reading(all: seq<u8>, buf: seq<u8>, offset: nat, size: nat, off: nat, bpc: nat, atEnd: bool) {
    && |buf| <= size && off <= |all| && (atEnd ==> off == |all|)
    && (|buf| == size || off == offset + |buf| || (buf == [] && off <= offset && (!atEnd ==> offset < off + bpc)))
    && (buf != [] ==> offset + |buf| <= |all| && buf == all[offset..offset + |buf|])
  }

  lemma ReadStart(all: seq<u8>, offset: nat, size: nat, off: nat, bpc: nat, atEnd: bool)
    requires off <= offset && off <= |all| && (atEnd ==> off == |all|) && (!atEnd ==> offset < off + bpc)
    ensures Reading(all, [], offset, size, off, bpc, atEnd)
  {
  }

  lemma InOffset(all: seq<u8>, buf: seq<u8>, offset: nat, size: nat, off: nat, bpc: nat)
    requires Reading(all, buf, offset, size, off, bpc, false) && |buf| < size && bpc > 0
    ensures off < offset ==> offset - off < bpc
  {
  }

  lemma BpcPositive(g: Geometry, disk: seq<u8>)
    requires Fits(g, disk)
    ensures g.Bpc() > 0
  {
  }

  lemma ReadDone(all: seq<u8>, buf: seq<u8>, offset: nat, size: nat, off: nat, bpc: nat, atEnd: bool)
    requires Reading(all, buf, offset, size, off, bpc, atEnd) && (atEnd || |buf| >= size)
    ensures |buf| == Min(size, Max(0, |all| - offset))
    ensures offset <= |all| ==> buf == all[offset..offset + |buf|]
  {
  }

  lemma ReadStep(all: seq<u8>, buf: seq<u8>, part: seq<u8>, offset: nat, size: nat, off: nat, atEnd: bool)
    requires Reading(all, buf, offset, size, off, |part|, false) && |buf| < size && (atEnd ==> off + |part| == |all|)
    requires off + |part| <= |all| && all[off..off + |part|] == part && |part| > 0
    ensures var inOff := if off < offset then offset - off else 0;
      && inOff < |part|
      && var n := Min(size - |buf|, |part| - inOff);
        Reading(all, buf + part[inOff..inOff + n], offset, size, off + |part|, |part|, atEnd)
  {
    var inOff := if off < offset then offset - off else 0;
    var n := Min(size - |buf|, |part| - inOff);
    SliceOf(all, part, off, inOff, n);
    assert off + inOff == offset + |buf|;
    if buf != [] {
      assert all[offset..offset + |buf|] + all[offset + |buf|..offset + |buf| + n] == all[offset..offset + |buf| + n];
    } else {
      assert buf + part[inOff..inOff + n] == part[inOff..inOff + n];
    }
  }

  lemma SliceOf(all: seq<u8>, part: seq<u8>, off: nat, k: nat, n: nat)
    requires off + |part| <= |all| && all[off..off + |part|] == part && k + n <= |part|
    ensures part[k..k + n] == all[off + k..off + k + n]
  {
    var x, y := part[k..k + n], all[off + k..off + k + n];
    forall i | 0 <= i < n ensures x[i] == y[i] { assert part[k + i] == all[off..off + |part|][k + i]; }
  }

  /** The clusters it takes to hold `size` bytes. */
  function ClustersFor(size: nat, bpc: nat): (n: nat)
    requires size > 0 && bpc > 0
    ensures n >= 1 && (n - 1) * bpc < size <= n * bpc
  {
    CeilingIs(size, bpc);
    (size + bpc - 1) / bpc
  }

  lemma CeilingIs(size: nat, bpc: nat)
    requires size > 0 && bpc > 0
    ensures var n := (size + bpc - 1) / bpc; n >= 1 && (n - 1) * bpc < size <= n * bpc
  {
    var n, r := (size + bpc - 1) / bpc, (size + bpc - 1) % bpc;
    assert size + bpc - 1 == n * bpc + r;
    assert (n - 1) * bpc == n * bpc - bpc;
  }

  function Prefix(s: seq<nat>, n: nat): seq<nat> { if n <= |s| then s[..n] else s }

  lemma FollowIn(fat: seq<u32>, total: nat, files: map<nat, seq<nat>>, f: nat, j: nat)
    requires Forest(fat, total, files) && f in files && j < |files[f]|
    ensures Sized(fat, total) && 2 <= files[f][j] < total + 2
    ensures Next(fat, files[f][j]) == At(files[f], j + 1) && At(files[f], j) == files[f][j]
    ensures At(files[f], j + 1) == 0 <==> j + 1 == |files[f]|
  {
    FollowLink(fat, total, files[f], j);
    InRangeAll(fat, total, files[f]);
  }

  lemma CutAt(s: seq<nat>, keep: nat)
    requires 0 < keep <= |s|
    ensures Elems(s) == Elems(s[..keep]) + Elems(s[keep..]) && FirstOf(s[..keep]) == FirstOf(s)
      && At(s, keep - 1) == s[keep - 1]
  {
    assert s == s[..keep] + s[keep..];
  }

  /** Following a link moves one position along the chain. */
  lemma FollowLink(fat: seq<u32>, total: nat, s: seq<nat>, j: nat)
    requires Sized(fat, total) && IsChain(fat, total, s) && j < |s|
    ensures 2 <= s[j] < total + 2 && Next(fat, s[j]) == At(s, j + 1) && At(s, j) == s[j]
  {
    assert j + 1 < |s| ==> InRange(s[j + 1], total);
  }

  lemma FilesAvoidFree(fat: seq<u32>, total: nat, files: map<nat, seq<nat>>, f: nat)
    requires Forest(fat, total, files) && f in files
    ensures forall c :: c in FreeClusters(fat, total) ==> c !in files[f]
  {
    forall c | c in FreeClusters(fat, total) ensures c !in files[f] { FreeIsUnowned(fat, total, files[f], c); }
  }

  /** A write leaves the contents of every other file as they were. */
  lemma OthersKept(v: Volume, f: nat, o: Origin, done: seq<u8>, g: nat)
    requires v.Writing(f, o, done) && g in o.files && g != f
    ensures g in v.files && v.files[g] == o.files[g] && v.Content(g) == OldContent(v.geo, o, g)
  {
    hide ClusterAt, Bytes, Written, FreeClusters, IsChain;
    ForestData(v.fat[..], v.geo, v.files, g);
    assert Disjoint(v.files[f], v.files[g]);
    BytesKept(v.geo, o.disk, v.disk, v.files[g]);
  }

  /** Writing and then reading any window of the file sees one byte array, updated: the written range as
      given, the bytes it had elsewhere unchanged, newly covered bytes zero. */
  method WriteThenRead(v: Volume, first: nat, offset: nat, buf: seq<u8>, readOffset: nat, n: nat, ghost f: nat)
    returns (r: int, seen: seq<u8>, ghost before: seq<u8>, ghost now: seq<u8>)
    requires v.Valid() && f in v.files && first == FirstOf(v.files[f])
    requires offset + |buf| + v.geo.Bpc() < 0x1_0000_0000 && readOffset + n + v.geo.Bpc() < 0x1_0000_0000
    modifies v, v.fat
    ensures v.Valid() && f in v.files && before == old(v.Content(f)) && now == v.Content(f)
    ensures
      && v.geo.Bpc() > 0
      && var had, free := |old(v.files)[f]|, |FreeClusters(old(v.fat[..]), v.geo.total)|;
         r >= 0 <==> Needed(offset, |buf|, v.geo.Bpc()) <= had + free
    ensures r >= 0 ==>
      && Written(before, now, offset, buf) && offset < |now|
      && |seen| == Min(n, Max(0, |now| - readOffset))
      && (readOffset <= |now| ==> seen == now[readOffset..readOffset + |seen|])
  {
    hide ClusterAt, Geometry.Bpc, Fits, Bytes, Written, Forest, FreeClusters, OnlyIn, Next, Span;
    before := v.Content(f);
    var first';
    ghost var done;
    r, first', done := v.WriteChain(first, offset, buf, true, f);
    now := v.Content(f);
    seen := [];
    if r >= 0 {
      var k;
      k, seen := v.ReadChain(first', readOffset, n, true, f);
    }
  }
}
