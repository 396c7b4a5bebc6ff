/** The block driver's request path over the page allocator and a virtqueue. */
module VirtioBlk {
  import opened Machine
  import opened Bitmaps
  import opened PhysicalPages
  import opened DescriptorLists
  import opened Virtqueues

  const SECTOR_SIZE: nat := 512
  const POLL_TIMEOUT: nat := 10_000_000
  const HEADER_SIZE: nat := 16
  const STATUS_OK: u8 := 0

  /** The descriptors as they were, whatever the order of the free list. */
  ghost predicate SameDescriptors(free: seq<u16>, free': seq<u16>) {
    |free'| == |free| && forall i :: i in free' <==> i in free
  }

  /** Gives back the descriptors of an incomplete request. */
  method Undo(q: Descriptors, h: u16, d: u16, s: u16, ghost free: seq<u16>, ghost chains: map<u16, seq<u16>>)
    requires q.Valid() && s == NONE && |free| < 3
    requires h == (if |free| > 0 then free[0] else NONE) && d == (if |free| > 1 then free[1] else NONE)
      && (d != NONE ==> d != h && h != NONE)
    requires q.free == [] && (h != NONE <==> |free| > 0) && (d != NONE <==> |free| > 1)
    requires (h != NONE ==> h !in chains) && (d != NONE ==> d !in chains)
    requires q.chains == if h == NONE then chains
      else if d == NONE then chains[h := [h]] else chains[h := [h]][d := [d]]
    modifies q, q.desc
    ensures q.Valid() && q.chains == chains && SameDescriptors(free, q.free)
  {
    hide Descriptors.Valid;
    ReversedOne(h);
    ReversedOne(d);
    if h != NONE { q.FreeChain(h); }
    assert q.chains == if d == NONE then chains else chains[d := [d]];
    if d != NONE { q.FreeChain(d); }
  }

  /** `blk_build_chain` */
  method BuildChain(q: Descriptors, req: u64, data: u64, bytes: u32, status: u64, dataFlags: u16) returns (head: u16)
    requires q.Valid()
    modifies q, q.desc
    ensures q.Valid() && (head == NONE <==> |old(q.free)| < 3)
    ensures head == NONE ==> q.chains == old(q.chains) && SameDescriptors(old(q.free), q.free)
    ensures head != NONE ==>
      var d, s := old(q.free)[1], old(q.free)[2];
      && head == old(q.free)[0] && head !in old(q.chains) && q.chains == old(q.chains)[head := [head, d, s]]
        && q.free == old(q.free)[3..]
      && head < q.size && d < q.size && s < q.size && q.desc.Length == q.size
      && q.desc[head] == Desc(req, HEADER_SIZE, F_NEXT, d)
      && q.desc[d] == Desc(data, bytes, dataFlags, s)
      && q.desc[s] == Desc(status, 1, F_WRITE, NONE)
  {
    hide Descriptors.Valid;
    ghost var free, chains := q.free, q.chains;
    var h := q.AllocDesc();
    var d := q.AllocDesc();
    var s := q.AllocDesc();
    if h == NONE || d == NONE || s == NONE {
      Undo(q, h, d, s, free, chains);
      return NONE;
    }
    LinkThree(q, h, d, s, req, data, bytes, status, dataFlags, chains);
    return h;
  }

  /** The field writes of `blk_build_chain`. */
  method LinkThree(q: Descriptors, h: u16, d: u16, s: u16, req: u64, data: u64, bytes: u32, status: u64,
                   dataFlags: u16, ghost chains: map<u16, seq<u16>>)
    requires q.Valid() && h != d && h != s && d != s && q.chains == chains[h := [h]][d := [d]][s := [s]]
    requires h !in chains && d !in chains && s !in chains
    modifies q`chains, q`home, q.desc
    ensures q.Valid() && q.chains == chains[h := [h, d, s]] && h < q.size && d < q.size && s < q.size
      && q.desc.Length == q.size
    ensures q.desc[h] == Desc(req, HEADER_SIZE, F_NEXT, d)
    ensures q.desc[d] == Desc(data, bytes, dataFlags, s)
    ensures q.desc[s] == Desc(status, 1, F_WRITE, NONE)
  {
    hide Lists;
    q.Join(h, h, d, req, HEADER_SIZE, F_NEXT);
    assert [h] + [d] == [h, d];
    assert q.chains == chains[h := [h, d]][s := [s]];
    q.Join(h, d, s, data, bytes, dataFlags);
    assert [h, d] + [s] == [h, d, s];
    assert q.chains == chains[h := [h, d, s]];
    q.Finish(h, s, status, 1, F_WRITE);
  }

  /** `free_contiguous_pages` */
  method FreeContiguous(pmm: Pmm, phys: nat, count: nat, ghost before: set<nat>)
    requires pmm.Valid() && phys % PAGE_SIZE == 0 && IsRun(before, phys / PAGE_SIZE, count)
    requires (forall p | p in before :: 0 < p < pmm.totalPages)
      && pmm.free == WithoutRun(before, phys / PAGE_SIZE, count)
    modifies pmm, pmm.bitmap
    ensures pmm.Valid() && pmm.free == before
  {
    hide Pmm.Valid;
    var i := 0;
    while i < count
      invariant 0 <= i <= count && pmm.Valid() && pmm.free == WithoutRun(before, phys / PAGE_SIZE + i, count - i)
    {
      assert (phys + i * PAGE_SIZE) / PAGE_SIZE == phys / PAGE_SIZE + i;
      GiveToRun(before, phys / PAGE_SIZE + i, count - i);
      pmm.FreePage(phys + i * PAGE_SIZE);
      i := i + 1;
    }
  }

  lemma GiveToRun(free: set<nat>, start: nat, count: nat)
    requires count > 0 && start in free
    ensures WithoutRun(free, start, count) + {start} == WithoutRun(free, start + 1, count - 1)
    ensures WithoutRun(free, start, 0) == free
  {
  }

  // ----- the request -----

  /** The 32-bit arithmetic of the transfer size; both steps can wrap. */
  function DataBytes(count: u32): u32 { (count * SECTOR_SIZE) % 0x1_0000_0000 }

  function DataPages(count: u32): nat { (DataBytes(count) + PAGE_SIZE - 1) % 0x1_0000_0000 / PAGE_SIZE }

  /** The data descriptor covers the sectors asked for exactly below 2^23 of them. */
  lemma CoversExactly(count: u32)
    ensures DataBytes(count) == count * SECTOR_SIZE <==> count < 0x80_0000
  {
  }

  /** The pages hold the data descriptor's bytes, or there are none of them and the request is refused. */
  lemma PagesHold(count: u32)
    ensures DataBytes(count) <= DataPages(count) * PAGE_SIZE || DataPages(count) == 0
    ensures DataPages(count) > 0 ==> (DataPages(count) - 1) * PAGE_SIZE < DataBytes(count)
    ensures DataPages(count) == 0 <==> DataBytes(count) == 0 || DataBytes(count) > 0x1_0000_0000 - PAGE_SIZE
  {
    hide DataBytes;
    var n := DataBytes(count) + PAGE_SIZE - 1;
    if n < 0x1_0000_0000 {
      assert n / PAGE_SIZE * PAGE_SIZE > n - PAGE_SIZE;
    }
  }

  /** One sector over 4 GiB passes the size test of a large enough disk and asks for 512 bytes. */
  lemma WrappedRequest(capacity: u64)
    requires capacity >= 0x80_0001
    ensures !PastEnd(0, 0x80_0001, capacity) && DataBytes(0x80_0001) == SECTOR_SIZE && DataPages(0x80_0001) == 1
  {
  }

  /** Some sector of the request lies beyond the disk; the 64-bit sum can wrap. */
  predicate PastEnd(sector: u64, count: u32, capacity: u64) {
    (sector + count) % 0x1_0000_0000_0000_0000 > capacity
  }

  /** Below the wrap the test is exact: the last sector lies at or beyond the capacity. */
  lemma PastEndExactly(sector: u64, count: u32, capacity: u64)
    requires count > 0 && sector + count < 0x1_0000_0000_0000_0000
    ensures PastEnd(sector, count, capacity) <==> sector + count - 1 >= capacity
  {
  }

  /** There is a page for the header and, beside it, a run for the data. */
  ghost predicate PagesFor(free: set<nat>, pages: nat) {
    pages > 0 && exists p, s: nat :: IsLowest(free, p) && IsRun(free - {p}, s, pages)
  }

  ghost predicate IsLowest(free: set<nat>, p: nat) { p in free && forall q | q in free :: p <= q }

  /** Some poll before the timeout sees the device's counter move. */
  ghost predicate Answered(usedAt: nat -> u16, lastUsed: u16) {
    exists i: nat :: i < POLL_TIMEOUT && usedAt(i) != lastUsed
  }

  /** The polling loop; `usedAt(i)` is what the device shows at the i-th look. */
  method Poll(vq: Virtqueue, usedAt: nat -> u16) returns (timeout: nat)
    modifies vq`usedIdx
    ensures timeout != 0 <==> Answered(usedAt, vq.lastUsed)
  {
    timeout := POLL_TIMEOUT;
    var i := 0;
    while true
      invariant timeout + i == POLL_TIMEOUT && timeout > 0
      invariant forall j: nat | j < i :: usedAt(j) == vq.lastUsed
      decreases timeout
    {
      vq.usedIdx := usedAt(i);
      var has := vq.HasUsed();
      if has { return; }
      i := i + 1;
      timeout := timeout - 1;
      if timeout == 0 { return; }
    }
  }

  /** The driver's side of the rings. */
  datatype Rings = Rings(avail: seq<u16>, availIdx: u16, lastUsed: u16)

  ghost function RingsOf(vq: Virtqueue): Rings
    reads vq, vq.avail
  {
    Rings(vq.avail[..], vq.availIdx, vq.lastUsed)
  }

  /** What a request does to the rings: it is offered once, and a used entry is consumed exactly when one was seen. */
  ghost function AfterRequest(r: Rings, free: seq<u16>, usedAt: nat -> u16): Rings
    requires |r.avail| > 0
  {
    if |free| < 3 then r
    else Rings(r.avail[r.availIdx % |r.avail| := free[0]], (r.availIdx + 1) % 0x1_0000,
               if Answered(usedAt, r.lastUsed) then (r.lastUsed + 1) % 0x1_0000 else r.lastUsed)
  }

  function DataFlags(isWrite: bool): u16 { if isWrite then F_NEXT else F_WRITE + F_NEXT }

  /** The three descriptors a request shows the device. */
  datatype Offer = Offer(header: Desc, data: Desc, status: Desc)

  /** By the flag bits of section 2.4.5 of VirtIO 1.0: bit 0 says another descriptor follows, bit 1 that the
      device may write the buffer. */
  predicate Follows(d: Desc) { d.flags % 2 == 1 }
  predicate DeviceWrites(d: Desc) { d.flags / 2 % 2 == 1 }

  /** The device reads the request header, writes one status byte after it, and writes the data buffer exactly
      when the request is a read. */
  predicate OfferedFor(o: Offer, isWrite: bool) {
    && Follows(o.header) && !DeviceWrites(o.header) && o.header.len == 16 && o.header.addr % PAGE_SIZE == 0
    && Follows(o.data) && (DeviceWrites(o.data) <==> !isWrite)
    && !Follows(o.status) && DeviceWrites(o.status) && o.status.len == 1 && o.status.addr == o.header.addr + 16
  }

  lemma OfferIs(o: Offer, req: u64, data: u64, bytes: u32, status: u64, isWrite: bool)
    requires o.header.addr == req && o.header.len == HEADER_SIZE && o.header.flags == F_NEXT
    requires o.data.flags == DataFlags(isWrite) && o.status.addr == status && o.status.len == 1
      && o.status.flags == F_WRITE
    ensures req % PAGE_SIZE == 0 && status == req + HEADER_SIZE ==> OfferedFor(o, isWrite)
  {
  }

  /** The part of `blk_transfer` after the pages are allocated; `offered` is what the device sees. */
  method Exchange(vq: Virtqueue, req: u64, data: u64, bytes: u32, status: u64, isWrite: bool, usedAt: nat -> u16,
                  answer: u8) returns (ret: int, ghost offered: Option<Offer>)
    requires vq.Shape() && vq.descs.Valid()
    modifies vq, vq.avail, vq.descs, vq.descs.desc
    ensures vq.descs.Valid() && vq.descs.chains == old(vq.descs.chains)
      && SameDescriptors(old(vq.descs.free), vq.descs.free)
    ensures ret == 0 || ret == -1
    ensures RingsOf(vq) == AfterRequest(old(RingsOf(vq)), old(vq.descs.free), usedAt)
    ensures ret == 0 <==> |old(vq.descs.free)| >= 3 && Answered(usedAt, old(vq.lastUsed)) && answer == STATUS_OK
    ensures offered.Some? <==> |old(vq.descs.free)| >= 3
    ensures offered.Some? ==>
      var o := offered.value;
      && o.header.addr == req && o.data.addr == data && o.data.len == bytes && o.status.addr == status
      && (req % PAGE_SIZE == 0 && status == req + HEADER_SIZE ==> OfferedFor(o, isWrite))
  {
    hide Descriptors.Valid, Answered, OfferedFor, DataFlags;
    offered := None;
    ghost var free, chains := vq.descs.free, vq.descs.chains;
    var head := BuildChain(vq.descs, req, data, bytes, status, DataFlags(isWrite));
    if head == NONE { return -1, None; }
    ghost var d, s := free[1], free[2];
    ghost var o := Offer(vq.descs.desc[head], vq.descs.desc[d], vq.descs.desc[s]);
    OfferIs(o, req, data, bytes, status, isWrite);
    offered := Some(o);
    vq.Submit(head);
    var timeout := Poll(vq, usedAt);
    if timeout != 0 {
      var used, len := vq.PopUsed();
    }
    vq.descs.FreeChain(head);
    assert chains[head := [head, d, s]] - {head} == chains;
    assert free == [head, d, s] + free[3..];
    ReversedThree(head, d, s);
    if timeout == 0 { return -1, offered; }
    ret := if answer == STATUS_OK then 0 else -1;
  }

  lemma ReversedOne(a: u16)
    ensures Reversed([a]) == [a]
  {
    assert [a][1..] == [];
    assert Reversed([a][1..]) == [];
  }

  lemma ReversedThree(a: u16, b: u16, c: u16)
    ensures Reversed([a, b, c]) == [c, b, a]
  {
    assert [a, b, c][1..] == [b, c] && [b, c][1..] == [c];
    ReversedOne(c);
    assert Reversed([b, c]) == [c] + [b];
  }

  /** The request gets as far as the queue. */
  ghost predicate Reaches(initialized: bool, capacity: u64, sector: u64, count: u32, free: set<nat>) {
    initialized && count > 0 && !PastEnd(sector, count, capacity) && PagesFor(free, DataPages(count))
  }

  /** `blk_transfer`: on every exit the free pages and the free descriptors are those of entry. The data
      descriptor stays within the pages allocated for it, and covers the request exactly below 2^23 sectors. */
  method Transfer(pmm: Pmm, vq: Virtqueue, initialized: bool, capacity: u64, sector: u64, count: u32, isWrite: bool,
                  usedAt: nat -> u16, answer: u8)
    returns (ret: int, ghost offered: Option<Offer>)
    requires pmm.Valid() && vq.Shape() && vq.descs.Valid()
      && (pmm.totalPages + 1) * PAGE_SIZE <= 0x1_0000_0000_0000_0000
    modifies pmm, pmm.bitmap, vq, vq.avail, vq.descs, vq.descs.desc
    ensures pmm.Valid() && pmm.free == old(pmm.free)
    ensures vq.descs.Valid() && vq.descs.chains == old(vq.descs.chains)
      && SameDescriptors(old(vq.descs.free), vq.descs.free)
    ensures ret == 0 || ret == -1
    ensures ret == 0 <==>
      && initialized
      && (count == 0 || (Reaches(initialized, capacity, sector, count, old(pmm.free)) && |old(vq.descs.free)| >= 3
                         && Answered(usedAt, old(vq.lastUsed)) && answer == STATUS_OK))
    ensures RingsOf(vq) == if Reaches(initialized, capacity, sector, count, old(pmm.free))
                           then AfterRequest(old(RingsOf(vq)), old(vq.descs.free), usedAt) else old(RingsOf(vq))
    ensures offered.Some? <==>
      Reaches(initialized, capacity, sector, count, old(pmm.free)) && |old(vq.descs.free)| >= 3
    ensures offered.Some? ==>
      var d := offered.value.data;
      && OfferedFor(offered.value, isWrite)
      && d.addr % PAGE_SIZE == 0 && IsRun(old(pmm.free), d.addr / PAGE_SIZE, DataPages(count))
      && 0 < d.len && (DataPages(count) - 1) * PAGE_SIZE < d.len <= DataPages(count) * PAGE_SIZE
      && (d.len == count * SECTOR_SIZE <==> count < 0x80_0000)
    ensures offered.Some? && sector + count < 0x1_0000_0000_0000_0000 ==> sector + count - 1 < capacity
    ensures count > 0 && sector + count < 0x1_0000_0000_0000_0000 && sector + count - 1 >= capacity ==> ret == -1
  {
    hide Descriptors.Valid, Pmm.Valid, Answered, DataPages, DataBytes, PastEnd, PagesFor, AfterRequest, OfferedFor,
         WithoutRun;
    if !initialized { return -1, None; }
    if count == 0 { return 0, None; }
    if sector + count < 0x1_0000_0000_0000_0000 { PastEndExactly(sector, count, capacity); }
    if PastEnd(sector, count, capacity) { return -1, None; }
    ghost var free := pmm.free;
    PagesBelow(pmm);
    var req := pmm.AllocPage();
    if req == 0 {
      NoPages(free, DataPages(count));
      return -1, None;
    }
    ghost var rest := pmm.free;
    var data := pmm.AllocContiguous(DataPages(count));
    PagesExact(free, req / PAGE_SIZE, DataPages(count));
    if data == 0 {
      pmm.FreePage(req);
      return -1, None;
    }
    Regain(free, req / PAGE_SIZE, data / PAGE_SIZE, DataPages(count));
    assert data == data / PAGE_SIZE * PAGE_SIZE;
    CoversExactly(count);
    PagesHold(count);
    ret, offered := Exchange(vq, req, data, DataBytes(count), req + HEADER_SIZE, isWrite, usedAt, answer);
    pmm.FreePage(req);
    FreeContiguous(pmm, data, DataPages(count), free);
  }

  lemma PagesBelow(pmm: Pmm)
    requires pmm.Valid()
    ensures forall p | p in pmm.free :: 0 < p < pmm.totalPages
  {
  }

  lemma Regain(free: set<nat>, p: nat, start: nat, count: nat)
    requires p in free && IsRun(free - {p}, start, count) && count > 0
    ensures start in free && IsRun(free, start, count)
      && WithoutRun(free - {p}, start, count) + {p} == WithoutRun(free, start, count)
  {
    var rest := free - {p};
    forall q | start <= q < start + count ensures q in free { assert q in rest; }
    assert start in rest;
  }

  lemma NoPages(free: set<nat>, pages: nat)
    requires free == {}
    ensures !PagesFor(free, pages)
  {
  }

  lemma PagesExact(free: set<nat>, p: nat, pages: nat)
    requires IsLowest(free, p)
    ensures PagesFor(free, pages) <==> pages > 0 && exists s: nat :: IsRun(free - {p}, s, pages)
  {
    if PagesFor(free, pages) {
      var q, s: nat :| IsLowest(free, q) && IsRun(free - {q}, s, pages);
      assert q == p;
    }
  }
}
