/** The available and used rings of a split virtqueue, and driver and device passing chains through them. */
module Virtqueues {
  import opened Machine
  import opened DescriptorLists

  datatype UsedElem = UsedElem(id: u32, len: u32)

  class Virtqueue {
    const size: nat
    const descs: Descriptors
    const avail: array<u16>
    var availIdx: u16
    const used: array<UsedElem>
    var usedIdx: u16
    var lastUsed: u16

    ghost predicate Shape() {
      0 < size < 0x1_0000 && avail.Length == size && used.Length == size && descs.size == size
    }

    /** The empty rings of `virtio_init_queue`. */
    constructor (size: nat)
      requires 0 < size < 0x1_0000
      ensures Shape() && this.size == size && fresh(descs) && fresh(descs.desc) && fresh(avail) && fresh(used)
      ensures descs.Valid() && descs.chains == map[] && availIdx == usedIdx == lastUsed == 0
    {
      this.size := size;
      descs := new Descriptors(size);
      avail := new u16[size](_ => 0);
      used := new UsedElem[size](_ => UsedElem(0, 0));
      availIdx, usedIdx, lastUsed := 0, 0, 0;
    }

    /** `virtio_submit` */
    method Submit(head: u16)
      requires Shape()
      modifies this`availIdx, avail
      ensures avail[..] == old(avail[..])[old(availIdx) % size := head] && availIdx == (old(availIdx) + 1) % 0x1_0000
    {
      avail[availIdx % size] := head;
      availIdx := (availIdx + 1) % 0x1_0000;
    }

    /** `virtq_has_used` */
    method HasUsed() returns (b: bool)
      ensures b <==> lastUsed != usedIdx
    {
      b := lastUsed != usedIdx;
    }

    /** `virtq_pop_used` */
    method PopUsed() returns (head: u16, len: u32)
      requires Shape()
      modifies this`lastUsed
      ensures lastUsed == (old(lastUsed) + 1) % 0x1_0000
      ensures head == used[old(lastUsed) % size].id % 0x1_0000 && len == used[old(lastUsed) % size].len
    {
      var e := used[lastUsed % size];
      len := e.len;
      head := e.id % 0x1_0000;
      lastUsed := (lastUsed + 1) % 0x1_0000;
    }
  }
}
