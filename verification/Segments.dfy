/** TCP segments and IPv4 packets as the network stack builds and checks them. */
module Segments {
  import opened Machine
  import opened Checksums

  const TCP_HEADER_SIZE: nat := 20
  const IPV4_HEADER_SIZE: nat := 20
  const PROTO_TCP: u8 := 6
  const TTL: u8 := 64
  const RXBUF_SIZE: u16 := 8192
  const ETH_MTU: nat := 1500

  // How a field sits in memory: written by the machine, or in network order.

  function Raw16(x: u16): seq<u8> { [x % 256, x / 256] }
  function Net16(x: u16): seq<u8> { [x / 256, x % 256] }
  function Raw32(x: u32): seq<u8> { [x % 256, x / 256 % 256, x / 0x1_0000 % 256, x / 0x100_0000] }
  function Net32(x: u32): seq<u8> { [x / 0x100_0000, x / 0x1_0000 % 256, x / 256 % 256, x % 256] }

  /** The pseudo-header of section 3.1 of RFC 9293; addresses are held in network order. */
  function Pseudo(src: u32, dst: u32, len: nat): seq<u8> {
    Raw32(src) + Raw32(dst) + [0, PROTO_TCP] + Net16(len % 0x1_0000)
  }

  function TcpSum(src: u32, dst: u32, seg: seq<u8>): u16 {
    0xFFFF - Fold(SumLE(Pseudo(src, dst, |seg|)) + SumLE(seg))
  }

  /** The little-endian checksum is the byte swap of the big-endian one over pseudo-header and segment. */
  lemma Equivalent(src: u32, dst: u32, seg: seq<u8>)
    ensures TcpSum(src, dst, seg) == Swap(NetSum(Pseudo(src, dst, |seg|) + seg))
  {
    hide SumLE, SumBE, Fold;
    var all := Pseudo(src, dst, |seg|) + seg;
    SumConcat(Pseudo(src, dst, |seg|), seg);
    SumsSwap(all);
    SwapResidue(Fold(SumBE(all)));
  }

  /** `tcp_checksum` */
  method TcpChecksum(src: u32, dst: u32, seg: seq<u8>) returns (c: u16)
    requires |seg| <= 65515
    ensures c == TcpSum(src, dst, seg)
  {
    hide SumLE, Fold;
    var pseudo := Pseudo(src, dst, |seg|);
    var sum := AddWords(0, pseudo);
    SumFits(pseudo);
    sum := AddWords(sum, seg);
    SumConcat(pseudo, seg);
    SumFits(pseudo + seg);
    var folded := FoldCarries(sum);
    c := 0xFFFF - folded;
  }

  /** A segment whose checksum field held zero and now holds the checksum verifies. */
  lemma StoredVerifies(src: u32, dst: u32, seg: seq<u8>, k: nat)
    requires k % 2 == 0 && k + 1 < |seg| && seg[k] == seg[k + 1] == 0
    ensures var c := TcpSum(src, dst, seg);
      TcpSum(src, dst, seg[k := c % 256][k + 1 := c / 256]) == 0
  {
    hide SumLE, Fold, Pseudo;
    var c := TcpSum(src, dst, seg);
    StoreSum(seg, k, c);
    Completes(SumLE(Pseudo(src, dst, |seg|)) + SumLE(seg));
  }

  lemma NetStoredVerifies(s: seq<u8>, k: nat)
    requires k % 2 == 0 && k + 1 < |s| && s[k] == s[k + 1] == 0
    ensures var c := NetSum(s);
      NetSum(s[k := c / 256][k + 1 := c % 256]) == 0
  {
    hide SumBE, Fold;
    StoreSum(s, k, NetSum(s));
    Completes(SumBE(s));
  }

  /** What `tcp_rx` passes on to the socket layer. */
  predicate TcpAccepts(src: u32, dst: u32, data: seq<u8>) {
    |data| >= TCP_HEADER_SIZE && TCP_HEADER_SIZE <= data[12] / 16 * 4 <= |data| && TcpSum(src, dst, data) == 0
  }

  /** The checks of `tcp_rx`. */
  method TcpRx(src: u32, dst: u32, data: seq<u8>) returns (deliver: bool)
    requires |data| <= 65515
    ensures deliver <==> TcpAccepts(src, dst, data)
  {
    hide TcpSum;
    if |data| < TCP_HEADER_SIZE { return false; }
    var offset: nat := data[12] / 16 * 4;
    if offset < TCP_HEADER_SIZE || offset > |data| { return false; }
    var c := TcpChecksum(src, dst, data);
    deliver := c == 0;
  }

  function TcpHeader(srcPort: u16, dstPort: u16, sequence: u32, ack: u32, flags: u8): (h: seq<u8>)
    ensures |h| == TCP_HEADER_SIZE && h[12] == 0x50 && h[16] == h[17] == 0
  {
    Raw16(srcPort) + Raw16(dstPort) + Net32(sequence) + Net32(ack) + [0x50, flags] + Net16(RXBUF_SIZE) + [0, 0] + [0, 0]
  }

  /** Field by field, at the offsets of section 3.1 of RFC 9293: ports as they are held, in network order already;
      sequence number, acknowledgement and window high byte first; no options, no urgent data. */
  predicate SegmentFields(b: seq<u8>, srcPort: u16, dstPort: u16, sequence: u32, ack: u32, flags: u8) {
    && |b| >= 20
    && b[0] == srcPort % 256 && b[1] == srcPort / 256 && b[2] == dstPort % 256 && b[3] == dstPort / 256
    && b[4] == sequence / 0x100_0000 && b[5] == sequence / 0x1_0000 % 256
    && b[6] == sequence / 256 % 256 && b[7] == sequence % 256
    && b[8] == ack / 0x100_0000 && b[9] == ack / 0x1_0000 % 256 && b[10] == ack / 256 % 256 && b[11] == ack % 256
    && b[12] == 0x50 && b[13] == flags && b[14] == 0x20 && b[15] == 0 && b[18] == 0 && b[19] == 0
  }

  lemma HeaderFields(srcPort: u16, dstPort: u16, sequence: u32, ack: u32, flags: u8)
    ensures SegmentFields(TcpHeader(srcPort, dstPort, sequence, ack, flags), srcPort, dstPort, sequence, ack, flags)
  {
  }

  lemma FieldsStay(h: seq<u8>, b: seq<u8>, srcPort: u16, dstPort: u16, sequence: u32, ack: u32, flags: u8)
    requires SegmentFields(h, srcPort, dstPort, sequence, ack, flags) && |b| >= 20
    requires forall i :: 0 <= i < 20 && i != 16 && i != 17 ==> b[i] == h[i]
    ensures SegmentFields(b, srcPort, dstPort, sequence, ack, flags)
  {
  }

  /** What the checksum covers besides the segment: both addresses, a zero byte, protocol 6 and the length. */
  lemma PseudoBytes(src: u32, dst: u32, len: nat)
    ensures var p := Pseudo(src, dst, len);
      && |p| == 12 && p[8] == 0 && p[9] == 6 && p[10] == len % 0x1_0000 / 256 && p[11] == len % 256
      && p[0] == src % 256 && p[1] == src / 256 % 256 && p[2] == src / 0x1_0000 % 256 && p[3] == src / 0x100_0000
      && p[4] == dst % 256 && p[5] == dst / 256 % 256 && p[6] == dst / 0x1_0000 % 256 && p[7] == dst / 0x100_0000
  {
    assert len % 0x1_0000 % 256 == len % 256;
  }

  /** `tcp_send` up to `ipv4_send`: what it builds passes the receiver's checks for the same address pair. */
  method TcpSend(src: u32, srcPort: u16, dst: u32, dstPort: u16, sequence: u32, ack: u32, flags: u8, payload: seq<u8>)
    returns (seg: Option<seq<u8>>)
    requires TCP_HEADER_SIZE + |payload| < U32
    ensures seg.None? <==> |payload| > 1460
    ensures seg.Some? ==>
      && |seg.value| == TCP_HEADER_SIZE + |payload| && seg.value[TCP_HEADER_SIZE..] == payload
      && seg.value[..16] == TcpHeader(srcPort, dstPort, sequence, ack, flags)[..16]
      && SegmentFields(seg.value, srcPort, dstPort, sequence, ack, flags) && TcpAccepts(src, dst, seg.value)
  {
    hide TcpSum, TcpHeader, SegmentFields;
    if TCP_HEADER_SIZE + |payload| > 1480 { return None; }
    var buf := TcpHeader(srcPort, dstPort, sequence, ack, flags) + payload;
    var c := TcpChecksum(src, dst, buf);
    StoredVerifies(src, dst, buf, 16);
    buf := buf[16 := c % 256][17 := c / 256];
    seg := Some(buf);
    HeaderFields(srcPort, dstPort, sequence, ack, flags);
    FieldsStay(TcpHeader(srcPort, dstPort, sequence, ack, flags), buf, srcPort, dstPort, sequence, ack, flags);
  }

  /** Field by field, at the offsets of section 3.1 of RFC 791: version 4, no options, not fragmented. */
  predicate PacketFields(h: seq<u8>, total: u16, id: u16, protocol: u8, src: u32, dst: u32) {
    && |h| >= 20 && h[0] == 0x45 && h[1] == 0 && h[2] == total / 256 && h[3] == total % 256
    && h[4] == id / 256 && h[5] == id % 256 && h[6] == 0 && h[7] == 0 && h[8] == 64 && h[9] == protocol
    && h[12] == src % 256 && h[13] == src / 256 % 256 && h[14] == src / 0x1_0000 % 256 && h[15] == src / 0x100_0000
    && h[16] == dst % 256 && h[17] == dst / 256 % 256 && h[18] == dst / 0x1_0000 % 256 && h[19] == dst / 0x100_0000
  }

  lemma PacketStays(h: seq<u8>, b: seq<u8>, total: u16, id: u16, protocol: u8, src: u32, dst: u32)
    requires PacketFields(h, total, id, protocol, src, dst) && |b| >= 20
    requires forall i :: 0 <= i < 20 && i != 10 && i != 11 ==> b[i] == h[i]
    ensures PacketFields(b, total, id, protocol, src, dst)
  {
  }

  function Ipv4Header(total: u16, id: u16, protocol: u8, src: u32, dst: u32): (h: seq<u8>)
    ensures |h| == IPV4_HEADER_SIZE && h[0] == 0x45 && h[10] == h[11] == 0
    ensures h[2..4] == Net16(total) && h[9] == protocol && h[12..16] == Raw32(src) && h[16..20] == Raw32(dst)
    ensures PacketFields(h, total, id, protocol, src, dst)
  {
    [0x45, 0] + Net16(total) + Net16(id) + [0, 0] + [TTL, protocol] + [0, 0] + Raw32(src) + Raw32(dst)
  }

  /** `ipv4_send` up to the choice of the next hop. */
  method Ipv4Send(src: u32, dst: u32, protocol: u8, id: u16, payload: seq<u8>) returns (pkt: Option<seq<u8>>)
    requires IPV4_HEADER_SIZE + |payload| < U32
    ensures pkt.None? <==> IPV4_HEADER_SIZE + |payload| > ETH_MTU
    ensures pkt.Some? ==>
      && |pkt.value| == IPV4_HEADER_SIZE + |payload| && pkt.value[IPV4_HEADER_SIZE..] == payload
      && NetSum(pkt.value[..IPV4_HEADER_SIZE]) == 0 && pkt.value[0] == 0x45 && pkt.value[9] == protocol
      && pkt.value[2..4] == Net16(|pkt.value|) && pkt.value[12..16] == Raw32(src) && pkt.value[16..20] == Raw32(dst)
      && PacketFields(pkt.value, |pkt.value|, id, protocol, src, dst)
  {
    hide NetSum, Ipv4Header, PacketFields;
    var total := IPV4_HEADER_SIZE + |payload|;
    if total > ETH_MTU { return None; }
    var hdr := Ipv4Header(total, id, protocol, src, dst);
    var c := NetChecksum(hdr);
    NetStoredVerifies(hdr, 10);
    ghost var bare := hdr;
    hdr := hdr[10 := c / 256][11 := c % 256];
    assert (hdr + payload)[..IPV4_HEADER_SIZE] == hdr;
    pkt := Some(hdr + payload);
    PacketStays(bare, hdr + payload, total, id, protocol, src, dst);
  }

  // ----- the sender's address and the interface's -----

  lemma SumOfFour(a: u8, b: u8, c: u8, d: u8)
    ensures SumLE([a, b, c, d]) == HighLow(b, a) + HighLow(d, c)
  {
    assert [a, b, c, d][2..] == [c, d] && [c, d][2..] == [];
    assert SumLE([c, d]) == c + d * 256 + SumLE([c, d][2..]);
  }

  lemma Halves(x: u32)
    ensures HighLow(x / 256 % 256, x % 256) == x % 0x1_0000
    ensures HighLow(x / 0x100_0000, x / 0x1_0000 % 256) == x / 0x1_0000
  {
    assert x / 256 / 256 == x / 0x1_0000 && x / 0x1_0000 / 256 == x / 0x100_0000;
    assert x == x / 256 * 256 + x % 256 && x / 256 == x / 0x1_0000 * 256 + x / 256 % 256;
  }

  /** An address adds to the sum what it is modulo 65535. */
  lemma AddressSum(x: u32)
    ensures SumLE(Raw32(x)) == x % 0x1_0000 + x / 0x1_0000 && SumLE(Raw32(x)) % 0xFFFF == x % 0xFFFF
  {
    hide SumLE, HighLow;
    SumOfFour(x % 256, x / 256 % 256, x / 0x1_0000 % 256, x / 0x100_0000);
    Halves(x);
    AddMultiple(x % 0x1_0000 + x / 0x1_0000, x / 0x1_0000);
  }

  /** The pseudo-header's sum is the source address's plus a part, never zero, that does not depend on it. */
  lemma PseudoSum(src: u32, dst: u32, len: nat)
    ensures var rest := SumLE(Raw32(dst) + [0, PROTO_TCP] + Net16(len % 0x1_0000));
      SumLE(Pseudo(src, dst, len)) == SumLE(Raw32(src)) + rest && rest > 0
  {
    hide SumLE, Raw32, Net16;
    var tail := [0, PROTO_TCP] + Net16(len % 0x1_0000);
    assert |Raw32(src)| == |Raw32(dst)| == 4 by { RawLength(src); RawLength(dst); }
    assert Raw32(dst) + [0, PROTO_TCP] + Net16(len % 0x1_0000) == Raw32(dst) + tail;
    assert Pseudo(src, dst, len) == Raw32(src) + (Raw32(dst) + tail);
    SumConcat(Raw32(src), Raw32(dst) + tail);
    SumConcat(Raw32(dst), tail);
    SumConcat([0, PROTO_TCP], Net16(len % 0x1_0000));
    ProtocolWord();
  }

  lemma RawLength(x: u32)
    ensures |Raw32(x)| == 4
  {
  }

  lemma ProtocolWord()
    ensures SumLE([0, PROTO_TCP]) == PROTO_TCP * 256
  {
    assert [0, PROTO_TCP][2..] == [];
  }

  /** A sum verifies exactly when it is a multiple of 65535 other than 0. */
  lemma VerifiesExactly(sum: nat)
    ensures 0xFFFF - Fold(sum) == 0 <==> sum > 0 && sum % 0xFFFF == 0
  {
    FoldCanon(sum);
    CanonResidue(sum);
  }

  lemma SameResidue(a: nat, b: nat, rest: nat)
    requires (a + rest) % 0xFFFF == 0
    ensures (b + rest) % 0xFFFF == 0 <==> b % 0xFFFF == a % 0xFFFF
  {
    if b % 0xFFFF == a % 0xFFFF {
      Apart(b, a);
      AddMultiple(a + rest, b / 0xFFFF - a / 0xFFFF);
    } else if (b + rest) % 0xFFFF == 0 {
      Apart(b + rest, a + rest);
      AddMultiple(a, (b + rest) / 0xFFFF - (a + rest) / 0xFFFF);
    }
  }

  /** A segment that verifies for one source address verifies for another exactly when the two agree
      modulo 65535. */
  lemma OtherSource(src: u32, other: u32, dst: u32, seg: seq<u8>)
    requires TcpSum(src, dst, seg) == 0
    ensures TcpSum(other, dst, seg) == 0 <==> src % 0xFFFF == other % 0xFFFF
  {
    hide SumLE, Fold, Pseudo, Raw32, Net16;
    var rest := SumLE(Raw32(dst) + [0, PROTO_TCP] + Net16(|seg| % 0x1_0000)) + SumLE(seg);
    PseudoSum(src, dst, |seg|);
    PseudoSum(other, dst, |seg|);
    VerifiesExactly(SumLE(Raw32(src)) + rest);
    VerifiesExactly(SumLE(Raw32(other)) + rest);
    SameResidue(SumLE(Raw32(src)), SumLE(Raw32(other)), rest);
    AddressSum(src);
    AddressSum(other);
  }

  /** 10.0.2.15 as it is held, in network order. */
  const QEMU_ADDRESS: u32 := 0x0F02_000A

  /** The answer of a socket bound to no address, sent over an interface with one, does not verify. */
  lemma UnboundAnswerFails(dst: u32, seg: seq<u8>)
    requires TcpSum(0, dst, seg) == 0
    ensures Raw32(QEMU_ADDRESS) == [10, 0, 2, 15] && TcpSum(QEMU_ADDRESS, dst, seg) != 0
  {
    hide TcpSum;
    OtherSource(0, QEMU_ADDRESS, dst, seg);
  }

  /** `tcp_send` down to the packet: the segment is summed for the socket's address `src`, the packet carries
      the interface's. The header always verifies; the segment, tested for the addresses in the packet, is
      accepted exactly when the two addresses agree modulo 65535, so always when they are the same. */
  method Transmit(nifAddr: u32, src: u32, srcPort: u16, dst: u32, dstPort: u16, sequence: u32, ack: u32, flags: u8,
                  id: u16, payload: seq<u8>)
    returns (pkt: Option<seq<u8>>)
    requires IPV4_HEADER_SIZE + TCP_HEADER_SIZE + |payload| < U32
    ensures pkt.Some? <==> |payload| <= 1460
    ensures pkt.Some? ==>
      && |pkt.value| == IPV4_HEADER_SIZE + TCP_HEADER_SIZE + |payload| && NetSum(pkt.value[..IPV4_HEADER_SIZE]) == 0
      && pkt.value[12..16] == Raw32(nifAddr) && pkt.value[16..20] == Raw32(dst) && pkt.value[9] == PROTO_TCP
      && pkt.value[IPV4_HEADER_SIZE + TCP_HEADER_SIZE..] == payload
      && (TcpAccepts(nifAddr, dst, pkt.value[IPV4_HEADER_SIZE..]) <==> src % 0xFFFF == nifAddr % 0xFFFF)
  {
    hide NetSum, TcpHeader, TcpSum, Raw32;
    pkt := None;
    var seg := TcpSend(src, srcPort, dst, dstPort, sequence, ack, flags, payload);
    if seg.Some? {
      pkt := Ipv4Send(nifAddr, dst, PROTO_TCP, id, seg.value);
      OtherSource(src, nifAddr, dst, seg.value);
      assert pkt.value[IPV4_HEADER_SIZE + TCP_HEADER_SIZE..] == seg.value[TCP_HEADER_SIZE..];
    }
  }
}
