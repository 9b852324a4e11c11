/** IPv4/IPv6, TCP and UDP headers as the offload code reads them, and the virtio-net header. */
module Packet {
  import opened Bytes
  import opened Checksum

  const IPPROTO_TCP: byte := 6
  const IPPROTO_UDP: byte := 17
  const TCP_FLAGS_OFFSET: nat := 13
  const TCP_FLAG_ACK: byte := 0x10
  const TCP_FLAG_PSH: byte := 0x08
  const UDP_H_LEN: nat := 8

  // ----- Bit fields of a byte -----

  /** b & TCP_FLAG_PSH != 0. */
  predicate HasPsh(b: byte) { b / 8 % 2 == 1 }

  /** b | TCP_FLAG_PSH. */
  function SetPsh(b: byte): byte { if HasPsh(b) then b else b + 8 }

  /** b & !(TCP_FLAG_FIN | TCP_FLAG_PSH). */
  function ClearFinPsh(b: byte): byte { b - b % 2 - b / 8 % 2 * 8 }

  /** The fragment test of an IPv4 header: MF set, or a non-zero fragment offset. */
  predicate Fragmented(pkt: seq<byte>)
    requires |pkt| >= 8
  {
    pkt[6] / 0x20 % 2 == 1 || pkt[6] as int * 8 % 0x100 != 0 || pkt[7] != 0
  }

  /** The arithmetic above is the bit arithmetic of the code: shifts, masks and flag updates. */
  lemma Nibbles(b: bv8)
    ensures b as int / 0x10 == (b >> 4) as int && b as int % 0x10 == (b & 0x0F) as int
  {}

  lemma MoreFragmentsBit(b: bv8)
    ensures b as int / 0x20 % 2 == 1 <==> b & 0x20 != 0
  {}

  lemma FragmentOffsetBits(b: bv8)
    ensures b as int * 8 % 0x100 == (b << 3) as int
  {}

  lemma PshBit(b: bv8)
    ensures HasPsh(b as int) <==> b & 0x08 != 0
  {}

  lemma SetsPsh(b: bv8)
    ensures SetPsh(b as int) == (b | 0x08) as int
  {
    PshBit(b);
    assert b & 0x08 == 0 ==> b | 0x08 == b + 8;
    assert b & 0x08 != 0 ==> b | 0x08 == b;
  }

  lemma ClearsFinPsh(b: bv8)
    ensures ClearFinPsh(b as int) == (b & !(0x01 | 0x08)) as int
  {
    PshBit(b);
    assert b as int % 2 == (b & 1) as int;
    assert b & 0x08 == 0 ==> b & !(0x01 | 0x08) == b - (b & 1);
    assert b & 0x08 != 0 ==> b & !(0x01 | 0x08) == b - (b & 1) - 8;
  }

  // ----- Addresses and the checksum test -----

  function SrcAddrAt(isV6: bool): nat { if isV6 then 8 else 12 }

  function AddrLen(isV6: bool): nat { if isV6 then 16 else 4 }

  /** Length of the fixed IP header, the only one GRO accepts. */
  function IpLen(isV6: bool): nat { if isV6 then 40 else 20 }

  function SrcAddr(pkt: seq<byte>, isV6: bool): seq<byte>
    requires |pkt| >= IpLen(isV6)
  {
    pkt[SrcAddrAt(isV6)..SrcAddrAt(isV6) + AddrLen(isV6)]
  }

  function DstAddr(pkt: seq<byte>, isV6: bool): seq<byte>
    requires |pkt| >= IpLen(isV6)
  {
    pkt[SrcAddrAt(isV6) + AddrLen(isV6)..SrcAddrAt(isV6) + AddrLen(isV6) * 2]
  }

  /** An address in a 16-byte field. */
  function Pad16(addr: seq<byte>): (r: seq<byte>)
    requires |addr| <= 16
    ensures |r| == 16
  {
    addr + seq(16 - |addr|, _ => 0)
  }

  /** The pseudo-header accumulator for a transport header and payload of the given length. */
  function PseudoOf(pkt: seq<byte>, protocol: byte, isV6: bool, length: u16): nat
    requires |pkt| >= IpLen(isV6)
  {
    PseudoAcc(protocol, SrcAddr(pkt, isV6), DstAddr(pkt, isV6), length)
  }

  /** checksum_valid. */
  predicate ChecksumValid(pkt: seq<byte>, iphLen: nat, protocol: byte, isV6: bool)
    requires |pkt| >= IpLen(isV6) && |pkt| >= iphLen
  {
    var wrapped := |pkt| % 0x1_0000;
    var lenForPseudo := if wrapped >= iphLen then wrapped - iphLen else 0;
    Not16(Sum(pkt[iphLen..], PseudoOf(pkt, protocol, isV6, lenForPseudo))) == 0
  }

  /** The header sum of section 3.1 of RFC 791 comes out as all ones. */
  predicate IpHeaderValid(pkt: seq<byte>, iphLen: nat)
    requires |pkt| >= iphLen
  {
    Sum(pkt[..iphLen], 0) == 0xFFFF
  }

  // ----- Classification -----

  datatype GroCandidate = NotGro | Tcp4 | Tcp6 | Udp4 | Udp6

  /** packet_is_gro_candidate. */
  function Classify(b: seq<byte>, canUdpGro: bool): GroCandidate {
    if |b| < 28 then NotGro
    else if b[0] / 0x10 == 4 then
      if b[0] % 0x10 != 5 then NotGro
      else if b[9] == 6 && |b| >= 40 then Tcp4
      else if b[9] == 17 && canUdpGro then Udp4
      else NotGro
    else if b[0] / 0x10 == 6 then
      if b[6] == 6 && |b| >= 60 then Tcp6
      else if b[6] == 17 && |b| >= 48 && canUdpGro then Udp6
      else NotGro
    else NotGro
  }

  /** ip_headers_can_coalesce. */
  predicate IpHeadersCanCoalesce(a: seq<byte>, b: seq<byte>) {
    if |a| < 9 || |b| < 9 then false
    else if a[0] / 0x10 == 6 then
      a[0] == b[0] && a[1] / 0x10 == b[1] / 0x10 && a[7] == b[7]
    else
      a[1] == b[1] && a[6] / 0x20 == b[6] / 0x20 && a[8] == b[8]
  }

  /** The length field of the IP header agrees with the packet's true length. */
  predicate IpLengthExact(pkt: seq<byte>, isV6: bool)
    requires |pkt| >= IpLen(isV6)
  {
    if isV6 then Be16(pkt, 4) == |pkt| - 40 else Be16(pkt, 2) == |pkt|
  }

  // ----- The virtio-net header -----

  const VIRTIO_NET_HDR_LEN: nat := 10
  const VIRTIO_NET_HDR_F_NEEDS_CSUM: byte := 1
  const VIRTIO_NET_HDR_GSO_NONE: byte := 0
  const VIRTIO_NET_HDR_GSO_TCPV4: byte := 1
  const VIRTIO_NET_HDR_GSO_TCPV6: byte := 4
  const VIRTIO_NET_HDR_GSO_UDP_L4: byte := 5

  datatype VirtioHdr = VirtioHdr(flags: byte, gsoType: byte, hdrLen: u16, gsoSize: u16, csumStart: u16, csumOffset: u16)

  const DEFAULT_HDR := VirtioHdr(0, 0, 0, 0, 0, 0)

  function Le16(v: u16): seq<byte> { [v % 0x100, v / 0x100] }

  /** VirtioNetHdr::encode on a little-endian machine. */
  function Encode(h: VirtioHdr): (r: seq<byte>)
    ensures |r| == VIRTIO_NET_HDR_LEN
  {
    [h.flags, h.gsoType] + Le16(h.hdrLen) + Le16(h.gsoSize) + Le16(h.csumStart) + Le16(h.csumOffset)
  }

  /** VirtioNetHdr::decode on a little-endian machine. */
  function Decode(b: seq<byte>): VirtioHdr
    requires |b| >= VIRTIO_NET_HDR_LEN
  {
    VirtioHdr(b[0], b[1], b[2] as int + b[3] as int * 0x100, b[4] as int + b[5] as int * 0x100,
              b[6] as int + b[7] as int * 0x100, b[8] as int + b[9] as int * 0x100)
  }

  lemma DecodeEncode(h: VirtioHdr)
    ensures Decode(Encode(h)) == h
  {}
}
