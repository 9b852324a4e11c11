/**
 The headers byte by byte, as section 3.1 of RFC 791, section 3 of RFC 8200, section 3.1 of RFC 9293 and RFC 768
 lay them out, and what tests, keys and checksums of the model come to in those terms.
 */
module Wire {
  import opened Bytes
  import opened Checksum
  import opened Packet
  import opened Tcp
  import opened Udp

  // ----- Eligibility -----

  lemma FragmentBits(hi: bv8)
    ensures hi as int / 0x20 % 2 == 0 <==> hi & 0x20 == 0
    ensures hi as int * 8 % 0x100 == 0 <==> hi & 0x1F == 0
  {
    assert hi as int * 8 % 0x100 == (hi << 3) as int;
    assert hi << 3 == 0 <==> hi & 0x1F == 0;
  }

  /**
   A packet is taken for a fragment exactly when more fragments follow or its 13-bit fragment offset is not zero;
   the reserved and the don't-fragment bit do not matter.
   */
  lemma FragmentGate(pkt: seq<byte>, hi: bv8)
    requires |pkt| >= 8 && hi as int == pkt[6]
    ensures Fragmented(pkt) <==> hi & 0x20 != 0 || hi & 0x1F != 0 || pkt[7] != 0
    ensures hi & 0x3F == 0 && pkt[7] == 0 <==> !Fragmented(pkt)
  {
    FragmentBits(hi);
    assert hi & 0x3F == 0 <==> hi & 0x20 == 0 && hi & 0x1F == 0;
  }

  /** tcp_gro goes on with a packet exactly when its headers, read byte by byte, are as follows. */
  lemma TcpEligible(pkt: seq<byte>, isV6: bool, hi: bv8)
    requires |pkt| >= 8 ==> hi as int == pkt[6]
    ensures TcpCandidate(pkt, isV6) <==>
            if isV6 then
              && 60 < |pkt| <= 0xFFFF && pkt[0] / 16 == 6 && pkt[6] == 6
              && pkt[4] as int * 0x100 + pkt[5] as int == |pkt| - 40
              && 5 <= pkt[52] / 16 && 40 + pkt[52] as int / 16 * 4 < |pkt|
              && (pkt[53] == 0x10 || pkt[53] == 0x18)
            else
              && 40 < |pkt| <= 0xFFFF && pkt[0] == 0x45 && pkt[9] == 6
              && pkt[2] as int * 0x100 + pkt[3] as int == |pkt|
              && hi & 0x20 == 0 && hi & 0x1F == 0 && pkt[7] == 0
              && 5 <= pkt[32] / 16 && 20 + pkt[32] as int / 16 * 4 < |pkt|
              && (pkt[33] == 0x10 || pkt[33] == 0x18)
  {
    if |pkt| >= 8 { FragmentGate(pkt, hi); }
  }

  /** udp_gro goes on with a packet exactly when its headers, read byte by byte, are as follows. */
  lemma UdpEligible(pkt: seq<byte>, isV6: bool, hi: bv8)
    requires |pkt| >= 8 ==> hi as int == pkt[6]
    ensures UdpCandidate(pkt, isV6) <==>
            if isV6 then
              && 48 < |pkt| <= 0xFFFF && pkt[0] / 16 == 6 && pkt[6] == 17
              && pkt[4] as int * 0x100 + pkt[5] as int == |pkt| - 40
            else
              && 28 < |pkt| <= 0xFFFF && pkt[0] == 0x45 && pkt[9] == 17
              && pkt[2] as int * 0x100 + pkt[3] as int == |pkt|
              && hi & 0x20 == 0 && hi & 0x1F == 0 && pkt[7] == 0
  {
    if |pkt| >= 8 { FragmentGate(pkt, hi); }
  }

  // ----- Flows -----

  lemma SamePad(a: seq<byte>, b: seq<byte>)
    requires |a| == |b| <= 16 && Pad16(a) == Pad16(b)
    ensures a == b
  {
    assert a == Pad16(a)[..|a|] && b == Pad16(b)[..|b|];
  }

  lemma SameWord16(a: seq<byte>, b: seq<byte>, at: nat)
    requires at + 2 <= |a| && at + 2 <= |b|
    ensures Be16(a, at) == Be16(b, at) <==> a[at] == b[at] && a[at + 1] == b[at + 1]
  {}

  lemma SameWord32(a: seq<byte>, b: seq<byte>, at: nat)
    requires at + 4 <= |a| && at + 4 <= |b|
    ensures Be32(a, at) == Be32(b, at) <==> a[at..at + 4] == b[at..at + 4]
  {
    SameWord16(a, b, at);
    SameWord16(a, b, at + 2);
    assert a[at..at + 4] == [a[at], a[at + 1], a[at + 2], a[at + 3]];
    assert b[at..at + 4] == [b[at], b[at + 1], b[at + 2], b[at + 3]];
    hide Be16;
  }

  lemma SamePorts(a: seq<byte>, b: seq<byte>, at: nat)
    requires at + 4 <= |a| && at + 4 <= |b|
    ensures Be16(a, at) == Be16(b, at) && Be16(a, at + 2) == Be16(b, at + 2) <==> a[at..at + 4] == b[at..at + 4]
  {
    SameWord16(a, b, at);
    SameWord16(a, b, at + 2);
    assert a[at..at + 4] == [a[at], a[at + 1], a[at + 2], a[at + 3]];
    assert b[at..at + 4] == [b[at], b[at + 1], b[at + 2], b[at + 3]];
    hide Be16;
  }

  lemma SameAddresses(a: seq<byte>, b: seq<byte>, isV6: bool)
    requires |a| >= IpLen(isV6) && |b| >= IpLen(isV6)
    ensures && Pad16(SrcAddr(a, isV6)) == Pad16(SrcAddr(b, isV6))
            && Pad16(DstAddr(a, isV6)) == Pad16(DstAddr(b, isV6)) <==>
            if isV6 then a[8..40] == b[8..40] else a[12..20] == b[12..20]
  {
    hide Pad16;
    if Pad16(SrcAddr(a, isV6)) == Pad16(SrcAddr(b, isV6)) && Pad16(DstAddr(a, isV6)) == Pad16(DstAddr(b, isV6)) {
      SamePad(SrcAddr(a, isV6), SrcAddr(b, isV6));
      SamePad(DstAddr(a, isV6), DstAddr(b, isV6));
    }
    if isV6 {
      assert a[8..40] == SrcAddr(a, true) + DstAddr(a, true) && b[8..40] == SrcAddr(b, true) + DstAddr(b, true);
      assert SrcAddr(a, true) == a[8..40][..16] && DstAddr(a, true) == a[8..40][16..];
      assert SrcAddr(b, true) == b[8..40][..16] && DstAddr(b, true) == b[8..40][16..];
    } else {
      assert a[12..20] == SrcAddr(a, false) + DstAddr(a, false) && b[12..20] == SrcAddr(b, false) + DstAddr(b, false);
      assert SrcAddr(a, false) == a[12..20][..4] && DstAddr(a, false) == a[12..20][4..];
      assert SrcAddr(b, false) == b[12..20][..4] && DstAddr(b, false) == b[12..20][4..];
    }
  }

  /** Segments are of one flow exactly when addresses, ports and acknowledgment number are the same bytes. */
  lemma TcpFlowBytes(a: seq<byte>, b: seq<byte>, isV6: bool)
    requires |a| >= (if isV6 then 60 else 40) && |b| >= (if isV6 then 60 else 40)
    ensures KeyOf(a, isV6) == KeyOf(b, isV6) <==>
            if isV6 then a[8..40] == b[8..40] && a[40..44] == b[40..44] && a[48..52] == b[48..52]
            else a[12..20] == b[12..20] && a[20..24] == b[20..24] && a[28..32] == b[28..32]
  {
    SameAddresses(a, b, isV6);
    SamePorts(a, b, IpLen(isV6));
    SameWord32(a, b, IpLen(isV6) + 8);
    hide Be16, Be32, Pad16, SrcAddr, DstAddr;
  }

  /** Datagrams are of one flow exactly when addresses and ports are the same bytes. */
  lemma UdpFlowBytes(a: seq<byte>, b: seq<byte>, isV6: bool)
    requires |a| >= (if isV6 then 48 else 28) && |b| >= (if isV6 then 48 else 28)
    ensures UdpKeyOf(a, isV6) == UdpKeyOf(b, isV6) <==>
            if isV6 then a[8..40] == b[8..40] && a[40..44] == b[40..44]
            else a[12..20] == b[12..20] && a[20..24] == b[20..24]
  {
    SameAddresses(a, b, isV6);
    SamePorts(a, b, IpLen(isV6));
    hide Be16, Pad16, SrcAddr, DstAddr;
  }

  /**
   The IP fields that must agree. IPv4: type of service, the three flag bits, time to live. IPv6: version, traffic
   class, hop limit.
   */
  predicate SameIpFields(a: seq<byte>, b: seq<byte>, isV6: bool)
    requires |a| >= 9 && |b| >= 9
  {
    if isV6 then a[0] == b[0] && a[1] / 16 == b[1] / 16 && a[7] == b[7]
    else a[1] == b[1] && a[6] / 32 == b[6] / 32 && a[8] == b[8]
  }

  /**
   The same TCP bytes: IP fields, addresses, ports, sequence and acknowledgment number, header length, and
   everything from the options to the end.
   */
  predicate SameTcpBytes(a: seq<byte>, b: seq<byte>, isV6: bool)
    requires |a| > (if isV6 then 60 else 40) && |b| > (if isV6 then 60 else 40)
  {
    && SameIpFields(a, b, isV6)
    && if isV6 then a[8..40] == b[8..40] && a[40..44] == b[40..44] && a[44..48] == b[44..48] && a[48..52] == b[48..52]
                    && a[52] / 16 == b[52] / 16 && a[60..] == b[60..]
       else a[12..20] == b[12..20] && a[20..24] == b[20..24] && a[24..28] == b[24..28] && a[28..32] == b[28..32]
            && a[32] / 16 == b[32] / 16 && a[40..] == b[40..]
  }

  /** The same UDP bytes: IP fields, addresses, ports and payload. */
  predicate SameUdpBytes(a: seq<byte>, b: seq<byte>, isV6: bool)
    requires |a| > (if isV6 then 48 else 28) && |b| > (if isV6 then 48 else 28)
  {
    && SameIpFields(a, b, isV6)
    && if isV6 then a[8..40] == b[8..40] && a[40..44] == b[40..44] && a[48..] == b[48..]
       else a[12..20] == b[12..20] && a[20..24] == b[20..24] && a[28..] == b[28..]
  }

  lemma IpFieldsDecide(a: seq<byte>, b: seq<byte>, isV6: bool)
    requires |a| >= 9 && |b| >= 9 && a[0] / 0x10 == (if isV6 then 6 else 4)
    ensures IpHeadersCanCoalesce(a, b) <==> SameIpFields(a, b, isV6)
  {}

  lemma CutAfter(a: seq<byte>, b: seq<byte>, from: nat, at: nat)
    requires from <= at <= |a| && at <= |b|
    ensures a[from..] == b[from..] <==> a[from..at] == b[from..at] && a[at..] == b[at..]
  {
    assert a[from..] == a[from..at] + a[at..] && b[from..] == b[from..at] + b[at..];
    assert a[from..at] == a[from..][..at - from] && a[at..] == a[from..][at - from..];
    assert b[from..at] == b[from..][..at - from] && b[at..] == b[from..][at - from..];
  }

  /** Being of one stream, with equal sequence number and payload, is being the same bytes. */
  lemma SameStreamBytes(a: seq<byte>, b: seq<byte>, isV6: bool)
    requires TcpCandidate(a, isV6) && TcpCandidate(b, isV6)
    ensures |a| > (if isV6 then 60 else 40) && |b| > (if isV6 then 60 else 40)
    ensures && SameStream(a, b, isV6)
            && SeqNo(a, isV6) == SeqNo(b, isV6) && TcpPayload(a, isV6) == TcpPayload(b, isV6) <==>
            SameTcpBytes(a, b, isV6)
  {
    assert a[0] / 0x10 == if isV6 then 6 else 4;
    hide Classify, IpLengthExact, Fragmented, KeyOf, IpHeadersCanCoalesce, Be32, SameIpFields;
    IpFieldsDecide(a, b, isV6);
    TcpFlowBytes(a, b, isV6);
    SameWord32(a, b, IpLen(isV6) + 4);
    if TcpHdrLen(a, isV6) == TcpHdrLen(b, isV6) {
      CutAfter(a, b, IpLen(isV6) + 20, HeadersLen(a, isV6));
    }
  }

  /** Being of one flow, with equal IP fields and payload, is being the same bytes. */
  lemma SameUdpStreamBytes(a: seq<byte>, b: seq<byte>, isV6: bool)
    requires UdpCandidate(a, isV6) && UdpCandidate(b, isV6)
    ensures |a| > (if isV6 then 48 else 28) && |b| > (if isV6 then 48 else 28)
    ensures SameUdpStream(a, b, isV6) && UdpPayload(a, isV6) == UdpPayload(b, isV6) <==> SameUdpBytes(a, b, isV6)
  {
    assert a[0] / 0x10 == if isV6 then 6 else 4;
    hide Classify, IpLengthExact, Fragmented, UdpKeyOf, IpHeadersCanCoalesce, SameIpFields;
    IpFieldsDecide(a, b, isV6);
    UdpFlowBytes(a, b, isV6);
  }

  // ----- Transport checksums -----

  /**
   The transport checksum of the bytes from position at on verifies, over the pseudo-header of section 3.1 of
   RFC 9293 or section 8.1 of RFC 8200, with both addresses as they stand in the packet.
   */
  predicate Verifies(pkt: seq<byte>, at: nat, protocol: byte, isV6: bool)
    requires (if isV6 then 40 else 20) <= at <= |pkt| <= 0xFFFF
  {
    var len := |pkt| - at;
    if isV6 then Sum(pkt[8..40] + [0, 0, len / 0x100, len % 0x100] + [0, 0, 0, protocol] + pkt[at..], 0) == 0xFFFF
    else Sum(pkt[12..20] + [0, protocol, len / 0x100, len % 0x100] + pkt[at..], 0) == 0xFFFF
  }

  /** checksum_valid is exactly that. */
  lemma ChecksumValidIff(pkt: seq<byte>, at: nat, protocol: byte, isV6: bool)
    requires (if isV6 then 40 else 20) <= at <= |pkt| <= 0xFFFF
    ensures ChecksumValid(pkt, at, protocol, isV6) <==> Verifies(pkt, at, protocol, isV6)
  {
    hide Sum, PseudoAcc;
    PseudoHeaderSum(protocol, SrcAddr(pkt, isV6), DstAddr(pkt, isV6), |pkt| - at, pkt[at..]);
    if isV6 {
      assert pkt[8..40] == SrcAddr(pkt, true) + DstAddr(pkt, true);
    } else {
      assert pkt[12..20] == SrcAddr(pkt, false) + DstAddr(pkt, false);
    }
  }

  // ----- The virtio-net header -----

  /** Where the fields are: two of one byte, then four of two, low byte first. */
  lemma HdrLayout(h: VirtioHdr)
    ensures var b := Encode(h);
            && |b| == 10 && b[0] == h.flags && b[1] == h.gsoType
            && b[2] as int + b[3] as int * 0x100 == h.hdrLen && b[4] as int + b[5] as int * 0x100 == h.gsoSize
            && b[6] as int + b[7] as int * 0x100 == h.csumStart && b[8] as int + b[9] as int * 0x100 == h.csumOffset
    ensures Encode(DEFAULT_HDR) == [0, 0, 0, 0, 0, 0, 0, 0, 0, 0]
  {}
}
