/** The headers accounting leaves: exact lengths, a valid IPv4 header, and a checksum the reading side can complete. */
module PartialSums {
  import opened Bytes
  import opened Checksum
  import opened Packet
  import opened Gso
  import opened Udp
  import opened Accounting
  import opened RoundTrip
  import opened TcpItem
  import opened UdpTable
  import opened VirtioRead
  import opened Wire

  /** The IP length field comes out right exactly when the true length fits in its 16 bits. */
  lemma LengthFieldExact(pkt: seq<byte>, isV6: bool)
    requires |pkt| >= IpLen(isV6)
    ensures IpLengthExact(IpFinished(pkt, isV6), isV6) <==> |pkt| - (if isV6 then 40 else 0) <= 0xFFFF
  {
    hide Sum, Put16;
    var r := IpFinished(pkt, isV6);
    if !isV6 {
      var sized := Put16(Put16(pkt, 10, 0), 2, |pkt| % 0x1_0000);
      assert r[2] == sized[2] && r[3] == sized[3];
      assert Be16(r, 2) == |pkt| % 0x1_0000;
    }
    hide Be16, IpFinished;
  }

  lemma FinishedIpHeader(pkt: seq<byte>)
    requires |pkt| >= 20
    ensures IpHeaderValid(IpFinished(pkt, false), 20)
  {
    var sized := Put16(Put16(pkt, 10, 0), 2, |pkt| % 0x1_0000);
    assert sized[10] == 0 && sized[11] == 0;
    hide Sum;
    assert IpFinished(pkt, false)[..20] == Put16(sized[..20], 10, Not16(Sum(sized[..20], 0)));
    ChecksumCompletes(sized[..20], 10, 0, 0);
  }

  /** Bytes before position n are the same. */
  predicate SamePrefix(a: seq<byte>, b: seq<byte>, n: nat) {
    n <= |a| == |b| && a[..n] == b[..n]
  }

  /** A packet finished by accounting: its IP header is, and its checksum field holds the folded pseudo-header sum. */
  predicate LeftPartial(p: seq<byte>, pkt: seq<byte>, protocol: byte, csumOffset: nat, isV6: bool)
    requires IpLen(isV6) + csumOffset + 2 <= |pkt|
  {
    && SamePrefix(p, IpFinished(pkt, isV6), IpLen(isV6))
    && Be16(p, IpLen(isV6) + csumOffset) == PartialSum(pkt, protocol, isV6)
  }

  lemma PrefixKeepsIp(p: seq<byte>, q: seq<byte>, isV6: bool)
    requires SamePrefix(p, q, IpLen(isV6))
    ensures IpLengthExact(p, isV6) == IpLengthExact(q, isV6)
    ensures !isV6 ==> IpHeaderValid(p, 20) == IpHeaderValid(q, 20)
    ensures forall k :: 0 <= k < IpLen(isV6) ==> p[k] == q[k]
  {
    hide Sum;
    forall k | 0 <= k < IpLen(isV6) ensures p[k] == q[k] {
      assert p[k] == p[..IpLen(isV6)][k] && q[k] == q[..IpLen(isV6)][k];
    }
  }

  /** Completing a packet touches its checksum field only. */
  lemma CompletedPrefix(p: seq<byte>, csumOffset: nat, isV6: bool)
    requires IpLen(isV6) + csumOffset + 2 <= |p|
    ensures SamePrefix(Completed(p, IpLen(isV6), csumOffset), p, IpLen(isV6))
  {
    hide Sum;
  }

  lemma FinishedPseudo(p: seq<byte>, pkt: seq<byte>, protocol: byte, csumOffset: nat, isV6: bool)
    requires IpLen(isV6) + csumOffset + 2 <= |pkt| <= 0xFFFF && LeftPartial(p, pkt, protocol, csumOffset, isV6)
    ensures Be16(p, IpLen(isV6) + csumOffset) == Sum([], PseudoOf(p, protocol, isV6, |p| - IpLen(isV6)))
  {
    hide Sum, PseudoOf, IpFinished, Be16;
    PrefixKeepsIp(p, IpFinished(pkt, isV6), isV6);
    forall at | SrcAddrAt(isV6) <= at < SrcAddrAt(isV6) + 2 * AddrLen(isV6) ensures p[at] == pkt[at] {
      IpFinishedKeeps(pkt, isV6, at);
    }
    SamePseudo(p, pkt, protocol, isV6, |p| - IpLen(isV6));
  }

  /** What accounting left partial, gso_none_checksum completes to a packet that verifies throughout. */
  lemma CompletionVerifies(p: seq<byte>, pkt: seq<byte>, protocol: byte, csumOffset: nat, isV6: bool)
    requires IpLen(isV6) + csumOffset + 2 <= |pkt| <= 0xFFFF && csumOffset % 2 == 0
    requires LeftPartial(p, pkt, protocol, csumOffset, isV6)
    ensures var r := Completed(p, IpLen(isV6), csumOffset);
            && Verifies(r, IpLen(isV6), protocol, isV6) && IpLengthExact(r, isV6)
            && (!isV6 ==> IpHeaderValid(r, 20))
  {
    hide Sum, PseudoOf, IpFinished, Verifies, Completed, IpHeaderValid, IpLengthExact;
    FinishedPseudo(p, pkt, protocol, csumOffset, isV6);
    PartialChecksumCompletes(p, IpLen(isV6), csumOffset, protocol, isV6);
    CompletedPrefix(p, csumOffset, isV6);
    PrefixKeepsIp(p, IpFinished(pkt, isV6), isV6);
    PrefixKeepsIp(Completed(p, IpLen(isV6), csumOffset), p, isV6);
    LengthFieldExact(pkt, isV6);
    if !isV6 { FinishedIpHeader(pkt); }
  }

  /** A merged TCP packet needs nothing but its checksum completed. */
  lemma TcpFinishedCompletes(pkt: seq<byte>, isV6: bool)
    requires IpLen(isV6) + 20 <= |pkt| <= 0xFFFF
    ensures var r := Completed(TcpFinished(pkt, isV6), IpLen(isV6), 16);
            && Verifies(r, IpLen(isV6), 6, isV6) && IpLengthExact(r, isV6)
            && (!isV6 ==> IpHeaderValid(r, 20))
  {
    assert LeftPartial(TcpFinished(pkt, isV6), pkt, IPPROTO_TCP, 16, isV6) by { hide IpFinished, PartialSum, Sum; }
    CompletionVerifies(TcpFinished(pkt, isV6), pkt, IPPROTO_TCP, 16, isV6);
  }

  lemma UdpLengthStays(pkt: seq<byte>, isV6: bool)
    requires UdpHeaders(isV6) <= |pkt| <= 0xFFFF
    ensures Be16(Completed(UdpFinished(pkt, isV6), IpLen(isV6), 6), IpLen(isV6) + 4) == |pkt| - IpLen(isV6)
  {
    hide Sum, IpFinished, PartialSum, PseudoOf;
  }

  /** A merged UDP packet needs nothing but its checksum completed. */
  lemma UdpFinishedCompletes(pkt: seq<byte>, isV6: bool)
    requires UdpHeaders(isV6) <= |pkt| <= 0xFFFF
    ensures var r := Completed(UdpFinished(pkt, isV6), IpLen(isV6), 6);
            && Verifies(r, IpLen(isV6), 17, isV6) && IpLengthExact(r, isV6)
            && (!isV6 ==> IpHeaderValid(r, 20))
            && Be16(r, IpLen(isV6) + 4) == |pkt| - IpLen(isV6)
  {
    assert LeftPartial(UdpFinished(pkt, isV6), pkt, IPPROTO_UDP, 6, isV6) by { hide IpFinished, PartialSum, Sum; }
    CompletionVerifies(UdpFinished(pkt, isV6), pkt, IPPROTO_UDP, 6, isV6);
    UdpLengthStays(pkt, isV6);
    hide *;
  }

  /** What reading gives when a frame comes back unsplit: its checksum completed where the written header says. */
  ghost predicate ReadsUnsplit(h: VirtioHdr, p: seq<byte>, protocol: byte, isV6: bool) {
    && |p| > 0 && ReadPackets(h.(gsoType := VIRTIO_NET_HDR_GSO_NONE), p).Ok?
    && var packets := ReadPackets(h.(gsoType := VIRTIO_NET_HDR_GSO_NONE), p).value;
    && |packets| == 1 && IpLen(isV6) <= |packets[0]| <= 0xFFFF
    && Verifies(packets[0], IpLen(isV6), protocol, isV6) && IpLengthExact(packets[0], isV6)
    && (!isV6 ==> IpHeaderValid(packets[0], 20))
  }

  /** The header written for a TCP item asks for the checksum, and says where it goes. */
  lemma TcpFrameReadsUnsplit(item: TcpItem, pkt: seq<byte>, isV6: bool)
    requires Usable(item, pkt, isV6) && |pkt| <= 0xFFFF
    ensures ReadsUnsplit(TcpHdr(item), TcpFinished(pkt, isV6), 6, isV6)
  {
    hide TcpFinished, Completed, Verifies, IpHeaderValid, IpLengthExact;
    TcpFinishedCompletes(pkt, isV6);
  }

  /** The header written for a UDP item asks for the checksum, and says where it goes. */
  lemma UdpFrameReadsUnsplit(item: UdpItem, pkt: seq<byte>, isV6: bool)
    requires UsableUdp(item, pkt, isV6) && |pkt| <= 0xFFFF
    ensures ReadsUnsplit(UdpHdr(item), UdpFinished(pkt, isV6), 17, isV6)
  {
    hide UdpFinished, Completed, Verifies, IpHeaderValid, IpLengthExact;
    UdpFinishedCompletes(pkt, isV6);
  }
}
