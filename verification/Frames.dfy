/** Frames to write, read back: each yields the packets it was made of. */
module Frames {
  import opened Bytes
  import opened Packet
  import opened Buffers
  import opened Tcp
  import opened Udp
  import opened TcpItem
  import opened Ledger
  import opened UdpTable
  import opened UdpBook
  import opened Gso
  import opened Accounting
  import opened VirtioRead
  import opened RoundTrip
  import opened RoundTripUdp
  import opened Wire

  /** A frame, as the device reads it: a virtio header, then a packet. */
  function FrameHdr(buf: Buf, offset: nat): VirtioHdr
    requires VIRTIO_NET_HDR_LEN <= offset <= |buf.bytes|
  {
    Decode(buf.bytes[offset - VIRTIO_NET_HDR_LEN..offset])
  }

  function FramePkt(buf: Buf, offset: nat): seq<byte>
    requires offset <= |buf.bytes|
  {
    buf.bytes[offset..]
  }

  /** The reading side accepts the header and packet. */
  predicate Accepted(hdr: VirtioHdr, pkt: seq<byte>) {
    && pkt != []
    && (hdr.gsoType != VIRTIO_NET_HDR_GSO_NONE && CheckedHdr(hdr, pkt).Ok? ==> CsumInHeader(CheckedHdr(hdr, pkt).value))
    && ReadPackets(hdr, pkt).Ok?
  }

  predicate Readable(buf: Buf, offset: nat) {
    VIRTIO_NET_HDR_LEN <= offset <= |buf.bytes| && Accepted(FrameHdr(buf, offset), FramePkt(buf, offset))
  }

  /** The packets read back from a frame. */
  function FramePackets(buf: Buf, offset: nat): seq<seq<byte>>
    requires Readable(buf, offset)
  {
    ReadPackets(FrameHdr(buf, offset), FramePkt(buf, offset)).value
  }

  /** s is m, or carries the same bytes of the same stream, or the same datagram. */
  ghost predicate SamePacket(s: seq<byte>, m: seq<byte>) {
    || s == m
    || SameSegment(s, m, false) || SameSegment(s, m, true)
    || SameDatagram(s, m, false) || SameDatagram(s, m, true)
  }

  /** Reading the frame back gives the packets ms, in this order; a lone packet is there byte for byte. */
  ghost predicate Delivers(buf: Buf, offset: nat, ms: seq<seq<byte>>) {
    && Readable(buf, offset)
    && |FramePackets(buf, offset)| == |ms|
    && (forall k :: 0 <= k < |ms| ==> SamePacket(FramePackets(buf, offset)[k], ms[k]))
    && (|ms| == 1 ==> FrameHdr(buf, offset) == DEFAULT_HDR && FramePkt(buf, offset) == ms[0])
  }

  lemma FramedParts(buf: Buf, offset: nat, hdr: VirtioHdr, pkt: seq<byte>)
    requires VIRTIO_NET_HDR_LEN <= offset <= |buf.bytes|
    ensures var r := Framed(buf, offset, hdr, pkt);
            offset <= |r.bytes| && FrameHdr(r, offset) == hdr && FramePkt(r, offset) == pkt
  {
    hide Encode, Decode;
    var r := Framed(buf, offset, hdr, pkt);
    assert r.bytes[offset - VIRTIO_NET_HDR_LEN..offset] == Encode(hdr);
    DecodeEncode(hdr);
  }

  lemma PlainDelivers(buf: Buf, offset: nat, pkt: seq<byte>)
    requires VIRTIO_NET_HDR_LEN <= offset <= |buf.bytes| && pkt != []
    requires FrameHdr(buf, offset) == DEFAULT_HDR && FramePkt(buf, offset) == pkt
    ensures Delivers(buf, offset, [pkt])
  {}

  lemma LooseDelivers(bufs: seq<Buf>, offset: nat, pkts: seq<seq<byte>>, ledger: Ledger, j: nat)
    requires offset >= VIRTIO_NET_HDR_LEN && j in ledger && LooseOk(bufs, offset, pkts, ledger, j) && pkts[j] != []
    ensures Delivers(bufs[j], offset, [pkts[j]])
  {
    hide Encode, Decode, Delivers;
    DecodeEncode(DEFAULT_HDR);
    PlainDelivers(bufs[j], offset, pkts[j]);
  }

  lemma GroupOfOne(item: TcpItem, target: seq<byte>, ms: seq<seq<byte>>, isV6: bool)
    requires TcpGroup(item, target, ms, isV6)
    ensures |ms| == item.numMerged + 1 && (item.numMerged == 0 ==> ms == [target]) && target != []
  {}

  lemma UdpGroupOfOne(item: UdpItem, target: seq<byte>, ms: seq<seq<byte>>, isV6: bool)
    requires UdpGroup(item, target, ms, isV6)
    ensures |ms| == item.numMerged + 1 && (item.numMerged == 0 ==> ms == [target]) && target != []
  {}

  /** The finished frame of a TCP item delivers its members. */
  lemma TcpFrameDelivers(buf: Buf, item: TcpItem, offset: nat, ms: seq<seq<byte>>)
    requires TcpFrameOk(buf, item, offset) && TcpGroup(item, buf.bytes[offset..], ms, item.key.isV6)
    ensures Delivers(TcpFrame(buf, item, offset), offset, ms)
  {
    hide TcpGroup, Framed, ReadPackets, CheckedHdr, TcpFinished, SameSegment, SameDatagram, FrameHdr, FramePkt, TcpHdr;
    var target := buf.bytes[offset..];
    GroupOfOne(item, target, ms, item.key.isV6);
    if item.numMerged > 0 {
      TcpRoundTrip(item, target, ms, item.key.isV6);
      FramedParts(buf, offset, TcpHdr(item), TcpFinished(target, item.key.isV6));
    } else {
      FramedParts(buf, offset, DEFAULT_HDR, target);
      PlainDelivers(Framed(buf, offset, DEFAULT_HDR, target), offset, target);
    }
  }

  /** The finished frame of a UDP item delivers its members. */
  lemma UdpFrameDelivers(buf: Buf, item: UdpItem, offset: nat, ms: seq<seq<byte>>)
    requires UdpFrameOk(buf, item, offset) && UdpGroup(item, buf.bytes[offset..], ms, item.key.isV6)
    ensures Delivers(UdpFrame(buf, item, offset), offset, ms)
  {
    hide UdpGroup, Framed, ReadPackets, CheckedHdr, UdpFinished, SameSegment, SameDatagram, FrameHdr, FramePkt, UdpHdr;
    var target := buf.bytes[offset..];
    UdpGroupOfOne(item, target, ms, item.key.isV6);
    if item.numMerged > 0 {
      UdpRoundTrip(item, target, ms, item.key.isV6);
      FramedParts(buf, offset, UdpHdr(item), UdpFinished(target, item.key.isV6));
    } else {
      FramedParts(buf, offset, DEFAULT_HDR, target);
      PlainDelivers(Framed(buf, offset, DEFAULT_HDR, target), offset, target);
    }
  }

  // ----- What a packet says -----

  /**
   What survives of a packet, whatever happens to IP ids, windows and lengths: flow, position, payload, options,
   IP fields.
   */
  datatype Gist =
    | TcpData(tcpKey: TcpFlowKey, seqNo: u32, tcpPayload: seq<byte>, options: seq<byte>, tcpTraits: (int, int, int))
    | UdpData(udpKey: UdpFlowKey, udpPayload: seq<byte>, udpTraits: (int, int, int))
    | Whole(pkt: seq<byte>)

  /** The IP fields that packets must share to be merged. */
  function IpTraits(pkt: seq<byte>, isV6: bool): (int, int, int)
    requires |pkt| >= 9
  {
    if isV6 then (pkt[0], pkt[1] / 0x10, pkt[7]) else (pkt[1], pkt[6] / 0x20, pkt[8])
  }

  function TcpGist(pkt: seq<byte>, isV6: bool): Gist
    requires TcpCandidate(pkt, isV6)
  {
    TcpData(KeyOf(pkt, isV6), SeqNo(pkt, isV6), TcpPayload(pkt, isV6), Options(pkt, isV6), IpTraits(pkt, isV6))
  }

  function UdpGist(pkt: seq<byte>, isV6: bool): Gist
    requires UdpCandidate(pkt, isV6)
  {
    UdpData(UdpKeyOf(pkt, isV6), UdpPayload(pkt, isV6), IpTraits(pkt, isV6))
  }

  function GistOf(pkt: seq<byte>): Gist {
    if TcpCandidate(pkt, false) then TcpGist(pkt, false)
    else if TcpCandidate(pkt, true) then TcpGist(pkt, true)
    else if UdpCandidate(pkt, false) then UdpGist(pkt, false)
    else if UdpCandidate(pkt, true) then UdpGist(pkt, true)
    else Whole(pkt)
  }

  /** A packet is eligible in one way at most. */
  lemma OneKind(pkt: seq<byte>, isV6: bool)
    ensures TcpCandidate(pkt, isV6) ==> !TcpCandidate(pkt, !isV6)
                                        && !UdpCandidate(pkt, false) && !UdpCandidate(pkt, true)
    ensures UdpCandidate(pkt, isV6) ==> !UdpCandidate(pkt, !isV6)
                                        && !TcpCandidate(pkt, false) && !TcpCandidate(pkt, true)
    ensures TcpCandidate(pkt, isV6) || UdpCandidate(pkt, isV6) ==> |pkt| >= 9 && pkt[0] / 0x10 == if isV6 then 6 else 4
  {}

  lemma SameTraits(a: seq<byte>, b: seq<byte>, isV6: bool)
    requires |a| >= 9 && |b| >= 9 && a[0] / 0x10 == (if isV6 then 6 else 4)
    ensures IpHeadersCanCoalesce(a, b) ==> IpTraits(a, isV6) == IpTraits(b, isV6)
  {}

  lemma SameSegmentGist(s: seq<byte>, m: seq<byte>, isV6: bool)
    requires SameSegment(s, m, isV6)
    ensures GistOf(s) == GistOf(m)
  {
    hide KeyOf, SeqNo, TcpPayload, Options, Verifies, IpHeaderValid, SameTcpBytes, IpHeadersCanCoalesce;
    OneKind(s, isV6);
    OneKind(m, isV6);
    SameStreamBytes(m, s, isV6);
    SameTraits(m, s, isV6);
    hide TcpCandidate, UdpCandidate;
  }

  lemma SameDatagramGist(s: seq<byte>, m: seq<byte>, isV6: bool)
    requires SameDatagram(s, m, isV6)
    ensures GistOf(s) == GistOf(m)
  {
    hide UdpKeyOf, UdpPayload, Verifies, IpHeaderValid, SameUdpBytes, IpHeadersCanCoalesce;
    OneKind(s, isV6);
    OneKind(m, isV6);
    SameUdpStreamBytes(m, s, isV6);
    SameTraits(m, s, isV6);
    hide TcpCandidate, UdpCandidate;
  }

  lemma SamePacketGist(s: seq<byte>, m: seq<byte>)
    requires SamePacket(s, m)
    ensures GistOf(s) == GistOf(m)
  {
    hide SameSegment, SameDatagram, GistOf;
    if SameSegment(s, m, false) { SameSegmentGist(s, m, false); }
    else if SameSegment(s, m, true) { SameSegmentGist(s, m, true); }
    else if SameDatagram(s, m, false) { SameDatagramGist(s, m, false); }
    else if SameDatagram(s, m, true) { SameDatagramGist(s, m, true); }
  }

  function Gists(pkts: seq<seq<byte>>): (r: seq<Gist>)
    ensures |r| == |pkts|
  {
    seq(|pkts|, k requires 0 <= k < |pkts| => GistOf(pkts[k]))
  }
}
