/** apply_tcp_coalesce_accounting and apply_udp_coalesce_accounting: the headers of the frames to write. */
module Accounting {
  import opened Bytes
  import opened Checksum
  import opened Packet
  import opened Buffers
  import opened Udp
  import opened TcpItem
  import opened TcpTable
  import opened UdpTable

  // ----- The finished frame of one item -----

  /** The 16-bit length left for the transport, as the code computes it. */
  function TransportLen(pkt: seq<byte>, isV6: bool): u16 {
    (|pkt| % 0x1_0000 - IpLen(isV6)) % 0x1_0000
  }

  /** The IP header brought up to date: length, and for IPv4 the header checksum. */
  function IpFinished(pkt: seq<byte>, isV6: bool): (r: seq<byte>)
    requires |pkt| >= IpLen(isV6)
    ensures |r| == |pkt|
  {
    if isV6 then Put16(pkt, 4, TransportLen(pkt, true))
    else
      var sized := Put16(Put16(pkt, 10, 0), 2, |pkt| % 0x1_0000);
      Put16(sized, 10, Not16(Sum(sized[..20], 0)))
  }

  /** The folded pseudo-header sum that is left for the kernel to complete. */
  function PartialSum(pkt: seq<byte>, protocol: byte, isV6: bool): u16
    requires |pkt| >= IpLen(isV6)
  {
    Sum([], PseudoOf(pkt, protocol, isV6, TransportLen(pkt, isV6)))
  }

  function TcpFinished(pkt: seq<byte>, isV6: bool): (r: seq<byte>)
    requires |pkt| >= IpLen(isV6) + 20
    ensures |r| == |pkt|
  {
    Put16(IpFinished(pkt, isV6), IpLen(isV6) + 16, PartialSum(pkt, IPPROTO_TCP, isV6))
  }

  function UdpFinished(pkt: seq<byte>, isV6: bool): (r: seq<byte>)
    requires |pkt| >= UdpHeaders(isV6)
    ensures |r| == |pkt|
  {
    var sized := Put16(IpFinished(pkt, isV6), IpLen(isV6) + 4, TransportLen(pkt, isV6));
    Put16(sized, IpLen(isV6) + 6, PartialSum(pkt, IPPROTO_UDP, isV6))
  }

  function TcpHdr(item: TcpItem): VirtioHdr
    requires item.iphLen + item.tcphLen <= 0xFF
  {
    VirtioHdr(VIRTIO_NET_HDR_F_NEEDS_CSUM, if item.key.isV6 then VIRTIO_NET_HDR_GSO_TCPV6 else VIRTIO_NET_HDR_GSO_TCPV4,
              item.iphLen + item.tcphLen, item.gsoSize, item.iphLen, 16)
  }

  function UdpHdr(item: UdpItem): VirtioHdr
    requires item.iphLen <= 40
  {
    VirtioHdr(VIRTIO_NET_HDR_F_NEEDS_CSUM, VIRTIO_NET_HDR_GSO_UDP_L4,
              item.iphLen as int + UDP_H_LEN, item.gsoSize, item.iphLen, 6)
  }

  /** The buffer with the given virtio header and packet in place. */
  function Framed(buf: Buf, offset: nat, hdr: VirtioHdr, pkt: seq<byte>): (r: Buf)
    requires VIRTIO_NET_HDR_LEN <= offset <= |buf.bytes|
  {
    buf.(bytes := buf.bytes[..offset - VIRTIO_NET_HDR_LEN] + Encode(hdr) + pkt)
  }

  /** The buffer has room for the virtio header and a packet with whole headers. */
  predicate TcpFrameOk(buf: Buf, item: TcpItem, offset: nat) {
    VIRTIO_NET_HDR_LEN <= offset <= |buf.bytes| && Usable(item, buf.bytes[offset..], item.key.isV6)
  }

  predicate UdpFrameOk(buf: Buf, item: UdpItem, offset: nat) {
    VIRTIO_NET_HDR_LEN <= offset <= |buf.bytes| && UsableUdp(item, buf.bytes[offset..], item.key.isV6)
  }

  function TcpFrame(buf: Buf, item: TcpItem, offset: nat): Buf
    requires TcpFrameOk(buf, item, offset)
  {
    if item.numMerged > 0 then Framed(buf, offset, TcpHdr(item), TcpFinished(buf.bytes[offset..], item.key.isV6))
    else Framed(buf, offset, DEFAULT_HDR, buf.bytes[offset..])
  }

  function UdpFrame(buf: Buf, item: UdpItem, offset: nat): Buf
    requires UdpFrameOk(buf, item, offset)
  {
    if item.numMerged > 0 then Framed(buf, offset, UdpHdr(item), UdpFinished(buf.bytes[offset..], item.key.isV6))
    else Framed(buf, offset, DEFAULT_HDR, buf.bytes[offset..])
  }

  // ----- Writing one frame -----

  /** The IP header of a merged packet, brought up to date in place. */
  method FinishIp(pkt0: seq<byte>, isV6: bool) returns (pkt: seq<byte>)
    requires |pkt0| >= IpLen(isV6)
    ensures pkt == IpFinished(pkt0, isV6)
  {
    hide Sum;
    pkt := pkt0;
    var pktLen := |pkt|;
    if isV6 {
      pkt := Put16(pkt, 4, (pktLen % 0x1_0000 - 40) % 0x1_0000);
    } else {
      pkt := pkt[10 := 0];
      pkt := pkt[11 := 0];
      pkt := Put16(pkt, 2, pktLen % 0x1_0000);
      var iphCsum := Not16(Sum(pkt[..20], 0));
      pkt := Put16(pkt, 10, iphCsum);
    }
  }

  /** The body of apply_tcp_coalesce_accounting's loop. */
  method FinishTcpFrame(bufs: array<Buf>, offset: nat, item: TcpItem)
    requires item.bufsIndex < bufs.Length && TcpFrameOk(bufs[item.bufsIndex], item, offset)
    modifies bufs
    ensures bufs[..] == old(bufs[..])[item.bufsIndex := TcpFrame(old(bufs[item.bufsIndex]), item, offset)]
  {
    hide Sum, PseudoOf, Encode, IpFinished;
    var b, isV6 := item.bufsIndex, item.key.isV6;
    var bytes := bufs[b].bytes;
    if item.numMerged > 0 {
      var hdr := VirtioHdr(VIRTIO_NET_HDR_F_NEEDS_CSUM, 0, item.iphLen + item.tcphLen, item.gsoSize, item.iphLen, 16);
      var pktLen := |bytes[offset..]|;
      var psum := PseudoOf(bytes[offset..], IPPROTO_TCP, isV6, (pktLen % 0x1_0000 - item.iphLen) % 0x1_0000);
      hdr := hdr.(gsoType := if isV6 then VIRTIO_NET_HDR_GSO_TCPV6 else VIRTIO_NET_HDR_GSO_TCPV4);
      var pkt := FinishIp(bytes[offset..], isV6);
      var tcpCsum := Sum([], psum);
      pkt := Put16(pkt, hdr.csumStart + hdr.csumOffset, tcpCsum);
      bufs[b] := bufs[b].(bytes := bytes[..offset - VIRTIO_NET_HDR_LEN] + Encode(hdr) + pkt);
    } else {
      bufs[b] := bufs[b].(bytes := bytes[..offset - VIRTIO_NET_HDR_LEN] + Encode(DEFAULT_HDR) + bytes[offset..]);
    }
  }

  /** The body of apply_udp_coalesce_accounting's loop. */
  method FinishUdpFrame(bufs: array<Buf>, offset: nat, item: UdpItem)
    requires item.bufsIndex < bufs.Length && UdpFrameOk(bufs[item.bufsIndex], item, offset)
    modifies bufs
    ensures bufs[..] == old(bufs[..])[item.bufsIndex := UdpFrame(old(bufs[item.bufsIndex]), item, offset)]
  {
    hide Sum, PseudoOf, Encode, IpFinished;
    var b, isV6 := item.bufsIndex, item.key.isV6;
    var bytes := bufs[b].bytes;
    if item.numMerged > 0 {
      var hdr := VirtioHdr(VIRTIO_NET_HDR_F_NEEDS_CSUM, VIRTIO_NET_HDR_GSO_UDP_L4, item.iphLen as int + UDP_H_LEN,
                           item.gsoSize, item.iphLen, 6);
      var pktLen := |bytes[offset..]|;
      var udpLen := (pktLen % 0x1_0000 - item.iphLen) % 0x1_0000;
      var psum := PseudoOf(bytes[offset..], IPPROTO_UDP, isV6, udpLen);
      var pkt := FinishIp(bytes[offset..], isV6);
      pkt := Put16(pkt, item.iphLen as int + 4, udpLen);
      var udpCsum := Sum([], psum);
      pkt := Put16(pkt, hdr.csumStart + hdr.csumOffset, udpCsum);
      bufs[b] := bufs[b].(bytes := bytes[..offset - VIRTIO_NET_HDR_LEN] + Encode(hdr) + pkt);
    } else {
      bufs[b] := bufs[b].(bytes := bytes[..offset - VIRTIO_NET_HDR_LEN] + Encode(DEFAULT_HDR) + bytes[offset..]);
    }
  }

  // ----- Whole tables -----

  /** Every item has a frame of its own. */
  ghost predicate TcpFramesOk(flows: TcpFlows, bufs: seq<Buf>, offset: nat) {
    && (forall key, k :: key in flows && 0 <= k < |flows[key]| ==>
          flows[key][k].bufsIndex < |bufs| && TcpFrameOk(bufs[flows[key][k].bufsIndex], flows[key][k], offset))
    && (forall key, key', k, k' | key in flows && key' in flows && 0 <= k < |flows[key]| && 0 <= k' < |flows[key']| ::
          flows[key][k].bufsIndex == flows[key'][k'].bufsIndex ==> key == key' && k == k')
  }

  ghost predicate UdpFramesOk(flows: UdpFlows, bufs: seq<Buf>, offset: nat) {
    && (forall key, k :: key in flows && 0 <= k < |flows[key]| ==>
          flows[key][k].bufsIndex < |bufs| && UdpFrameOk(bufs[flows[key][k].bufsIndex], flows[key][k], offset))
    && (forall key, key', k, k' | key in flows && key' in flows && 0 <= k < |flows[key]| && 0 <= k' < |flows[key']| ::
          flows[key][k].bufsIndex == flows[key'][k'].bufsIndex ==> key == key' && k == k')
  }

  ghost predicate HasTcpItem(flows: TcpFlows, j: nat) {
    exists key, k :: key in flows && 0 <= k < |flows[key]| && flows[key][k].bufsIndex == j
  }

  ghost predicate HasUdpItem(flows: UdpFlows, j: nat) {
    exists key, k :: key in flows && 0 <= k < |flows[key]| && flows[key][k].bufsIndex == j
  }

  /** The frames of all items are finished, and nothing else has changed. */
  ghost predicate TcpAccounted(flows: TcpFlows, bufs: seq<Buf>, bufs': seq<Buf>, offset: nat)
    requires TcpFramesOk(flows, bufs, offset)
  {
    && |bufs'| == |bufs|
    && (forall key, k :: key in flows && 0 <= k < |flows[key]| ==>
          bufs'[flows[key][k].bufsIndex] == TcpFrame(bufs[flows[key][k].bufsIndex], flows[key][k], offset))
    && (forall j :: 0 <= j < |bufs| && !HasTcpItem(flows, j) ==> bufs'[j] == bufs[j])
  }

  ghost predicate UdpAccounted(flows: UdpFlows, bufs: seq<Buf>, bufs': seq<Buf>, offset: nat)
    requires UdpFramesOk(flows, bufs, offset)
  {
    && |bufs'| == |bufs|
    && (forall key, k :: key in flows && 0 <= k < |flows[key]| ==>
          bufs'[flows[key][k].bufsIndex] == UdpFrame(bufs[flows[key][k].bufsIndex], flows[key][k], offset))
    && (forall j :: 0 <= j < |bufs| && !HasUdpItem(flows, j) ==> bufs'[j] == bufs[j])
  }

  /** Accounting has one outcome, whatever order the table is walked in. */
  lemma TcpAccountingIgnoresOrder(flows: TcpFlows, bufs: seq<Buf>, one: seq<Buf>, two: seq<Buf>, offset: nat)
    requires TcpFramesOk(flows, bufs, offset)
    requires TcpAccounted(flows, bufs, one, offset) && TcpAccounted(flows, bufs, two, offset)
    ensures one == two
  {
    hide TcpFrame, TcpFrameOk;
    forall j | 0 <= j < |bufs| ensures one[j] == two[j] {
      if HasTcpItem(flows, j) {
        var key, k :| key in flows && 0 <= k < |flows[key]| && flows[key][k].bufsIndex == j;
        assert one[flows[key][k].bufsIndex] == two[flows[key][k].bufsIndex];
      }
    }
  }

  /** apply_tcp_coalesce_accounting; the flows come in any order. */
  method ApplyTcpCoalesceAccounting(bufs: array<Buf>, offset: nat, table: TcpGROTable)
    requires TcpFramesOk(table.itemsByFlow, bufs[..], offset)
    modifies bufs
    ensures TcpAccounted(table.itemsByFlow, old(bufs[..]), bufs[..], offset)
  {
    hide TcpFrame, TcpFrameOk;
    var flows := table.itemsByFlow;
    ghost var start := bufs[..];
    var keys := flows.Keys;
    while keys != {}
      invariant keys <= flows.Keys && bufs.Length == |start|
      invariant forall key, k :: key in flows && 0 <= k < |flows[key]| ==>
                  bufs[flows[key][k].bufsIndex] ==
                    if key in keys then start[flows[key][k].bufsIndex]
                    else TcpFrame(start[flows[key][k].bufsIndex], flows[key][k], offset)
      invariant forall j :: 0 <= j < |start| && !HasTcpItem(flows, j) ==> bufs[j] == start[j]
    {
      var key :| key in keys;
      var items := flows[key];
      for n := 0 to |items|
        invariant forall k :: 0 <= k < |items| ==>
                    bufs[items[k].bufsIndex] ==
                      if k < n then TcpFrame(start[items[k].bufsIndex], items[k], offset)
                      else start[items[k].bufsIndex]
        invariant forall other, k :: other in flows && other != key && 0 <= k < |flows[other]| ==>
                    bufs[flows[other][k].bufsIndex] ==
                      if other in keys then start[flows[other][k].bufsIndex]
                      else TcpFrame(start[flows[other][k].bufsIndex], flows[other][k], offset)
        invariant forall j :: 0 <= j < |start| && !HasTcpItem(flows, j) ==> bufs[j] == start[j]
      {
        assert HasTcpItem(flows, items[n].bufsIndex);
        assert TcpFrameOk(start[flows[key][n].bufsIndex], flows[key][n], offset);
        FinishTcpFrame(bufs, offset, items[n]);
      }
      keys := keys - {key};
    }
  }

  lemma UdpAccountingIgnoresOrder(flows: UdpFlows, bufs: seq<Buf>, one: seq<Buf>, two: seq<Buf>, offset: nat)
    requires UdpFramesOk(flows, bufs, offset)
    requires UdpAccounted(flows, bufs, one, offset) && UdpAccounted(flows, bufs, two, offset)
    ensures one == two
  {
    hide UdpFrame, UdpFrameOk;
    forall j | 0 <= j < |bufs| ensures one[j] == two[j] {
      if HasUdpItem(flows, j) {
        var key, k :| key in flows && 0 <= k < |flows[key]| && flows[key][k].bufsIndex == j;
        assert one[flows[key][k].bufsIndex] == two[flows[key][k].bufsIndex];
      }
    }
  }

  /** apply_udp_coalesce_accounting; the flows come in any order. */
  method ApplyUdpCoalesceAccounting(bufs: array<Buf>, offset: nat, table: UdpGROTable)
    requires UdpFramesOk(table.itemsByFlow, bufs[..], offset)
    modifies bufs
    ensures UdpAccounted(table.itemsByFlow, old(bufs[..]), bufs[..], offset)
  {
    hide UdpFrame, UdpFrameOk;
    var flows := table.itemsByFlow;
    ghost var start := bufs[..];
    var keys := flows.Keys;
    while keys != {}
      invariant keys <= flows.Keys && bufs.Length == |start|
      invariant forall key, k :: key in flows && 0 <= k < |flows[key]| ==>
                  bufs[flows[key][k].bufsIndex] ==
                    if key in keys then start[flows[key][k].bufsIndex]
                    else UdpFrame(start[flows[key][k].bufsIndex], flows[key][k], offset)
      invariant forall j :: 0 <= j < |start| && !HasUdpItem(flows, j) ==> bufs[j] == start[j]
    {
      var key :| key in keys;
      var items := flows[key];
      for n := 0 to |items|
        invariant forall k :: 0 <= k < |items| ==>
                    bufs[items[k].bufsIndex] ==
                      if k < n then UdpFrame(start[items[k].bufsIndex], items[k], offset)
                      else start[items[k].bufsIndex]
        invariant forall other, k :: other in flows && other != key && 0 <= k < |flows[other]| ==>
                    bufs[flows[other][k].bufsIndex] ==
                      if other in keys then start[flows[other][k].bufsIndex]
                      else UdpFrame(start[flows[other][k].bufsIndex], flows[other][k], offset)
        invariant forall j :: 0 <= j < |start| && !HasUdpItem(flows, j) ==> bufs[j] == start[j]
      {
        assert HasUdpItem(flows, items[n].bufsIndex);
        assert UdpFrameOk(start[flows[key][n].bufsIndex], flows[key][n], offset);
        FinishUdpFrame(bufs, offset, items[n]);
      }
      keys := keys - {key};
    }
  }
}
