/** udp_gro and its table: a datagram is merged behind its flow's last item, or stored as a new one. */
module UdpTable {
  import opened Bytes
  import opened Packet
  import opened Buffers
  import opened Udp
  import opened Ledger

  datatype UdpItem = UdpItem(key: UdpFlowKey, bufsIndex: u16, numMerged: u16, gsoSize: u16,
                             iphLen: byte, cSumKnownInvalid: bool)

  type UdpFlows = map<UdpFlowKey, seq<UdpItem>>

  predicate UsableUdp(item: UdpItem, target: seq<byte>, isV6: bool) {
    item.iphLen == IpLen(isV6) && item.gsoSize > 0 && |target| >= UdpHeaders(isV6)
  }

  /** The item that UdpGROTable::insert makes. */
  function NewUdpItem(pkt: seq<byte>, isV6: bool, bufsIndex: u16, cSumKnownInvalid: bool): UdpItem
    requires UdpCandidate(pkt, isV6)
  {
    UdpItem(UdpKeyOf(pkt, isV6), bufsIndex, 0, |UdpPayload(pkt, isV6)|, IpLen(isV6), cSumKnownInvalid)
  }

  /** udp_packets_can_coalesce. */
  function UdpPacketsCanCoalesce(pkt: seq<byte>, isV6: bool, item: UdpItem, target: seq<byte>): CanCoalesce
    requires UdpCandidate(pkt, isV6) && UsableUdp(item, target, isV6)
  {
    if !IpHeadersCanCoalesce(pkt, target) then Unavailable
    else if |target[UdpHeaders(isV6)..]| % item.gsoSize != 0 then Unavailable
    else if |UdpPayload(pkt, isV6)| > item.gsoSize then Unavailable
    else Append
  }

  /** pkt sits in buffer i and the item's packet in another one. */
  ghost predicate UdpReady(item: UdpItem, pkt: seq<byte>, i: nat, bufs: seq<Buf>, offset: nat, isV6: bool) {
    && i < |bufs| && item.bufsIndex < |bufs| && item.bufsIndex != i
    && offset <= |bufs[i].bytes| && offset <= |bufs[item.bufsIndex].bytes|
    && UdpCandidate(pkt, isV6) && PktAt(bufs, offset, i) == pkt
    && UsableUdp(item, PktAt(bufs, offset, item.bufsIndex), isV6) && item.numMerged < 0xFFFF
  }

  /** The result code of coalesce_udp_packets. */
  ghost function UdpVerdict(pkt: seq<byte>, i: nat, item: UdpItem, bufs: seq<Buf>, offset: nat,
                            isV6: bool): CoalesceResult
    requires UdpReady(item, pkt, i, bufs, offset, isV6)
  {
    var b := item.bufsIndex;
    var target := PktAt(bufs, offset, b);
    if bufs[b].cap < offset * 2 + (|target| + |pkt| - UdpHeaders(isV6)) then InsufficientCap
    else if && item.numMerged == 0
            && (item.cSumKnownInvalid || !ChecksumValid(target, item.iphLen, IPPROTO_UDP, isV6)) then
      ItemInvalidCSum
    else if !ChecksumValid(pkt, item.iphLen, IPPROTO_UDP, isV6) then PktInvalidCSum
    else Success
  }

  function Appended(bufs: seq<Buf>, b: nat, payload: seq<byte>): (r: seq<Buf>)
    requires b < |bufs|
    ensures |r| == |bufs|
  {
    bufs[b := bufs[b].(bytes := bufs[b].bytes + payload)]
  }

  /** coalesce_udp_packets. */
  method CoalesceUdpPackets(pkt: seq<byte>, ghost i: nat, item0: UdpItem, bufs: array<Buf>, offset: nat, isV6: bool)
    returns (r: CoalesceResult, item: UdpItem)
    requires UdpReady(item0, pkt, i, bufs[..], offset, isV6) && WithinCapacity(bufs[..])
    modifies bufs
    ensures r == UdpVerdict(pkt, i, item0, old(bufs[..]), offset, isV6)
    ensures r == Success ==> item == item0.(numMerged := item0.numMerged + 1)
                             && bufs[..] == Appended(old(bufs[..]), item0.bufsIndex, UdpPayload(pkt, isV6))
    ensures r != Success ==> item == item0 && bufs[..] == old(bufs[..])
    ensures WithinCapacity(bufs[..])
  {
    hide ChecksumValid;
    item := item0;
    var b := item.bufsIndex;
    var buf := bufs[b].bytes;
    var headersLen := item.iphLen as int + UDP_H_LEN;
    var coalescedLen := |buf[offset..]| + |pkt| - headersLen;
    if bufs[b].cap < offset * 2 + coalescedLen { return InsufficientCap, item; }
    if item.numMerged == 0 && (item.cSumKnownInvalid || !ChecksumValid(buf[offset..], item.iphLen, IPPROTO_UDP, isV6)) {
      return ItemInvalidCSum, item;
    }
    if !ChecksumValid(pkt, item.iphLen, IPPROTO_UDP, isV6) { return PktInvalidCSum, item; }
    bufs[b] := Extend(bufs[b], pkt[headersLen..]);
    item := item.(numMerged := item.numMerged + 1);
    return Success, item;
  }

  // ----- One datagram -----

  datatype UdpStep = UdpStep(result: GroResult, bufs: seq<Buf>, flows: UdpFlows)

  function UdpItemsOf(flows: UdpFlows, key: UdpFlowKey): seq<UdpItem> {
    if key in flows then flows[key] else []
  }

  /** What udp_gro relies on. */
  ghost predicate UdpSearchable(flows: UdpFlows, pkt: seq<byte>, i: nat, bufs: seq<Buf>, offset: nat, isV6: bool)
    requires UdpCandidate(pkt, isV6)
  {
    var key := UdpKeyOf(pkt, isV6);
    key in flows ==> flows[key] != [] && UdpReady(flows[key][|flows[key]| - 1], pkt, i, bufs, offset, isV6)
  }

  /** What udp_gro makes of the packet in buffer i. */
  ghost function StepUdp(flows: UdpFlows, i: nat, bufs: seq<Buf>, offset: nat, isV6: bool): (r: UdpStep)
    requires i < |bufs| && i <= 0xFFFF && offset <= |bufs[i].bytes|
    requires UdpCandidate(PktAt(bufs, offset, i), isV6) ==>
               UdpSearchable(flows, PktAt(bufs, offset, i), i, bufs, offset, isV6)
    ensures |r.bufs| == |bufs| && (r.result == Noop ==> r.bufs[i] == bufs[i])
  {
    var pkt := PktAt(bufs, offset, i);
    if !UdpCandidate(pkt, isV6) then UdpStep(Noop, bufs, flows)
    else
      var key := UdpKeyOf(pkt, isV6);
      var items := UdpItemsOf(flows, key);
      if MergesUdp(items, pkt, i, bufs, offset, isV6) then
        var last := items[|items| - 1];
        UdpStep(Coalesced, Appended(bufs, last.bufsIndex, UdpPayload(pkt, isV6)),
                flows[key := items[|items| - 1 := last.(numMerged := last.numMerged + 1)]])
      else
        var known := FoundInvalid(items, pkt, i, bufs, offset, isV6);
        UdpStep(TableInsert, bufs, flows[key := items + [NewUdpItem(pkt, isV6, i, known)]])
  }

  /** The datagram goes behind the last item. */
  ghost predicate MergesUdp(items: seq<UdpItem>, pkt: seq<byte>, i: nat, bufs: seq<Buf>, offset: nat, isV6: bool)
    requires items != [] ==> UdpReady(items[|items| - 1], pkt, i, bufs, offset, isV6)
  {
    items != [] &&
    var last := items[|items| - 1];
    && UdpPacketsCanCoalesce(pkt, isV6, last, PktAt(bufs, offset, last.bufsIndex)) == Append
    && UdpVerdict(pkt, i, last, bufs, offset, isV6) == Success
  }

  /** The datagram's own checksum was found wrong on the way. */
  ghost predicate FoundInvalid(items: seq<UdpItem>, pkt: seq<byte>, i: nat, bufs: seq<Buf>, offset: nat, isV6: bool)
    requires items != [] ==> UdpReady(items[|items| - 1], pkt, i, bufs, offset, isV6)
  {
    items != [] &&
    var last := items[|items| - 1];
    && UdpPacketsCanCoalesce(pkt, isV6, last, PktAt(bufs, offset, last.bufsIndex)) == Append
    && UdpVerdict(pkt, i, last, bufs, offset, isV6) == PktInvalidCSum
  }

  /** UdpGROTable; the pool of spare vectors is not modelled. */
  class UdpGROTable {
    var itemsByFlow: UdpFlows

    constructor ()
      ensures itemsByFlow == map[]
    {
      itemsByFlow := map[];
    }

    /** UdpGROTable::insert. */
    method Insert(pkt: seq<byte>, isV6: bool, bufsIndex: u16, cSumKnownInvalid: bool)
      requires UdpCandidate(pkt, isV6)
      modifies this
      ensures var key, item := UdpKeyOf(pkt, isV6), NewUdpItem(pkt, isV6, bufsIndex, cSumKnownInvalid);
              itemsByFlow == old(itemsByFlow)[key := UdpItemsOf(old(itemsByFlow), key) + [item]]
    {
      var key := UdpKeyOf(pkt, isV6);
      var item := NewUdpItem(pkt, isV6, bufsIndex, cSumKnownInvalid);
      if key !in itemsByFlow {
        itemsByFlow := itemsByFlow[key := []];
      }
      itemsByFlow := itemsByFlow[key := itemsByFlow[key] + [item]];
    }

    /** UdpGROTable::lookup_or_insert: the flow's items, or none and a first item is stored. */
    method LookupOrInsert(pkt: seq<byte>, isV6: bool, bufsIndex: u16) returns (items: Option<seq<UdpItem>>)
      requires UdpCandidate(pkt, isV6)
      modifies this
      ensures var key, item := UdpKeyOf(pkt, isV6), NewUdpItem(pkt, isV6, bufsIndex, false);
              if key in old(itemsByFlow) then items == Some(old(itemsByFlow)[key]) && itemsByFlow == old(itemsByFlow)
              else items == None && itemsByFlow == old(itemsByFlow)[key := UdpItemsOf(old(itemsByFlow), key) + [item]]
    {
      var key := UdpKeyOf(pkt, isV6);
      if key in itemsByFlow { return Some(itemsByFlow[key]); }
      Insert(pkt, isV6, bufsIndex, false);
      return None;
    }

    /** UdpGROTable::reset. */
    method Reset()
      modifies this
      ensures itemsByFlow == map[]
    {
      itemsByFlow := map[];
    }
  }

  /** udp_gro. */
  method UdpGro(bufs: array<Buf>, offset: nat, pktI: nat, table: UdpGROTable, isV6: bool) returns (r: GroResult)
    requires pktI < bufs.Length <= 0xFFFF && offset <= |bufs[pktI].bytes| && WithinCapacity(bufs[..])
    requires Classify(bufs[pktI].bytes[offset..], true) == if isV6 then Udp6 else Udp4
    requires var pkt := bufs[pktI].bytes[offset..];
             UdpCandidate(pkt, isV6) ==> UdpSearchable(table.itemsByFlow, pkt, pktI, bufs[..], offset, isV6)
    modifies bufs, table
    ensures UdpStep(r, bufs[..], table.itemsByFlow) == old(StepUdp(table.itemsByFlow, pktI, bufs[..], offset, isV6))
    ensures WithinCapacity(bufs[..])
  {
    hide ChecksumValid, UdpKeyOf;
    var pkt := bufs[pktI].bytes[offset..];
    if |pkt| > 0xFFFF { return Noop; }
    var iphLen := pkt[0] % 0x10 * 4;
    if isV6 {
      iphLen := 40;
      if Be16(pkt, 4) != |pkt| - iphLen { return Noop; }
    } else {
      if Be16(pkt, 2) != |pkt| { return Noop; }
    }
    if |pkt| < iphLen || |pkt| < iphLen + UDP_H_LEN { return Noop; }
    if !isV6 && Fragmented(pkt) { return Noop; }
    var gsoSize := |pkt| - UDP_H_LEN - iphLen;
    if gsoSize < 1 { return Noop; }
    assert UdpCandidate(pkt, isV6);
    r := PlaceDatagram(bufs, offset, pktI, table, isV6, pkt);
  }

  /** The part of udp_gro after the gates: look the flow up, try its last item, or store the packet. */
  method PlaceDatagram(bufs: array<Buf>, offset: nat, pktI: nat, table: UdpGROTable, isV6: bool,
                       pkt: seq<byte>) returns (r: GroResult)
    requires pktI < bufs.Length <= 0xFFFF && offset <= |bufs[pktI].bytes| && WithinCapacity(bufs[..])
    requires UdpCandidate(pkt, isV6) && pkt == bufs[pktI].bytes[offset..]
    requires UdpSearchable(table.itemsByFlow, pkt, pktI, bufs[..], offset, isV6)
    modifies bufs, table
    ensures UdpStep(r, bufs[..], table.itemsByFlow) == old(StepUdp(table.itemsByFlow, pktI, bufs[..], offset, isV6))
    ensures WithinCapacity(bufs[..])
  {
    hide ChecksumValid, UdpKeyOf, UdpCandidate, UdpVerdict, UsableUdp;
    var found := table.LookupOrInsert(pkt, isV6, pktI);
    if found == None { return TableInsert; }
    var items := found.value;
    var item := items[|items| - 1];
    var can := UdpPacketsCanCoalesce(pkt, isV6, item, bufs[item.bufsIndex].bytes[offset..]);
    var pktCsumKnownInvalid := false;
    if can == Append {
      var result, merged := CoalesceUdpPackets(pkt, pktI, item, bufs, offset, isV6);
      match result {
        case Success =>
          table.itemsByFlow := table.itemsByFlow[UdpKeyOf(pkt, isV6) := items[|items| - 1 := merged]];
          return Coalesced;
        case PktInvalidCSum =>
          pktCsumKnownInvalid := true;
        case _ =>
      }
    }
    table.Insert(pkt, isV6, pktI, pktCsumKnownInvalid);
    return TableInsert;
  }
}
