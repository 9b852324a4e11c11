/** tcp_gro and its table: where a segment goes, and what that does to the frames of its flow. */
module TcpTable {
  import opened Bytes
  import opened Packet
  import opened Buffers
  import opened Tcp
  import opened TcpItem
  import opened TcpCoalesce
  import opened Ledger

  type TcpFlows = map<TcpFlowKey, seq<TcpItem>>

  // ----- The search through a flow's items -----

  /** What the search relies on: a candidate in buffer i, and usable items over other buffers. */
  ghost predicate Searchable(items: seq<TcpItem>, pkt: seq<byte>, i: nat, bufs: seq<Buf>, offset: nat, isV6: bool) {
    && offset >= VIRTIO_NET_HDR_LEN
    && TcpCandidate(pkt, isV6) && i < |bufs| && offset <= |bufs[i].bytes| && PktAt(bufs, offset, i) == pkt
    && (forall k :: 0 <= k < |items| ==> ItemReady(items[k], i, bufs, offset, isV6))
  }

  ghost predicate ItemReady(item: TcpItem, i: nat, bufs: seq<Buf>, offset: nat, isV6: bool) {
    && item.bufsIndex < |bufs| && item.bufsIndex != i && item.numMerged < 0xFFFF
    && offset <= |bufs[item.bufsIndex].bytes|
    && Usable(item, PktAt(bufs, offset, item.bufsIndex), isV6)
  }

  datatype Ending = Merged | Refused | Missed

  datatype Search = Search(items: seq<TcpItem>, bufs: seq<Buf>, ending: Ending)

  /** The mode tcp_gro would merge pkt into item with. */
  ghost function Mode(item: TcpItem, pkt: seq<byte>, i: nat, bufs: seq<Buf>, offset: nat, isV6: bool): CanCoalesce
    requires TcpCandidate(pkt, isV6) && ItemReady(item, i, bufs, offset, isV6)
  {
    TcpPacketsCanCoalesce(pkt, isV6, item, PktAt(bufs, offset, item.bufsIndex))
  }

  lemma ModeMeansPaired(item: TcpItem, pkt: seq<byte>, i: nat, bufs: seq<Buf>, offset: nat, isV6: bool)
    requires TcpCandidate(pkt, isV6) && ItemReady(item, i, bufs, offset, isV6)
    requires i < |bufs| && offset <= |bufs[i].bytes| && PktAt(bufs, offset, i) == pkt
    ensures Mode(item, pkt, i, bufs, offset, isV6) != Unavailable ==> Paired(pkt, i, item, bufs, offset, isV6)
  {}

  /** Item k is removed, and its frame gets an empty virtio header. */
  ghost function Dropped(items: seq<TcpItem>, k: nat, pkt: seq<byte>, i: nat, bufs: seq<Buf>, offset: nat,
                         isV6: bool): (r: Search)
    requires k < |items| && Searchable(items, pkt, i, bufs, offset, isV6)
    ensures Searchable(r.items, pkt, i, r.bufs, offset, isV6)
    ensures |r.items| == |items| - 1 && |r.bufs| == |bufs| && r.bufs[i] == bufs[i]
  {
    StillSearchable(items, k, pkt, i, bufs, offset, isV6);
    Search(items[..k] + items[k + 1..], WithHdr(bufs, offset, items[k].bufsIndex, DEFAULT_HDR), Missed)
  }

  /** Items n - 1 down to 0 are tried in turn; one with a bad checksum is dropped on the way. */
  ghost function SearchFlow(items: seq<TcpItem>, n: nat, pkt: seq<byte>, i: nat, bufs: seq<Buf>, offset: nat,
                            isV6: bool): (r: Search)
    requires n <= |items| && Searchable(items, pkt, i, bufs, offset, isV6)
    ensures |r.bufs| == |bufs| && (r.ending != Merged ==> r.bufs[i] == bufs[i])
    decreases n
  {
    if n == 0 then Search(items, bufs, Missed)
    else
      var item := items[n - 1];
      var mode := Mode(item, pkt, i, bufs, offset, isV6);
      ModeMeansPaired(item, pkt, i, bufs, offset, isV6);
      if mode == Unavailable then SearchFlow(items, n - 1, pkt, i, bufs, offset, isV6)
      else match Verdict(mode, pkt, i, item, bufs, offset, isV6)
        case Success =>
          Search(items[n - 1 := MergedItem(mode, pkt, item, isV6)],
                 MergedBufs(mode, pkt, i, item, bufs, offset, isV6), Merged)
        case ItemInvalidCSum =>
          var dropped := Dropped(items, n - 1, pkt, i, bufs, offset, isV6);
          SearchFlow(dropped.items, n - 1, pkt, i, dropped.bufs, offset, isV6)
        case PktInvalidCSum => Search(items, bufs, Refused)
        case _ => SearchFlow(items, n - 1, pkt, i, bufs, offset, isV6)
  }

  lemma StillSearchable(items: seq<TcpItem>, k: nat, pkt: seq<byte>, i: nat, bufs: seq<Buf>, offset: nat, isV6: bool)
    requires k < |items| && Searchable(items, pkt, i, bufs, offset, isV6)
    ensures Searchable(items[..k] + items[k + 1..], pkt, i,
                       WithHdr(bufs, offset, items[k].bufsIndex, DEFAULT_HDR), offset, isV6)
  {
    hide TcpCandidate, PktAt, Usable;
    var b := items[k].bufsIndex;
    var bufs' := WithHdr(bufs, offset, b, DEFAULT_HDR);
    forall j | 0 <= j < |items| ensures ItemReady(items[j], i, bufs', offset, isV6) {
      SamePktAt(bufs, bufs', offset, items[j].bufsIndex);
    }
    SamePktAt(bufs, bufs', offset, i);
  }

  lemma SamePktAt(bufs: seq<Buf>, bufs': seq<Buf>, offset: nat, j: nat)
    requires j < |bufs| == |bufs'| && offset <= |bufs[j].bytes| == |bufs'[j].bytes|
    requires bufs'[j] == bufs[j] || PktAt(bufs', offset, j) == PktAt(bufs, offset, j)
    ensures PktAt(bufs', offset, j) == PktAt(bufs, offset, j)
  {}

  // ----- One segment -----

  datatype TcpStep = TcpStep(result: GroResult, bufs: seq<Buf>, flows: TcpFlows)

  /** The items of a flow, if any. */
  function ItemsOf(flows: TcpFlows, key: TcpFlowKey): seq<TcpItem> {
    if key in flows then flows[key] else []
  }

  /** What tcp_gro makes of the packet in buffer i. */
  ghost function StepTcp(flows: TcpFlows, i: nat, bufs: seq<Buf>, offset: nat, isV6: bool): (r: TcpStep)
    requires i < |bufs| && i <= 0xFFFF && offset <= |bufs[i].bytes|
    requires var pkt := PktAt(bufs, offset, i);
             TcpCandidate(pkt, isV6) ==> Searchable(ItemsOf(flows, KeyOf(pkt, isV6)), pkt, i, bufs, offset, isV6)
    ensures |r.bufs| == |bufs| && (r.result == Noop ==> r.bufs[i] == bufs[i])
  {
    var pkt := PktAt(bufs, offset, i);
    if !TcpCandidate(pkt, isV6) then TcpStep(Noop, bufs, flows)
    else
      var key, stored := KeyOf(pkt, isV6), NewItem(pkt, isV6, i);
      var items := ItemsOf(flows, key);
      var found := SearchFlow(items, |items|, pkt, i, bufs, offset, isV6);
      match found.ending
      case Merged => TcpStep(Coalesced, found.bufs, flows[key := found.items])
      case Refused => TcpStep(Noop, found.bufs, flows[key := found.items])
      case Missed => TcpStep(TableInsert, found.bufs, flows[key := found.items + [stored]])
  }

  /** TcpGROTable; the pool of spare vectors is not modelled. */
  class TcpGROTable {
    var itemsByFlow: TcpFlows

    constructor ()
      ensures itemsByFlow == map[]
    {
      itemsByFlow := map[];
    }

    /** TcpGROTable::insert. */
    method Insert(pkt: seq<byte>, isV6: bool, bufsIndex: u16)
      requires TcpCandidate(pkt, isV6)
      modifies this
      ensures var key := KeyOf(pkt, isV6);
              itemsByFlow == old(itemsByFlow)[key := ItemsOf(old(itemsByFlow), key) + [NewItem(pkt, isV6, bufsIndex)]]
    {
      var key := KeyOf(pkt, isV6);
      var item := NewItem(pkt, isV6, bufsIndex);
      if key !in itemsByFlow {
        itemsByFlow := itemsByFlow[key := []];
      }
      itemsByFlow := itemsByFlow[key := itemsByFlow[key] + [item]];
    }

    /** TcpGROTable::lookup_or_insert: the flow's items, or none and a first item is stored. */
    method LookupOrInsert(pkt: seq<byte>, isV6: bool, bufsIndex: u16) returns (items: Option<seq<TcpItem>>)
      requires TcpCandidate(pkt, isV6)
      modifies this
      ensures var key := KeyOf(pkt, isV6);
              if key in old(itemsByFlow) then items == Some(old(itemsByFlow)[key]) && itemsByFlow == old(itemsByFlow)
              else items == None && itemsByFlow == old(itemsByFlow)[key := [NewItem(pkt, isV6, bufsIndex)]]
    {
      var key := KeyOf(pkt, isV6);
      if key in itemsByFlow { return Some(itemsByFlow[key]); }
      Insert(pkt, isV6, bufsIndex);
      assert [] + [NewItem(pkt, isV6, bufsIndex)] == [NewItem(pkt, isV6, bufsIndex)];
      return None;
    }

    /** TcpGROTable::reset. */
    method Reset()
      modifies this
      ensures itemsByFlow == map[]
    {
      itemsByFlow := map[];
    }
  }

  /** tcp_gro. */
  method TcpGro(bufs: array<Buf>, offset: nat, pktI: nat, table: TcpGROTable, isV6: bool) returns (r: GroResult)
    requires pktI < bufs.Length <= 0xFFFF && VIRTIO_NET_HDR_LEN <= offset <= |bufs[pktI].bytes|
    requires WithinCapacity(bufs[..])
    requires Classify(bufs[pktI].bytes[offset..], false) == if isV6 then Tcp6 else Tcp4
    requires var pkt := bufs[pktI].bytes[offset..];
             TcpCandidate(pkt, isV6) ==>
               Searchable(ItemsOf(table.itemsByFlow, KeyOf(pkt, isV6)), pkt, pktI, bufs[..], offset, isV6)
    modifies bufs, table
    ensures TcpStep(r, bufs[..], table.itemsByFlow) == old(StepTcp(table.itemsByFlow, pktI, bufs[..], offset, isV6))
    ensures WithinCapacity(bufs[..])
  {
    hide ChecksumValid, KeyOf, SeqNo, Mode, Verdict, MergedBufs;
    var pkt := bufs[pktI].bytes[offset..];
    if |pkt| > 0xFFFF { return Noop; }
    var iphLen := pkt[0] % 0x10 * 4;
    if isV6 {
      iphLen := 40;
      if Be16(pkt, 4) != |pkt| - iphLen { return Noop; }
    } else {
      if Be16(pkt, 2) != |pkt| { return Noop; }
    }
    if |pkt| < iphLen { return Noop; }
    if |pkt| < iphLen + TCP_FLAGS_OFFSET + 1 { return Noop; }
    var tcphLen := pkt[iphLen + 12] / 0x10 * 4;
    if !(20 <= tcphLen <= 60) { return Noop; }
    if |pkt| < iphLen + tcphLen { return Noop; }
    if !isV6 && Fragmented(pkt) { return Noop; }
    var tcpFlags := pkt[iphLen + TCP_FLAGS_OFFSET];
    var pshSet := false;
    if tcpFlags != TCP_FLAG_ACK {
      if tcpFlags != TCP_FLAG_ACK + TCP_FLAG_PSH { return Noop; }
      pshSet := true;
    }
    var gsoSize := |pkt| - tcphLen - iphLen;
    if gsoSize < 1 { return Noop; }
    assert TcpCandidate(pkt, isV6);
    var seqNo := Be32(pkt, iphLen + 4);
    assert seqNo == SeqNo(pkt, isV6) by { SeqNoIs(pkt, isV6); }
    r := Place(bufs, offset, pktI, table, isV6, pkt, gsoSize, seqNo, pshSet);
  }

  lemma SeqNoIs(pkt: seq<byte>, isV6: bool)
    requires TcpCandidate(pkt, isV6)
    ensures SeqNo(pkt, isV6) == Be32(pkt, IpLen(isV6) + 4)
  {}

  /**
   The part of tcp_gro after the gates: look the flow up, try its items from the last to the first, or store the
   packet.
   */
  method Place(bufs: array<Buf>, offset: nat, pktI: nat, table: TcpGROTable, isV6: bool,
               pkt: seq<byte>, gsoSize: u16, seqNo: u32, pshSet: bool) returns (r: GroResult)
    requires pktI < bufs.Length <= 0xFFFF && VIRTIO_NET_HDR_LEN <= offset <= |bufs[pktI].bytes|
    requires WithinCapacity(bufs[..])
    requires TcpCandidate(pkt, isV6) && pkt == bufs[pktI].bytes[offset..]
    requires gsoSize == |TcpPayload(pkt, isV6)| && seqNo == SeqNo(pkt, isV6) && pshSet == Psh(pkt, isV6)
    requires Searchable(ItemsOf(table.itemsByFlow, KeyOf(pkt, isV6)), pkt, pktI, bufs[..], offset, isV6)
    modifies bufs, table
    ensures TcpStep(r, bufs[..], table.itemsByFlow) == old(StepTcp(table.itemsByFlow, pktI, bufs[..], offset, isV6))
    ensures WithinCapacity(bufs[..])
  {
    hide ChecksumValid, KeyOf, SeqNo, SearchFlow, TcpCandidate, Searchable;
    var key := KeyOf(pkt, isV6);
    ghost var flows0, bufs0 := table.itemsByFlow, bufs[..];
    ghost var goal := SearchFlow(ItemsOf(flows0, key), |ItemsOf(flows0, key)|, pkt, pktI, bufs0, offset, isV6);
    var found := table.LookupOrInsert(pkt, isV6, pktI);
    if found == None {
      SearchNothing(pkt, pktI, bufs0, offset, isV6);
      assert [] + [NewItem(pkt, isV6, pktI)] == [NewItem(pkt, isV6, pktI)];
      return TableInsert;
    }
    var items := found.value;
    var n: nat := |items|;
    while n > 0
      invariant n <= |items| && WithinCapacity(bufs[..]) && key in flows0
      invariant table.itemsByFlow == flows0[key := items]
      invariant pktI < bufs.Length && Searchable(items, pkt, pktI, bufs[..], offset, isV6)
      invariant SearchFlow(items, n, pkt, pktI, bufs[..], offset, isV6) == goal
    {
      n := n - 1;
      var ending;
      ending, items := TryItem(items, n, bufs, offset, pktI, isV6, pkt, gsoSize, seqNo, pshSet);
      table.itemsByFlow := table.itemsByFlow[key := items];
      match ending {
        case Merged => return Coalesced;
        case Refused => return Noop;
        case Missed =>
      }
    }
    SearchEnds(items, pkt, pktI, bufs[..], offset, isV6);
    table.Insert(pkt, isV6, pktI);
    return TableInsert;
  }

  lemma SearchNothing(pkt: seq<byte>, i: nat, bufs: seq<Buf>, offset: nat, isV6: bool)
    requires Searchable([], pkt, i, bufs, offset, isV6)
    ensures SearchFlow([], 0, pkt, i, bufs, offset, isV6) == Search([], bufs, Missed)
  {}

  lemma SearchEnds(items: seq<TcpItem>, pkt: seq<byte>, i: nat, bufs: seq<Buf>, offset: nat, isV6: bool)
    requires Searchable(items, pkt, i, bufs, offset, isV6)
    ensures SearchFlow(items, 0, pkt, i, bufs, offset, isV6) == Search(items, bufs, Missed)
  {}

  /** One turn of the search: the packet is merged into item n, refused, or the search goes on below n. */
  method TryItem(items0: seq<TcpItem>, n: nat, bufs: array<Buf>, offset: nat, pktI: nat, isV6: bool,
                 pkt: seq<byte>, gsoSize: u16, seqNo: u32, pshSet: bool) returns (ending: Ending, items: seq<TcpItem>)
    requires n < |items0| && pktI < bufs.Length && WithinCapacity(bufs[..])
    requires Searchable(items0, pkt, pktI, bufs[..], offset, isV6)
    requires gsoSize == |TcpPayload(pkt, isV6)| && seqNo == SeqNo(pkt, isV6) && pshSet == Psh(pkt, isV6)
    modifies bufs
    ensures WithinCapacity(bufs[..])
    ensures ending == Missed ==> n <= |items| && Searchable(items, pkt, pktI, bufs[..], offset, isV6)
    ensures old(SearchFlow(items0, n + 1, pkt, pktI, bufs[..], offset, isV6)) ==
            if ending == Missed then SearchFlow(items, n, pkt, pktI, bufs[..], offset, isV6)
            else Search(items, bufs[..], ending)
  {
    hide ChecksumValid, KeyOf, SeqNo, Verdict, MergedBufs, MergedItem, TcpCandidate, WithHdr;
    items := items0;
    var item := items[n];
    var mode := TcpPacketsCanCoalesce(pkt, isV6, item, bufs[item.bufsIndex].bytes[offset..]);
    ModeMeansPaired(item, pkt, pktI, bufs[..], offset, isV6);
    ending := Missed;
    if mode != Unavailable {
      StillSearchable(items, n, pkt, pktI, bufs[..], offset, isV6);
      var result, merged := CoalesceTcpPackets(mode, pkt, pktI, gsoSize, seqNo, pshSet, item, bufs, offset, isV6);
      match result {
        case Success =>
          items := items[n := merged];
          ending := Merged;
        case ItemInvalidCSum =>
          ClearHdr(bufs, offset, item.bufsIndex);
          items := items[..n] + items[n + 1..];
        case PktInvalidCSum =>
          ending := Refused;
        case _ =>
      }
    }
  }

  /** Zeroes the virtio header of a frame that accounting will not visit. */
  method ClearHdr(bufs: array<Buf>, offset: nat, j: nat)
    requires j < bufs.Length && VIRTIO_NET_HDR_LEN <= offset <= |bufs[j].bytes| && WithinCapacity(bufs[..])
    modifies bufs
    ensures bufs[..] == WithHdr(old(bufs[..]), offset, j, DEFAULT_HDR) && WithinCapacity(bufs[..])
  {
    bufs[j] := bufs[j].(bytes := Splice(bufs[j].bytes, offset - VIRTIO_NET_HDR_LEN, Encode(DEFAULT_HDR)));
  }
}
