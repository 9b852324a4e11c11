/** What udp_gro keeps: the items of a flow, their frames, and the order in which its datagrams arrived. */
module UdpBook {
  import opened Bytes
  import opened Packet
  import opened Buffers
  import opened Udp
  import opened Ledger
  import opened UdpTable
  import TcpItem

  /**
   The item and the packet in its buffer describe the members ms: well grouped, the first member's
   headers followed by all payloads, and once anything has been merged every member had a valid checksum.
   */
  ghost predicate UdpGroup(item: UdpItem, target: seq<byte>, ms: seq<seq<byte>>, isV6: bool) {
    && UdpWellGrouped(ms, isV6) && |ms| == item.numMerged + 1
    && item.key == UdpKeyOf(ms[0], isV6) && item.iphLen == IpLen(isV6)
    && item.gsoSize == |UdpPayload(ms[0], isV6)|
    && |target| >= UdpHeaders(isV6)
    && target[..UdpHeaders(isV6)] == ms[0][..UdpHeaders(isV6)]
    && target[UdpHeaders(isV6)..] == Concat(UdpPayloads(ms, isV6))
    && (|ms| == 1 ==> target == ms[0])
    && (|ms| > 1 ==> forall k :: 0 <= k < |ms| ==> ChecksumValid(ms[k], IpLen(isV6), IPPROTO_UDP, isV6))
    && (item.cSumKnownInvalid ==> |ms| == 1 && !ChecksumValid(ms[0], IpLen(isV6), IPPROTO_UDP, isV6))
  }

  lemma NewUdpGroup(pkt: seq<byte>, isV6: bool, bufsIndex: u16, known: bool)
    requires UdpCandidate(pkt, isV6)
    requires known ==> !ChecksumValid(pkt, IpLen(isV6), IPPROTO_UDP, isV6)
    ensures UdpGroup(NewUdpItem(pkt, isV6, bufsIndex, known), pkt, [pkt], isV6)
  {
    hide ChecksumValid, UdpKeyOf, SameUdpStream;
    SameUdpStreamReflexive(pkt, isV6);
    var ms := [pkt];
    assert UdpPayloads(ms, isV6)[1..] == [];
    assert Concat(UdpPayloads(ms, isV6)) == UdpPayload(pkt, isV6);
  }

  lemma UdpGroupExtent(item: UdpItem, target: seq<byte>, ms: seq<seq<byte>>, isV6: bool)
    requires UdpGroup(item, target, ms, isV6)
    ensures var last := |UdpPayload(ms[|ms| - 1], isV6)|;
            && |target| - UdpHeaders(isV6) == item.numMerged * item.gsoSize as int + last && 1 <= last <= item.gsoSize
            && ((|target| - UdpHeaders(isV6)) % item.gsoSize as int == 0 <==> last == item.gsoSize)
  {
    hide ChecksumValid, UdpKeyOf, SameUdpStream, UdpCandidate, UdpHeaders;
    UdpRunIsUniform(ms, isV6);
    CutConcat(UdpPayloads(ms, isV6), item.gsoSize, 0);
    TcpItem.MultipleIffLastFull(item.numMerged, item.gsoSize, |UdpPayload(ms[|ms| - 1], isV6)|);
  }

  /** A datagram of the flow is appended exactly when the members followed by it are well grouped. */
  lemma UdpAppendIsExact(item: UdpItem, target: seq<byte>, ms: seq<seq<byte>>, p: seq<byte>, isV6: bool)
    requires UdpGroup(item, target, ms, isV6) && UdpCandidate(p, isV6) && UdpKeyOf(p, isV6) == item.key
    ensures UsableUdp(item, target, isV6)
    ensures UdpPacketsCanCoalesce(p, isV6, item, target) == Append <==> UdpWellGrouped(ms + [p], isV6)
  {
    hide ChecksumValid, UdpKeyOf, SameUdpStream, IpHeadersCanCoalesce, UdpCandidate, UdpPayloads, Concat;
    UdpGroupExtent(item, target, ms, isV6);
    AppendedUdpRun(ms, p, isV6);
    SameUdpStreamByHeaders(target, ms[0], p, isV6);
    hide UdpWellGrouped;
  }

  lemma SameUdpStreamByHeaders(target: seq<byte>, m: seq<byte>, p: seq<byte>, isV6: bool)
    requires UdpCandidate(m, isV6) && UdpCandidate(p, isV6) && UdpKeyOf(p, isV6) == UdpKeyOf(m, isV6)
    requires |target| >= UdpHeaders(isV6) && target[..UdpHeaders(isV6)] == m[..UdpHeaders(isV6)]
    ensures SameUdpStream(m, p, isV6) <==> IpHeadersCanCoalesce(p, target)
  {
    assert forall at :: 0 <= at < 9 ==> target[at] == target[..UdpHeaders(isV6)][at] == m[at];
  }

  lemma UdpAppendKeepsGroup(item: UdpItem, target: seq<byte>, ms: seq<seq<byte>>, p: seq<byte>, isV6: bool)
    requires UdpGroup(item, target, ms, isV6) && UdpCandidate(p, isV6) && item.numMerged < 0xFFFF
    requires UdpWellGrouped(ms + [p], isV6)
    requires !item.cSumKnownInvalid && ChecksumValid(p, IpLen(isV6), IPPROTO_UDP, isV6)
    requires item.numMerged == 0 ==> ChecksumValid(ms[0], IpLen(isV6), IPPROTO_UDP, isV6)
    ensures UdpGroup(item.(numMerged := item.numMerged + 1), target + UdpPayload(p, isV6), ms + [p], isV6)
  {
    hide ChecksumValid, UdpKeyOf, UdpCandidate, SameUdpStream, EvenSized;
    var r, hl := ms + [p], UdpHeaders(isV6);
    assert r[0] == ms[0];
    assert UdpPayloads(r, isV6) == UdpPayloads(ms, isV6) + [UdpPayload(p, isV6)];
    ConcatAppend(UdpPayloads(ms, isV6), UdpPayload(p, isV6));
    assert (target + UdpPayload(p, isV6))[hl..] == target[hl..] + UdpPayload(p, isV6);
    assert (target + UdpPayload(p, isV6))[..hl] == target[..hl];
  }

  // ----- A flow and its frames -----

  ghost predicate UdpItemBooked(item: UdpItem, key: UdpFlowKey, bufs: seq<Buf>, offset: nat, pkts: seq<seq<byte>>,
                                ledger: Ledger) {
    var b := item.bufsIndex;
    && b in ledger && ledger[b].owner == UdpOwned(key) && item.key == key
    && b < |bufs| && offset <= |bufs[b].bytes|
    && (forall m :: m in ledger[b].members ==> m < |pkts|)
    && UdpGroup(item, PktAt(bufs, offset, b), Pick(pkts, ledger[b].members), key.isV6)
    && (|ledger[b].members| == 1 ==> ledger[b].members == [b])
    && (item.numMerged > 0 ==> |bufs[b].bytes| + offset <= bufs[b].cap)
  }

  function UdpIndices(items: seq<UdpItem>): (r: seq<nat>)
    ensures |r| == |items|
  {
    seq(|items|, k requires 0 <= k < |items| => items[k].bufsIndex)
  }

  /** The items of a flow are those of its frames, in increasing order, each booked. */
  ghost predicate UdpFlowBooked(items: seq<UdpItem>, key: UdpFlowKey, bufs: seq<Buf>, offset: nat,
                                pkts: seq<seq<byte>>, ledger: Ledger) {
    && (forall k :: 0 <= k < |items| ==> UdpItemBooked(items[k], key, bufs, offset, pkts, ledger))
    && (forall j, k :: 0 <= j < k < |items| ==> items[j].bufsIndex < items[k].bufsIndex)
    && (forall b :: b in ledger && ledger[b].owner == UdpOwned(key) ==> b in UdpIndices(items))
  }

  /** The batch positions of the flow's datagrams, frame by frame. */
  ghost function Carried(items: seq<UdpItem>, ledger: Ledger): seq<nat> {
    if items == [] then []
    else
      var last := items[|items| - 1];
      Carried(items[..|items| - 1], ledger) + (if last.bufsIndex in ledger then ledger[last.bufsIndex].members else [])
  }

  /** The positions below n of the datagrams of a flow that reach the table, in order of arrival. */
  ghost function Arrivals(pkts: seq<seq<byte>>, canUdpGro: bool, key: UdpFlowKey, n: nat): seq<nat>
    requires n <= |pkts|
  {
    if n == 0 then []
    else Arrivals(pkts, canUdpGro, key, n - 1)
         + (if canUdpGro && UdpCandidate(pkts[n - 1], key.isV6) && UdpKeyOf(pkts[n - 1], key.isV6) == key
            then [n - 1] else [])
  }

  lemma {:induction false} CarriedElsewhere(items: seq<UdpItem>, ledger: Ledger, ledger': Ledger)
    requires forall k :: 0 <= k < |items| ==>
               && items[k].bufsIndex in ledger && items[k].bufsIndex in ledger'
               && ledger'[items[k].bufsIndex].members == ledger[items[k].bufsIndex].members
    ensures Carried(items, ledger') == Carried(items, ledger)
  {
    if items != [] { CarriedElsewhere(items[..|items| - 1], ledger, ledger'); }
  }

  lemma UdpItemStaysBooked(item: UdpItem, key: UdpFlowKey, offset: nat, pkts: seq<seq<byte>>,
                           bufs: seq<Buf>, bufs': seq<Buf>, ledger: Ledger, ledger': Ledger)
    requires UdpItemBooked(item, key, bufs, offset, pkts, ledger)
    requires |bufs'| == |bufs| && bufs'[item.bufsIndex] == bufs[item.bufsIndex]
    requires item.bufsIndex in ledger' && ledger'[item.bufsIndex] == ledger[item.bufsIndex]
    ensures UdpItemBooked(item, key, bufs', offset, pkts, ledger')
  {
    hide UdpGroup;
  }

  // ----- A merge -----

  /** The state before packet i of a flow is looked at. */
  ghost predicate UdpAtHand(items: seq<UdpItem>, key: UdpFlowKey, i: nat, bufs: seq<Buf>, offset: nat,
                            pkts: seq<seq<byte>>, ledger: Ledger) {
    && i < |pkts| && i !in ledger && UdpCandidate(pkts[i], key.isV6) && UdpKeyOf(pkts[i], key.isV6) == key
    && UdpFlowBooked(items, key, bufs, offset, pkts, ledger)
    && (items != [] ==> UdpReady(items[|items| - 1], pkts[i], i, bufs, offset, key.isV6))
  }

  lemma UdpMergeKeepsItem(item: UdpItem, key: UdpFlowKey, i: nat, bufs: seq<Buf>, offset: nat, pkts: seq<seq<byte>>,
                          ledger: Ledger)
    requires UdpItemBooked(item, key, bufs, offset, pkts, ledger) && i < |pkts|
    requires UdpReady(item, pkts[i], i, bufs, offset, key.isV6) && UdpKeyOf(pkts[i], key.isV6) == key
    requires UdpPacketsCanCoalesce(pkts[i], key.isV6, item, PktAt(bufs, offset, item.bufsIndex)) == Append
    requires UdpVerdict(pkts[i], i, item, bufs, offset, key.isV6) == Success
    ensures var b := item.bufsIndex;
            var bufs' := Appended(bufs, b, UdpPayload(pkts[i], key.isV6));
            && UdpItemBooked(item.(numMerged := item.numMerged + 1), key, bufs', offset, pkts,
                             ledger[b := Entry(UdpOwned(key), ledger[b].members + [i])])
            && |bufs'[b].bytes| <= bufs'[b].cap
  {
    hide ChecksumValid, UdpKeyOf, UdpWellGrouped, UdpCandidate, UdpPacketsCanCoalesce;
    var b, isV6 := item.bufsIndex, key.isV6;
    var ms, target := Pick(pkts, ledger[b].members), PktAt(bufs, offset, b);
    PickAppend(pkts, ledger[b].members, i);
    UdpAppendIsExact(item, target, ms, pkts[i], isV6);
    assert !item.cSumKnownInvalid;
    UdpAppendKeepsGroup(item, target, ms, pkts[i], isV6);
    var bufs' := Appended(bufs, b, UdpPayload(pkts[i], isV6));
    assert PktAt(bufs', offset, b) == target + UdpPayload(pkts[i], isV6);
  }

  /** Merging a datagram keeps the flow booked, confines itself to it, and keeps the order of arrival. */
  lemma UdpMergeStep(items: seq<UdpItem>, key: UdpFlowKey, i: nat, bufs: seq<Buf>, offset: nat, pkts: seq<seq<byte>>,
                     ledger: Ledger)
    requires UdpAtHand(items, key, i, bufs, offset, pkts, ledger) && offset >= VIRTIO_NET_HDR_LEN
    requires MergesUdp(items, pkts[i], i, bufs, offset, key.isV6)
    ensures var last := items[|items| - 1];
            var b := last.bufsIndex;
            var bufs' := Appended(bufs, b, UdpPayload(pkts[i], key.isV6));
            var items' := items[|items| - 1 := last.(numMerged := last.numMerged + 1)];
            && b in ledger
            && var ledger' := ledger[b := Entry(UdpOwned(key), ledger[b].members + [i])];
            && UdpFlowBooked(items', key, bufs', offset, pkts, ledger')
            && Confined(UdpOwned(key), i, offset, pkts, bufs, bufs', ledger, ledger')
            && bufs'[i] == bufs[i]
            && Carried(items', ledger') == Carried(items, ledger) + [i]
  {
    hide ChecksumValid, UdpKeyOf, UdpGroup, UdpCandidate, UdpVerdict, UdpPacketsCanCoalesce, PktAt, UsableUdp,
      Appended, Confined, Carried, WithinCapacity;
    var last := items[|items| - 1];
    var b := last.bufsIndex;
    var bufs' := Appended(bufs, b, UdpPayload(pkts[i], key.isV6));
    var merged := last.(numMerged := last.numMerged + 1);
    var ledger' := ledger[b := Entry(UdpOwned(key), ledger[b].members + [i])];
    UdpMergeKeepsItem(last, key, i, bufs, offset, pkts, ledger);
    OnlyOneAppended(bufs, b, UdpPayload(pkts[i], key.isV6));
    LastReplaced(items, merged, key, bufs, bufs', offset, pkts, ledger, ledger');
    CarriedGrows(items, merged, i, ledger, ledger');
    OneFrameConfined(UdpOwned(key), b, i, offset, pkts, bufs, bufs', ledger, ledger');
  }

  lemma OnlyOneAppended(bufs: seq<Buf>, b: nat, payload: seq<byte>)
    requires b < |bufs|
    ensures var bufs' := Appended(bufs, b, payload);
            (forall j :: 0 <= j < |bufs| && j != b ==> bufs'[j] == bufs[j]) && Caps(bufs') == Caps(bufs)
  {}

  /** Work on one frame that its owner keeps is confined to that owner. */
  lemma OneFrameConfined(owner: Owner, b: nat, i: nat, offset: nat, pkts: seq<seq<byte>>, bufs: seq<Buf>,
                         bufs': seq<Buf>, ledger: Ledger, ledger': Ledger)
    requires offset >= VIRTIO_NET_HDR_LEN && b in ledger && ledger[b].owner == owner && b < |bufs| == |bufs'|
    requires ledger'.Keys == ledger.Keys && ledger'[b].owner == owner
    requires forall j :: j in ledger && j != b ==> ledger'[j] == ledger[j]
    requires forall j :: 0 <= j < |bufs| && j != b ==> bufs'[j] == bufs[j]
    requires Caps(bufs') == Caps(bufs) && |bufs'[b].bytes| <= bufs'[b].cap
    ensures Confined(owner, i, offset, pkts, bufs, bufs', ledger, ledger')
  {
    hide LooseOk, Caps, WithinCapacity;
    OneWithinCapacity(bufs, bufs', b);
  }

  lemma OneWithinCapacity(bufs: seq<Buf>, bufs': seq<Buf>, b: nat)
    requires b < |bufs| == |bufs'| && |bufs'[b].bytes| <= bufs'[b].cap
    requires forall j :: 0 <= j < |bufs| && j != b ==> bufs'[j] == bufs[j]
    ensures WithinCapacity(bufs) ==> WithinCapacity(bufs')
  {}

  lemma LastReplaced(items: seq<UdpItem>, merged: UdpItem, key: UdpFlowKey, bufs: seq<Buf>, bufs': seq<Buf>,
                     offset: nat, pkts: seq<seq<byte>>, ledger: Ledger, ledger': Ledger)
    requires items != [] && UdpFlowBooked(items, key, bufs, offset, pkts, ledger)
    requires merged.bufsIndex == items[|items| - 1].bufsIndex
    requires UdpItemBooked(merged, key, bufs', offset, pkts, ledger')
    requires |bufs'| == |bufs| && ledger'.Keys == ledger.Keys
    requires forall j :: 0 <= j < |bufs| && j != merged.bufsIndex ==> bufs'[j] == bufs[j]
    requires forall j :: j in ledger && j != merged.bufsIndex ==> ledger'[j] == ledger[j]
    ensures UdpFlowBooked(items[|items| - 1 := merged], key, bufs', offset, pkts, ledger')
  {
    hide UdpGroup, PktAt;
    var n := |items| - 1;
    forall k | 0 <= k < n ensures UdpItemBooked(items[k], key, bufs', offset, pkts, ledger') {
      UdpItemStaysBooked(items[k], key, offset, pkts, bufs, bufs', ledger, ledger');
    }
    assert UdpIndices(items[n := merged]) == UdpIndices(items);
  }

  lemma CarriedGrows(items: seq<UdpItem>, merged: UdpItem, i: nat, ledger: Ledger, ledger': Ledger)
    requires items != [] && merged.bufsIndex == items[|items| - 1].bufsIndex
    requires forall k :: 0 <= k < |items| ==> items[k].bufsIndex in ledger
    requires forall j, k :: 0 <= j < k < |items| ==> items[j].bufsIndex < items[k].bufsIndex
    requires ledger' ==
             ledger[merged.bufsIndex := Entry(ledger[merged.bufsIndex].owner, ledger[merged.bufsIndex].members + [i])]
    ensures Carried(items[|items| - 1 := merged], ledger') == Carried(items, ledger) + [i]
  {
    var n := |items| - 1;
    assert items[n := merged][..n] == items[..n];
    CarriedElsewhere(items[..n], ledger, ledger');
  }
}
