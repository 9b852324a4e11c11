/** When GRO merges: exactly when some item of the flow can take the packet. */
module GroChoice {
  import opened Bytes
  import opened Packet
  import opened Buffers
  import opened Tcp
  import opened Udp
  import opened TcpItem
  import opened TcpCoalesce
  import opened Ledger
  import opened TcpTable
  import opened TcpBook
  import opened UdpTable
  import opened UdpBook
  import GroRun

  // ----- TCP -----

  /** The item takes the packet. */
  ghost predicate Takes(item: TcpItem, pkt: seq<byte>, i: nat, bufs: seq<Buf>, offset: nat, isV6: bool) {
    && Paired(pkt, i, item, bufs, offset, isV6)
    && var mode := TcpPacketsCanCoalesce(pkt, isV6, item, PktAt(bufs, offset, item.bufsIndex));
    && mode != Unavailable && Verdict(mode, pkt, i, item, bufs, offset, isV6) == Success
  }

  /** Rewriting a virtio header does not change whether an item takes the packet. */
  lemma TakesAnyway(item: TcpItem, pkt: seq<byte>, i: nat, bufs: seq<Buf>, offset: nat, isV6: bool, b: nat)
    requires b < |bufs| && VIRTIO_NET_HDR_LEN <= offset <= |bufs[b].bytes| && i < |bufs| && item.bufsIndex < |bufs|
    ensures Takes(item, pkt, i, WithHdr(bufs, offset, b, DEFAULT_HDR), offset, isV6) <==>
            Takes(item, pkt, i, bufs, offset, isV6)
  {
    hide TcpCandidate, PktAt, Usable, ChecksumValid, TcpPacketsCanCoalesce, CoalescedLen;
    var bufs' := WithHdr(bufs, offset, b, DEFAULT_HDR);
    if offset <= |bufs[i].bytes| { SamePktAt(bufs, bufs', offset, i); }
    if offset <= |bufs[item.bufsIndex].bytes| { SamePktAt(bufs, bufs', offset, item.bufsIndex); }
  }

  /** One of the first n items takes the packet. */
  ghost predicate SomeTakes(items: seq<TcpItem>, n: nat, pkt: seq<byte>, i: nat, bufs: seq<Buf>, offset: nat,
                            isV6: bool)
    requires n <= |items|
  {
    exists k :: 0 <= k < n && Takes(items[k], pkt, i, bufs, offset, isV6)
  }

  lemma SomeTakesNext(items: seq<TcpItem>, n: nat, pkt: seq<byte>, i: nat, bufs: seq<Buf>, offset: nat, isV6: bool)
    requires 0 < n <= |items|
    ensures SomeTakes(items, n, pkt, i, bufs, offset, isV6) <==>
            Takes(items[n - 1], pkt, i, bufs, offset, isV6) || SomeTakes(items, n - 1, pkt, i, bufs, offset, isV6)
  {
    hide Takes;
  }

  /** The search merges the packet exactly when one of the items it may try takes it. */
  lemma {:induction false} SearchFindsTaker(items: seq<TcpItem>, n: nat, pkt: seq<byte>, i: nat, bufs: seq<Buf>,
                                            offset: nat, isV6: bool)
    requires n <= |items| && Searchable(items, pkt, i, bufs, offset, isV6)
    ensures var found := SearchFlow(items, n, pkt, i, bufs, offset, isV6);
            && (found.ending == Merged <==> SomeTakes(items, n, pkt, i, bufs, offset, isV6))
            && (found.ending == Refused ==> !ChecksumValid(pkt, IpLen(isV6), IPPROTO_TCP, isV6))
    decreases n
  {
    hide TcpCandidate, PktAt, Usable, ChecksumValid, TcpPacketsCanCoalesce, CoalescedLen, WithHdr, MergedItem,
      MergedBufs, Takes, Verdict, Mode;
    if n > 0 {
      var item := items[n - 1];
      assert ItemReady(item, i, bufs, offset, isV6);
      var mode := Mode(item, pkt, i, bufs, offset, isV6);
      ModeMeansPaired(item, pkt, i, bufs, offset, isV6);
      LastTakes(item, pkt, i, bufs, offset, isV6);
      SomeTakesNext(items, n, pkt, i, bufs, offset, isV6);
      if mode != Unavailable && Verdict(mode, pkt, i, item, bufs, offset, isV6) == ItemInvalidCSum {
        var dropped := Dropped(items, n - 1, pkt, i, bufs, offset, isV6);
        SearchFindsTaker(dropped.items, n - 1, pkt, i, dropped.bufs, offset, isV6);
        TakerStays(items, n - 1, pkt, i, bufs, offset, isV6);
        hide Dropped, SomeTakes;
      } else if mode == Unavailable || Verdict(mode, pkt, i, item, bufs, offset, isV6) in {InsufficientCap, PSHEnding} {
        SearchFindsTaker(items, n - 1, pkt, i, bufs, offset, isV6);
      } else if Verdict(mode, pkt, i, item, bufs, offset, isV6) == PktInvalidCSum {
        forall k | 0 <= k < n ensures !Takes(items[k], pkt, i, bufs, offset, isV6) {
          TakenIsValid(items[k], pkt, i, bufs, offset, isV6);
        }
      }
    }
  }

  lemma TakerStays(items: seq<TcpItem>, n: nat, pkt: seq<byte>, i: nat, bufs: seq<Buf>, offset: nat, isV6: bool)
    requires n < |items| && Searchable(items, pkt, i, bufs, offset, isV6)
    ensures var dropped := Dropped(items, n, pkt, i, bufs, offset, isV6);
            SomeTakes(dropped.items, n, pkt, i, dropped.bufs, offset, isV6) <==>
            SomeTakes(items, n, pkt, i, bufs, offset, isV6)
  {
    hide Takes, Searchable, WithHdr;
    TakersStay(items, n, pkt, i, bufs, offset, isV6);
    var dropped := Dropped(items, n, pkt, i, bufs, offset, isV6);
    assert forall k :: 0 <= k < n ==> dropped.items[k] == items[k];
  }

  /** Dropping item n does not change which of the items before it take the packet. */
  lemma TakersStay(items: seq<TcpItem>, n: nat, pkt: seq<byte>, i: nat, bufs: seq<Buf>, offset: nat, isV6: bool)
    requires n < |items| && Searchable(items, pkt, i, bufs, offset, isV6)
    ensures var items' := items[..n] + items[n + 1..];
            var bufs' := WithHdr(bufs, offset, items[n].bufsIndex, DEFAULT_HDR);
            forall k :: 0 <= k < n ==>
              (Takes(items'[k], pkt, i, bufs', offset, isV6) <==> Takes(items[k], pkt, i, bufs, offset, isV6))
  {
    hide TcpCandidate, PktAt, Usable, WithHdr, Takes;
    var items' := items[..n] + items[n + 1..];
    var bufs' := WithHdr(bufs, offset, items[n].bufsIndex, DEFAULT_HDR);
    forall k | 0 <= k < n
      ensures Takes(items'[k], pkt, i, bufs', offset, isV6) <==> Takes(items[k], pkt, i, bufs, offset, isV6)
    {
      assert ItemReady(items[k], i, bufs, offset, isV6);
      TakesAnyway(items[k], pkt, i, bufs, offset, isV6, items[n].bufsIndex);
    }
  }

  /** The last item that takes the packet is the one it is merged into. */
  lemma {:induction false} LastTakerTakes(items: seq<TcpItem>, n: nat, k: nat, pkt: seq<byte>, i: nat, bufs: seq<Buf>,
                                          offset: nat, isV6: bool)
    requires k < n <= |items| && Searchable(items, pkt, i, bufs, offset, isV6)
    requires Takes(items[k], pkt, i, bufs, offset, isV6)
    requires forall j :: k < j < n ==> !Takes(items[j], pkt, i, bufs, offset, isV6)
    ensures ItemReady(items[k], i, bufs, offset, isV6)
    ensures |PktAt(bufs, offset, items[k].bufsIndex)| >= HeadersLen(pkt, isV6)
    ensures var found, b := SearchFlow(items, n, pkt, i, bufs, offset, isV6), items[k].bufsIndex;
            && found.ending == Merged && offset <= |found.bufs[b].bytes|
            && PktAt(found.bufs, offset, b) ==
               MergedPkt(Mode(items[k], pkt, i, bufs, offset, isV6), pkt, PktAt(bufs, offset, b), isV6)
    decreases n
  {
    hide TcpCandidate, PktAt, Usable, ChecksumValid, TcpPacketsCanCoalesce, CoalescedLen, WithHdr, MergedItem,
      MergedBufs, MergedPkt, Takes, Verdict, Mode;
    var item := items[n - 1];
    assert ItemReady(item, i, bufs, offset, isV6) && ItemReady(items[k], i, bufs, offset, isV6);
    var mode := Mode(item, pkt, i, bufs, offset, isV6);
    LastTakes(item, pkt, i, bufs, offset, isV6);
    LastTakes(items[k], pkt, i, bufs, offset, isV6);
    TakenHeaders(items[k], pkt, i, bufs, offset, isV6);
    TakenIsValid(items[k], pkt, i, bufs, offset, isV6);
    if n - 1 == k {
      MergeFits(mode, pkt, i, item, bufs, offset, isV6);
    } else if mode != Unavailable && Verdict(mode, pkt, i, item, bufs, offset, isV6) == ItemInvalidCSum {
      StillSearchable(items, n - 1, pkt, i, bufs, offset, isV6);
      TakersStay(items, n - 1, pkt, i, bufs, offset, isV6);
      ModeStays(items[k], pkt, i, bufs, offset, isV6, item.bufsIndex);
      LastTakerTakes(items[..n - 1] + items[n..], n - 1, k, pkt, i, WithHdr(bufs, offset, item.bufsIndex, DEFAULT_HDR),
                     offset, isV6);
    } else {
      LastTakerTakes(items, n - 1, k, pkt, i, bufs, offset, isV6);
    }
  }

  lemma TakenHeaders(item: TcpItem, pkt: seq<byte>, i: nat, bufs: seq<Buf>, offset: nat, isV6: bool)
    requires Takes(item, pkt, i, bufs, offset, isV6)
    ensures |PktAt(bufs, offset, item.bufsIndex)| >= HeadersLen(pkt, isV6)
  {
    hide TcpCandidate, ChecksumValid, TcpPacketsCanCoalesce, Verdict;
  }

  lemma ModeStays(item: TcpItem, pkt: seq<byte>, i: nat, bufs: seq<Buf>, offset: nat, isV6: bool, b: nat)
    requires TcpCandidate(pkt, isV6) && ItemReady(item, i, bufs, offset, isV6)
    requires b < |bufs| && VIRTIO_NET_HDR_LEN <= offset <= |bufs[b].bytes|
    ensures var bufs' := WithHdr(bufs, offset, b, DEFAULT_HDR);
            && ItemReady(item, i, bufs', offset, isV6)
            && Mode(item, pkt, i, bufs', offset, isV6) ==
               Mode(item, pkt, i, bufs, offset, isV6)
            && PktAt(bufs', offset, item.bufsIndex) == PktAt(bufs, offset, item.bufsIndex)
  {
    hide TcpCandidate, PktAt, Usable, TcpPacketsCanCoalesce;
    SamePktAt(bufs, WithHdr(bufs, offset, b, DEFAULT_HDR), offset, item.bufsIndex);
  }

  lemma LastTakes(item: TcpItem, pkt: seq<byte>, i: nat, bufs: seq<Buf>, offset: nat, isV6: bool)
    requires TcpCandidate(pkt, isV6) && ItemReady(item, i, bufs, offset, isV6)
    requires i < |bufs| && offset <= |bufs[i].bytes| && PktAt(bufs, offset, i) == pkt
    ensures var mode := Mode(item, pkt, i, bufs, offset, isV6);
            && (mode != Unavailable ==> Paired(pkt, i, item, bufs, offset, isV6))
            && (Takes(item, pkt, i, bufs, offset, isV6) <==>
                mode != Unavailable && Verdict(mode, pkt, i, item, bufs, offset, isV6) == Success)
            && (mode != Unavailable && Verdict(mode, pkt, i, item, bufs, offset, isV6) == PktInvalidCSum ==>
                  !ChecksumValid(pkt, IpLen(isV6), IPPROTO_TCP, isV6))
  {
    ModeMeansPaired(item, pkt, i, bufs, offset, isV6);
    hide TcpCandidate, PktAt, ChecksumValid, TcpPacketsCanCoalesce, CoalescedLen;
  }

  lemma TakenIsValid(item: TcpItem, pkt: seq<byte>, i: nat, bufs: seq<Buf>, offset: nat, isV6: bool)
    ensures Takes(item, pkt, i, bufs, offset, isV6) ==>
              |pkt| >= IpLen(isV6) && ChecksumValid(pkt, IpLen(isV6), IPPROTO_TCP, isV6)
  {
    hide TcpCandidate, PktAt, ChecksumValid, TcpPacketsCanCoalesce, CoalescedLen;
  }

  /** The merged packet and header space at both ends fit in the buffer. */
  predicate RoomFor(buf: Buf, offset: nat, target: seq<byte>, payload: seq<byte>) {
    2 * offset + |target| + |payload| <= buf.cap
  }

  /**
   p continues or precedes the members evenly, the merged packet has room, and all checksums involved
   are right; here is the buffer of the item, there that of p.
   */
  ghost predicate Welcome(p: seq<byte>, ms: seq<seq<byte>>, here: Buf, there: Buf, target: seq<byte>, offset: nat,
                          isV6: bool)
    requires TcpCandidate(p, isV6)
  {
    && (|| (WellGrouped(ms + [p], isV6) && RoomFor(here, offset, target, TcpPayload(p, isV6)))
        || (WellGrouped([p] + ms, isV6) && RoomFor(there, offset, target, TcpPayload(p, isV6))))
    && ChecksumValid(p, IpLen(isV6), IPPROTO_TCP, isV6)
    && (|ms| == 1 ==> |target| >= IpLen(isV6) && ChecksumValid(target, IpLen(isV6), IPPROTO_TCP, isV6))
  }

  /** An item takes a packet of its flow exactly when the packet is welcome among its members. */
  lemma TakesIff(item: TcpItem, ms: seq<seq<byte>>, p: seq<byte>, i: nat, bufs: seq<Buf>, offset: nat, isV6: bool)
    requires TcpCandidate(p, isV6) && ItemReady(item, i, bufs, offset, isV6) && KeyOf(p, isV6) == item.key
    requires TcpGroup(item, PktAt(bufs, offset, item.bufsIndex), ms, isV6)
    requires i < |bufs| && offset <= |bufs[i].bytes| && PktAt(bufs, offset, i) == p
    ensures Takes(item, p, i, bufs, offset, isV6) <==>
            Welcome(p, ms, bufs[item.bufsIndex], bufs[i], PktAt(bufs, offset, item.bufsIndex), offset, isV6)
  {
    hide TcpCandidate, PktAt, ChecksumValid, TcpPacketsCanCoalesce, WellGrouped, TcpGroup, Takes, Verdict, KeyOf,
      Paired;
    var target := PktAt(bufs, offset, item.bufsIndex);
    AppendIsExact(item, target, ms, p, isV6);
    PrependIsExact(item, target, ms, p, isV6);
    GroupPrepends(item, target, ms, p, isV6);
    GroRun.GroupSize(item, target, ms, isV6);
    TakesByMode(item, p, i, bufs, offset, isV6);
  }

  lemma TakesByMode(item: TcpItem, pkt: seq<byte>, i: nat, bufs: seq<Buf>, offset: nat, isV6: bool)
    requires TcpCandidate(pkt, isV6) && ItemReady(item, i, bufs, offset, isV6)
    requires i < |bufs| && offset <= |bufs[i].bytes| && PktAt(bufs, offset, i) == pkt
    ensures var b, target := item.bufsIndex, PktAt(bufs, offset, item.bufsIndex);
            var mode := Mode(item, pkt, i, bufs, offset, isV6);
            Takes(item, pkt, i, bufs, offset, isV6) <==>
            && mode != Unavailable && !(mode == Prepend && Psh(pkt, isV6))
            && RoomFor(bufs[if mode == Prepend then i else b], offset, target, TcpPayload(pkt, isV6))
            && ChecksumValid(pkt, IpLen(isV6), IPPROTO_TCP, isV6)
            && (item.numMerged == 0 ==> ChecksumValid(target, IpLen(isV6), IPPROTO_TCP, isV6))
  {
    ModeMeansPaired(item, pkt, i, bufs, offset, isV6);
    hide TcpCandidate, PktAt, ChecksumValid, TcpPacketsCanCoalesce;
  }

  lemma GroupPrepends(item: TcpItem, target: seq<byte>, ms: seq<seq<byte>>, p: seq<byte>, isV6: bool)
    requires TcpGroup(item, target, ms, isV6) && TcpCandidate(p, isV6)
    ensures WellGrouped([p] + ms, isV6) ==> !Psh(p, isV6)
  {
    PrependedRun(p, ms, isV6);
    hide TcpCandidate, Contiguous, Even, OneStream;
  }

  // ----- UDP -----

  /** p continues the members evenly, the merged packet has room in the buffer, and all checksums involved are right. */
  ghost predicate UdpWelcome(p: seq<byte>, ms: seq<seq<byte>>, here: Buf, target: seq<byte>, offset: nat, isV6: bool)
    requires UdpCandidate(p, isV6)
  {
    && UdpWellGrouped(ms + [p], isV6)
    && RoomFor(here, offset, target, UdpPayload(p, isV6))
    && ChecksumValid(p, IpLen(isV6), IPPROTO_UDP, isV6)
    && (|ms| == 1 ==> UdpCandidate(ms[0], isV6) && ChecksumValid(ms[0], IpLen(isV6), IPPROTO_UDP, isV6))
  }

  /** A datagram goes behind its flow's last item exactly when it is welcome among the item's members. */
  lemma MergesUdpIff(items: seq<UdpItem>, ms: seq<seq<byte>>, p: seq<byte>, i: nat, bufs: seq<Buf>, offset: nat,
                     isV6: bool)
    requires items != [] && UdpReady(items[|items| - 1], p, i, bufs, offset, isV6)
    requires UdpKeyOf(p, isV6) == items[|items| - 1].key
    requires UdpGroup(items[|items| - 1], PktAt(bufs, offset, items[|items| - 1].bufsIndex), ms, isV6)
    ensures var b := items[|items| - 1].bufsIndex;
            MergesUdp(items, p, i, bufs, offset, isV6) <==>
            UdpWelcome(p, ms, bufs[b], PktAt(bufs, offset, b), offset, isV6)
  {
    hide ChecksumValid, UdpCandidate, UdpPacketsCanCoalesce, PktAt, UdpKeyOf, UdpGroup, UdpWellGrouped;
    var last := items[|items| - 1];
    UdpAppendIsExact(last, PktAt(bufs, offset, last.bufsIndex), ms, p, isV6);
    UdpFirstMember(last, PktAt(bufs, offset, last.bufsIndex), ms, isV6);
  }

  /** A datagram is stored as known to be corrupt exactly when only its own checksum kept it from being merged. */
  lemma FoundInvalidIff(items: seq<UdpItem>, ms: seq<seq<byte>>, p: seq<byte>, i: nat, bufs: seq<Buf>, offset: nat,
                        isV6: bool)
    requires items != [] && UdpReady(items[|items| - 1], p, i, bufs, offset, isV6)
    requires UdpKeyOf(p, isV6) == items[|items| - 1].key
    requires UdpGroup(items[|items| - 1], PktAt(bufs, offset, items[|items| - 1].bufsIndex), ms, isV6)
    ensures UdpCandidate(ms[0], isV6)
    ensures var b := items[|items| - 1].bufsIndex;
            FoundInvalid(items, p, i, bufs, offset, isV6) <==>
            && UdpWellGrouped(ms + [p], isV6) && RoomFor(bufs[b], offset, PktAt(bufs, offset, b), UdpPayload(p, isV6))
            && (|ms| == 1 ==> ChecksumValid(ms[0], IpLen(isV6), IPPROTO_UDP, isV6))
            && !ChecksumValid(p, IpLen(isV6), IPPROTO_UDP, isV6)
  {
    hide ChecksumValid, UdpCandidate, UdpPacketsCanCoalesce, PktAt, UdpKeyOf, UdpGroup, UdpWellGrouped;
    var last := items[|items| - 1];
    UdpAppendIsExact(last, PktAt(bufs, offset, last.bufsIndex), ms, p, isV6);
    UdpFirstMember(last, PktAt(bufs, offset, last.bufsIndex), ms, isV6);
  }

  lemma UdpFirstMember(item: UdpItem, target: seq<byte>, ms: seq<seq<byte>>, isV6: bool)
    requires UdpGroup(item, target, ms, isV6)
    ensures |ms| == item.numMerged + 1 && UdpCandidate(ms[0], isV6) && item.iphLen == IpLen(isV6)
    ensures |ms| == 1 ==> target == ms[0]
    ensures item.cSumKnownInvalid ==> |ms| == 1 && !ChecksumValid(ms[0], IpLen(isV6), IPPROTO_UDP, isV6)
  {
    hide ChecksumValid, UdpCandidate, UdpKeyOf;
  }
}
