/** coalesce_tcp_packets: merging one segment into an item's buffer, behind it or in front of it. */
module TcpCoalesce {
  import opened Bytes
  import opened Packet
  import opened Buffers
  import opened Tcp
  import opened TcpItem
  import opened Ledger

  /** pkt sits in buffer i and the item's packet, of the same header length, in another one. */
  ghost predicate Paired(pkt: seq<byte>, i: nat, item: TcpItem, bufs: seq<Buf>, offset: nat, isV6: bool) {
    && i < |bufs| && item.bufsIndex < |bufs| && item.bufsIndex != i
    && offset <= |bufs[i].bytes| && offset <= |bufs[item.bufsIndex].bytes|
    && TcpCandidate(pkt, isV6) && PktAt(bufs, offset, i) == pkt
    && Usable(item, PktAt(bufs, offset, item.bufsIndex), isV6)
    && item.tcphLen == TcpHdrLen(pkt, isV6) && item.numMerged < 0xFFFF
  }

  /** The length of the merged packet. */
  function CoalescedLen(pkt: seq<byte>, item: TcpItem, target: seq<byte>, isV6: bool): nat
    requires TcpCandidate(pkt, isV6) && Usable(item, target, isV6)
  {
    |target| + |pkt| - HeadersLen(pkt, isV6)
  }

  /** The result code of coalesce_tcp_packets. */
  ghost function Verdict(mode: CanCoalesce, pkt: seq<byte>, i: nat, item: TcpItem, bufs: seq<Buf>, offset: nat,
                         isV6: bool): (r: CoalesceResult)
    requires Paired(pkt, i, item, bufs, offset, isV6)
    ensures r == ItemInvalidCSum ==> item.numMerged == 0
  {
    var target := PktAt(bufs, offset, item.bufsIndex);
    var grown := if mode == Prepend then i else item.bufsIndex;
    if bufs[grown].cap < 2 * offset + CoalescedLen(pkt, item, target, isV6) then InsufficientCap
    else if mode == Prepend && Psh(pkt, isV6) then PSHEnding
    else if item.numMerged == 0 && !ChecksumValid(target, item.iphLen, IPPROTO_TCP, isV6) then ItemInvalidCSum
    else if !ChecksumValid(pkt, item.iphLen, IPPROTO_TCP, isV6) then PktInvalidCSum
    else Success
  }

  /** The packet that results from a merge. */
  ghost function MergedPkt(mode: CanCoalesce, pkt: seq<byte>, target: seq<byte>, isV6: bool): seq<byte>
    requires TcpCandidate(pkt, isV6) && |target| >= HeadersLen(pkt, isV6)
  {
    var flagsAt := IpLen(isV6) + TCP_FLAGS_OFFSET;
    if mode == Prepend then pkt + target[HeadersLen(pkt, isV6)..]
    else (if Psh(pkt, isV6) then target[flagsAt := SetPsh(target[flagsAt])] else target) + TcpPayload(pkt, isV6)
  }

  ghost function MergedItem(mode: CanCoalesce, pkt: seq<byte>, item: TcpItem, isV6: bool): TcpItem
    requires TcpCandidate(pkt, isV6) && item.numMerged < 0xFFFF
  {
    var gsoSize := |TcpPayload(pkt, isV6)|;
    item.(sentSeq := if mode == Prepend then SeqNo(pkt, isV6) else item.sentSeq,
          pshSet := item.pshSet || (mode != Prepend && Psh(pkt, isV6)),
          gsoSize := if gsoSize > item.gsoSize then gsoSize else item.gsoSize,
          numMerged := item.numMerged + 1)
  }

  /** A prepending merge trades the two buffers, so that the merged packet is where the item's was. */
  ghost function MergedBufs(mode: CanCoalesce, pkt: seq<byte>, i: nat, item: TcpItem, bufs: seq<Buf>, offset: nat,
                            isV6: bool): seq<Buf>
    requires Paired(pkt, i, item, bufs, offset, isV6)
  {
    var b := item.bufsIndex;
    var merged := MergedPkt(mode, pkt, PktAt(bufs, offset, b), isV6);
    if mode == Prepend then bufs[b := bufs[i].(bytes := bufs[i].bytes[..offset] + merged)][i := bufs[b]]
    else bufs[b := bufs[b].(bytes := bufs[b].bytes[..offset] + merged)]
  }

  /** coalesce_tcp_packets. */
  method CoalesceTcpPackets(mode: CanCoalesce, pkt: seq<byte>, i: nat, gsoSize: u16, seqNo: u32, pshSet: bool,
                            item0: TcpItem, bufs: array<Buf>, offset: nat, isV6: bool)
    returns (r: CoalesceResult, item: TcpItem)
    requires Paired(pkt, i, item0, bufs[..], offset, isV6) && WithinCapacity(bufs[..])
    requires gsoSize == |TcpPayload(pkt, isV6)| && seqNo == SeqNo(pkt, isV6) && pshSet == Psh(pkt, isV6)
    modifies bufs
    ensures r == Verdict(mode, pkt, i, item0, old(bufs[..]), offset, isV6)
    ensures r == Success ==> item == MergedItem(mode, pkt, item0, isV6)
                             && bufs[..] == MergedBufs(mode, pkt, i, item0, old(bufs[..]), offset, isV6)
    ensures r != Success ==> item == item0 && bufs[..] == old(bufs[..])
    ensures WithinCapacity(bufs[..])
  {
    hide ChecksumValid, KeyOf, SeqNo, TcpCandidate, MergedPkt, MergedBufs;
    item := item0;
    var b := item.bufsIndex;
    var headersLen := item.iphLen as int + item.tcphLen as int;
    var coalescedLen := |bufs[b].bytes[offset..]| + |pkt| - headersLen;
    if mode == Prepend {
      if bufs[i].cap < 2 * offset + coalescedLen { return InsufficientCap, item; }
      if pshSet { return PSHEnding, item; }
      if item.numMerged == 0 && !ChecksumValid(bufs[b].bytes[offset..], item.iphLen, IPPROTO_TCP, isV6) {
        return ItemInvalidCSum, item;
      }
      if !ChecksumValid(pkt, item.iphLen, IPPROTO_TCP, isV6) { return PktInvalidCSum, item; }
      item := item.(sentSeq := seqNo);
      PrependInPlace(pkt, i, item0, bufs, offset, isV6, headersLen, coalescedLen - |pkt|);
    } else {
      if bufs[b].cap < 2 * offset + coalescedLen { return InsufficientCap, item; }
      if item.numMerged == 0 && !ChecksumValid(bufs[b].bytes[offset..], item.iphLen, IPPROTO_TCP, isV6) {
        return ItemInvalidCSum, item;
      }
      if !ChecksumValid(pkt, item.iphLen, IPPROTO_TCP, isV6) { return PktInvalidCSum, item; }
      if pshSet {
        item := item.(pshSet := pshSet);
      }
      AppendInPlace(mode, pkt, i, item0, bufs, offset, isV6, headersLen, pshSet);
    }
    if gsoSize > item.gsoSize {
      item := item.(gsoSize := gsoSize);
    }
    item := item.(numMerged := item.numMerged + 1);
    return Success, item;
  }

  /** The buffer work of a prepending merge: grow the packet's buffer, copy the item's payload behind it, swap. */
  method PrependInPlace(pkt: seq<byte>, i: nat, item: TcpItem, bufs: array<Buf>, offset: nat, isV6: bool,
                        headersLen: nat, extendBy: nat)
    requires Paired(pkt, i, item, bufs[..], offset, isV6) && WithinCapacity(bufs[..])
    requires headersLen == HeadersLen(pkt, isV6) && extendBy == |PktAt(bufs[..], offset, item.bufsIndex)| - headersLen
    requires |bufs[i].bytes| + extendBy <= bufs[i].cap
    modifies bufs
    ensures bufs[..] == MergedBufs(Prepend, pkt, i, item, old(bufs[..]), offset, isV6)
    ensures WithinCapacity(bufs[..])
  {
    hide ChecksumValid, KeyOf, SeqNo, TcpCandidate;
    ghost var was := bufs[..];
    var b := item.bufsIndex;
    var len := |bufs[i].bytes|;
    bufs[i] := Grow(bufs[i], len + extendBy, 0);
    var src := bufs[b].bytes[offset + headersLen..offset + headersLen + extendBy];
    bufs[i] := bufs[i].(bytes := Splice(bufs[i].bytes, offset + |pkt|, src));
    assert bufs[i].bytes == was[i].bytes[..offset] + (pkt + was[b].bytes[offset..][headersLen..]);
    bufs[b], bufs[i] := bufs[i], bufs[b];
  }

  /** The buffer work of an appending merge: carry PSH over into the header, then extend. */
  method AppendInPlace(mode: CanCoalesce, pkt: seq<byte>, i: nat, item: TcpItem, bufs: array<Buf>, offset: nat,
                       isV6: bool, headersLen: nat, pshSet: bool)
    requires mode != Prepend && Paired(pkt, i, item, bufs[..], offset, isV6) && WithinCapacity(bufs[..])
    requires headersLen == HeadersLen(pkt, isV6) && pshSet == Psh(pkt, isV6)
    requires |bufs[item.bufsIndex].bytes| + |pkt| - headersLen <= bufs[item.bufsIndex].cap
    modifies bufs
    ensures bufs[..] == MergedBufs(mode, pkt, i, item, old(bufs[..]), offset, isV6)
    ensures WithinCapacity(bufs[..])
  {
    hide ChecksumValid, KeyOf, SeqNo, TcpCandidate;
    ghost var was := bufs[..];
    var b := item.bufsIndex;
    if pshSet {
      var flagsAt := offset + item.iphLen as int + TCP_FLAGS_OFFSET;
      bufs[b] := bufs[b].(bytes := bufs[b].bytes[flagsAt := SetPsh(bufs[b].bytes[flagsAt])]);
    }
    bufs[b] := Extend(bufs[b], pkt[headersLen..]);
    assert bufs[b].bytes == was[b].bytes[..offset] + MergedPkt(mode, pkt, PktAt(was, offset, b), isV6);
  }

  // ----- A merge keeps the group -----

  lemma AppendedHeaders(item: TcpItem, target: seq<byte>, m: seq<byte>, p: seq<byte>, isV6: bool)
    requires TcpCandidate(m, isV6) && TcpCandidate(p, isV6) && HeadersLen(p, isV6) == HeadersLen(m, isV6)
    requires |target| >= HeadersLen(m, isV6) && item.numMerged < 0xFFFF
    requires !item.pshSet && HeadersFrom(target, m, item.pshSet, isV6)
    ensures HeadersFrom(MergedPkt(Append, p, target, isV6), m, MergedItem(Append, p, item, isV6).pshSet, isV6)
  {}

  lemma AppendKeepsGroup(item: TcpItem, target: seq<byte>, ms: seq<seq<byte>>, p: seq<byte>, isV6: bool)
    requires TcpGroup(item, target, ms, isV6) && TcpCandidate(p, isV6) && item.numMerged < 0xFFFF
    requires WellGrouped(ms + [p], isV6)
    requires ChecksumValid(p, IpLen(isV6), IPPROTO_TCP, isV6)
    requires item.numMerged == 0 ==> ChecksumValid(ms[0], IpLen(isV6), IPPROTO_TCP, isV6)
    ensures |target| >= HeadersLen(p, isV6)
    ensures TcpGroup(MergedItem(Append, p, item, isV6), MergedPkt(Append, p, target, isV6), ms + [p], isV6)
  {
    hide ChecksumValid, KeyOf, SeqNo, Contiguous, Even, SameStream, TcpCandidate, HeadersFrom;
    AppendedRun(ms, p, isV6);
    var r := ms + [p];
    SameStreamKey(ms[0], p, isV6);
    AppendedHeaders(item, target, ms[0], p, isV6);
    assert r[0] == ms[0] && r[|r| - 1] == p;
    assert TcpPayloads(r, isV6) == TcpPayloads(ms, isV6) + [TcpPayload(p, isV6)];
    ConcatAppend(TcpPayloads(ms, isV6), TcpPayload(p, isV6));
    var hl, merged := HeadersLen(ms[0], isV6), MergedPkt(Append, p, target, isV6);
    assert merged[hl..] == target[hl..] + TcpPayload(p, isV6);
  }

  lemma PrependKeepsGroup(item: TcpItem, target: seq<byte>, ms: seq<seq<byte>>, p: seq<byte>, isV6: bool)
    requires TcpGroup(item, target, ms, isV6) && TcpCandidate(p, isV6) && item.numMerged < 0xFFFF
    requires WellGrouped([p] + ms, isV6)
    requires ChecksumValid(p, IpLen(isV6), IPPROTO_TCP, isV6)
    requires item.numMerged == 0 ==> ChecksumValid(ms[0], IpLen(isV6), IPPROTO_TCP, isV6)
    ensures |target| >= HeadersLen(p, isV6)
    ensures TcpGroup(MergedItem(Prepend, p, item, isV6), MergedPkt(Prepend, p, target, isV6), [p] + ms, isV6)
  {
    hide ChecksumValid, KeyOf, SeqNo, Contiguous, Even, SameStream, TcpCandidate;
    PrependedRun(p, ms, isV6);
    var r := [p] + ms;
    SameStreamKey(ms[0], p, isV6);
    assert r[0] == p && r[1] == ms[0] && r[|r| - 1] == ms[|ms| - 1];
    assert TcpPayloads(r, isV6) == [TcpPayload(p, isV6)] + TcpPayloads(ms, isV6);
    ConcatPrepend(TcpPayload(p, isV6), TcpPayloads(ms, isV6));
    var hl, merged := HeadersLen(p, isV6), MergedPkt(Prepend, p, target, isV6);
    assert merged[..hl] == p[..hl] && merged[hl..] == TcpPayload(p, isV6) + target[hl..];
  }

  /** A prepend puts a header without PSH in front, also when the last member has PSH and the item remembers it. */
  lemma PrependLosesPsh(item: TcpItem, target: seq<byte>, p: seq<byte>, isV6: bool)
    requires TcpCandidate(p, isV6) && Usable(item, target, isV6) && item.numMerged < 0xFFFF
    requires TcpPacketsCanCoalesce(p, isV6, item, target) == Prepend
    ensures |target| >= HeadersLen(p, isV6)
    ensures MergedPkt(Prepend, p, target, isV6)[IpLen(isV6) + TCP_FLAGS_OFFSET] == TCP_FLAG_ACK
    ensures MergedItem(Prepend, p, item, isV6).pshSet == item.pshSet
  {
    assert p[IpLen(isV6) + TCP_FLAGS_OFFSET] == Flags(p, isV6);
  }
}
