/** A table item, the packet it stands for, and the decision whether one more segment fits. */
module TcpItem {
  import opened Bytes
  import opened Packet
  import opened Tcp
  import opened Buffers

  datatype TcpItem = TcpItem(key: TcpFlowKey, sentSeq: u32, bufsIndex: u16, numMerged: u16, gsoSize: u16,
                             iphLen: byte, tcphLen: byte, pshSet: bool)

  /** What the code relies on when it looks at an item and the packet in its buffer. */
  predicate Usable(item: TcpItem, target: seq<byte>, isV6: bool) {
    && item.iphLen == IpLen(isV6) && 20 <= item.tcphLen <= 60 && item.gsoSize > 0
    && |target| >= item.iphLen as int + item.tcphLen as int
  }

  /** The item that TcpGROTable::insert makes. */
  function NewItem(pkt: seq<byte>, isV6: bool, bufsIndex: u16): TcpItem
    requires TcpCandidate(pkt, isV6)
  {
    TcpItem(KeyOf(pkt, isV6), SeqNo(pkt, isV6), bufsIndex, 0, |TcpPayload(pkt, isV6)|,
            IpLen(isV6), TcpHdrLen(pkt, isV6), HasPsh(Flags(pkt, isV6)))
  }

  /** tcp_packets_can_coalesce. */
  function TcpPacketsCanCoalesce(pkt: seq<byte>, isV6: bool, item: TcpItem, target: seq<byte>): CanCoalesce
    requires TcpCandidate(pkt, isV6) && Usable(item, target, isV6)
  {
    var iphLen, tcphLen, gsoSize := IpLen(isV6), TcpHdrLen(pkt, isV6), |TcpPayload(pkt, isV6)|;
    if tcphLen != item.tcphLen then Unavailable
    else if tcphLen > 20 && pkt[iphLen + 20..iphLen + tcphLen] !=
         target[item.iphLen as int + 20..item.iphLen as int + tcphLen] then
      Unavailable
    else if !IpHeadersCanCoalesce(pkt, target) then Unavailable
    else
      var lhsLen := item.gsoSize as int + item.numMerged as int * item.gsoSize as int;
      if SeqNo(pkt, isV6) == (item.sentSeq + lhsLen) % 0x1_0000_0000 then
        if item.pshSet then Unavailable
        else if |target[iphLen + tcphLen..]| % item.gsoSize != 0 then Unavailable
        else if gsoSize > item.gsoSize then Unavailable
        else Append
      else if (SeqNo(pkt, isV6) + gsoSize) % 0x1_0000_0000 == item.sentSeq then
        if Psh(pkt, isV6) then Unavailable
        else if gsoSize < item.gsoSize then Unavailable
        else if gsoSize > item.gsoSize && item.numMerged > 0 then Unavailable
        else Prepend
      else Unavailable
  }

  // ----- What an item stands for -----

  /** target has m's headers, except that PSH may have been added for a later member. */
  ghost predicate HeadersFrom(target: seq<byte>, m: seq<byte>, pshSet: bool, isV6: bool)
    requires TcpCandidate(m, isV6) && |target| >= HeadersLen(m, isV6)
  {
    var flagsAt := IpLen(isV6) + TCP_FLAGS_OFFSET;
    && (forall at :: 0 <= at < HeadersLen(m, isV6) && at != flagsAt ==> target[at] == m[at])
    && (target[flagsAt] == m[flagsAt] || (pshSet && target[flagsAt] == SetPsh(m[flagsAt])))
  }

  /**
   The item and the packet in its buffer describe the members ms: the members are well grouped, the
   item's fields are those of the first and last member, the packet is the first member's headers
   followed by all payloads, and once anything has been merged every member had a valid checksum.
   */
  ghost predicate TcpGroup(item: TcpItem, target: seq<byte>, ms: seq<seq<byte>>, isV6: bool) {
    && WellGrouped(ms, isV6) && |ms| == item.numMerged + 1
    && item.key == KeyOf(ms[0], isV6)
    && item.iphLen == IpLen(isV6) && item.tcphLen == TcpHdrLen(ms[0], isV6)
    && item.gsoSize == |TcpPayload(ms[0], isV6)|
    && item.sentSeq == SeqNo(ms[0], isV6)
    && (item.pshSet <==> Psh(ms[|ms| - 1], isV6))
    && |target| >= HeadersLen(ms[0], isV6)
    && HeadersFrom(target, ms[0], item.pshSet, isV6)
    && target[HeadersLen(ms[0], isV6)..] == Concat(TcpPayloads(ms, isV6))
    && (|ms| == 1 ==> target == ms[0])
    && (|ms| > 1 ==> forall k :: 0 <= k < |ms| ==> ChecksumValid(ms[k], IpLen(isV6), IPPROTO_TCP, isV6))
  }

  lemma GroupIsUsable(item: TcpItem, target: seq<byte>, ms: seq<seq<byte>>, isV6: bool)
    requires TcpGroup(item, target, ms, isV6)
    ensures Usable(item, target, isV6)
  {
    hide ChecksumValid, KeyOf, SameStream;
  }

  lemma NewGroup(pkt: seq<byte>, isV6: bool, bufsIndex: u16)
    requires TcpCandidate(pkt, isV6)
    ensures TcpGroup(NewItem(pkt, isV6, bufsIndex), pkt, [pkt], isV6)
  {
    hide ChecksumValid, KeyOf, SeqNo, SameStream;
    SameStreamSymmetric(pkt, pkt, isV6);
    var ms := [pkt];
    assert TcpPayloads(ms, isV6)[1..] == [];
    assert Concat(TcpPayloads(ms, isV6)) == TcpPayload(pkt, isV6);
  }

  // ----- The decision is exact -----

  /** The header comparisons decide whether p belongs to the members' stream. */
  lemma HeaderTestsDecideStream(item: TcpItem, target: seq<byte>, ms: seq<seq<byte>>, p: seq<byte>, isV6: bool)
    requires TcpGroup(item, target, ms, isV6) && TcpCandidate(p, isV6) && KeyOf(p, isV6) == item.key
    ensures Usable(item, target, isV6)
    ensures SameStream(ms[0], p, isV6) <==>
            var tcphLen := TcpHdrLen(p, isV6);
            && tcphLen == item.tcphLen
            && (tcphLen > 20 ==>
                  (p[IpLen(isV6) + 20..IpLen(isV6) + tcphLen] == target[IpLen(isV6) + 20..IpLen(isV6) + tcphLen]))
            && IpHeadersCanCoalesce(p, target)
  {
    hide ChecksumValid, KeyOf, SeqNo, Contiguous, Even;
    GroupIsUsable(item, target, ms, isV6);
    var m, lo, hi := ms[0], IpLen(isV6) + 20, HeadersLen(ms[0], isV6);
    SameSlice(target, m, lo, hi);
    assert IpHeadersCanCoalesce(p, target) == IpHeadersCanCoalesce(p, m);
    assert IpHeadersCanCoalesce(p, m) == IpHeadersCanCoalesce(m, p);
  }

  /** n - 1 pieces of size g and a last one of at most g add up to a multiple of g only if the last is full. */
  lemma MultipleIffLastFull(n: nat, g: nat, last: nat)
    requires 1 <= last <= g
    ensures (n * g + last) % g == 0 <==> last == g
  {
    if last == g {
      Distribute(n, g);
      MultipleOf(n + 1, g);
    } else if (n * g + last) % g == 0 {
      MultipleOf(n, g);
      var q := (n * g + last) / g;
      assert q * g == n * g + last;
      if q <= n { MulMono(q, n, g); } else { MulMono(n + 1, q, g); Distribute(n, g); }
    }
  }

  lemma MultipleOf(n: nat, g: nat)
    requires g > 0
    ensures n * g % g == 0
  {
    var q, r := n * g / g, n * g % g;
    assert q * g + r == n * g;
    if q < n {
      MulMono(q + 1, n, g);
      Distribute(q, g);
    } else if q > n {
      MulMono(n + 1, q, g);
      Distribute(n, g);
    }
  }

  /** The payload in the buffer, and where its members' sequence numbers end. */
  lemma GroupExtent(item: TcpItem, target: seq<byte>, ms: seq<seq<byte>>, isV6: bool)
    requires TcpGroup(item, target, ms, isV6)
    ensures var g, last := item.gsoSize as int, |TcpPayload(ms[|ms| - 1], isV6)|;
            && |target| - HeadersLen(ms[0], isV6) == item.numMerged * g + last && 1 <= last <= g
            && ((|target| - HeadersLen(ms[0], isV6)) % g == 0 <==> last == g)
            && SeqNo(ms[|ms| - 1], isV6) == (item.sentSeq + item.numMerged * g) % 0x1_0000_0000
  {
    hide ChecksumValid, KeyOf, SameStream, TcpCandidate, HeadersLen;
    RunIsUniform(ms, isV6);
    CutConcat(TcpPayloads(ms, isV6), item.gsoSize, 0);
    MultipleIffLastFull(item.numMerged, item.gsoSize, |TcpPayload(ms[|ms| - 1], isV6)|);
    SeqNoAt(ms, isV6, |ms| - 1);
  }

  /** A segment is appended exactly when the members followed by it are well grouped. */
  lemma AppendIsExact(item: TcpItem, target: seq<byte>, ms: seq<seq<byte>>, p: seq<byte>, isV6: bool)
    requires TcpGroup(item, target, ms, isV6) && TcpCandidate(p, isV6) && KeyOf(p, isV6) == item.key
    ensures Usable(item, target, isV6)
    ensures TcpPacketsCanCoalesce(p, isV6, item, target) == Append <==> WellGrouped(ms + [p], isV6)
  {
    hide ChecksumValid, KeyOf, SeqNo, SameStream, IpHeadersCanCoalesce, TcpCandidate, WellGrouped, HeadersFrom,
      TcpPayloads, Concat;
    HeaderTestsDecideStream(item, target, ms, p, isV6);
    GroupExtent(item, target, ms, isV6);
    AppendedRun(ms, p, isV6);
    var g := item.gsoSize;
    ModAdd(item.sentSeq + item.numMerged * g, g);
  }

  /** No segment can both follow and precede a group: the sequence space is too large for that. */
  lemma NotBothSides(seqNo: u32, sentSeq: u32, len: nat, members: nat, g: nat)
    requires seqNo == (sentSeq + members * g) % 0x1_0000_0000
    requires 1 <= len <= 0xFFFF && members <= 0xFFFF && g <= 0xFFFF
    ensures (seqNo + len) % 0x1_0000_0000 != sentSeq
  {
    var span := members * g;
    MulMono(members, 0xFFFF, g);
    assert span <= 0xFFFF * 0xFFFF;
    ModAdd(sentSeq + span, len);
  }

  /** A segment is prepended exactly when the members preceded by it are well grouped. */
  lemma PrependIsExact(item: TcpItem, target: seq<byte>, ms: seq<seq<byte>>, p: seq<byte>, isV6: bool)
    requires TcpGroup(item, target, ms, isV6) && TcpCandidate(p, isV6) && KeyOf(p, isV6) == item.key
    requires item.numMerged < 0xFFFF
    ensures Usable(item, target, isV6)
    ensures TcpPacketsCanCoalesce(p, isV6, item, target) == Prepend <==> WellGrouped([p] + ms, isV6)
  {
    hide ChecksumValid, KeyOf, SeqNo, SameStream, IpHeadersCanCoalesce, TcpCandidate, WellGrouped;
    HeaderTestsDecideStream(item, target, ms, p, isV6);
    PrependedRun(p, ms, isV6);
    var g, n := item.gsoSize as int, item.numMerged as int + 1;
    Distribute(item.numMerged, g);
    if SeqNo(p, isV6) == (item.sentSeq + n * g) % 0x1_0000_0000 {
      NotBothSides(SeqNo(p, isV6), item.sentSeq, |TcpPayload(p, isV6)|, n, g);
    }
  }
}
