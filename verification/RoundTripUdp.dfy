/** Merging undone by splitting, for UDP: a finished frame, read back, yields its datagrams again. */
module RoundTripUdp {
  import opened Bytes
  import opened Packet
  import opened Gso
  import opened Udp
  import opened UdpTable
  import opened UdpBook
  import opened Accounting
  import opened VirtioRead
  import opened RoundTrip
  import opened Wire
  import GroRun

  /**
   s carries the same datagram as m, with the same addresses, ports and IP fields: only the IP id and the like may
   differ. Its lengths are exact and its checksums verify.
   */
  ghost predicate SameDatagram(s: seq<byte>, m: seq<byte>, isV6: bool) {
    && UdpCandidate(m, isV6) && UdpCandidate(s, isV6)
    && SameUdpBytes(m, s, isV6)
    && Be16(s, IpLen(isV6) + 4) == |s| - IpLen(isV6)
    && Verifies(s, IpLen(isV6), 17, isV6) && (!isV6 ==> IpHeaderValid(s, 20))
  }

  // ----- Packets with the same headers -----

  /** Bytes of the headers that nobody writes. */
  predicate SteadyUdp(isV6: bool, j: nat) {
    j < UdpHeaders(isV6) && !IpVolatile(isV6, j) && !(IpLen(isV6) + 4 <= j < IpLen(isV6) + 8)
  }

  ghost predicate AlikeUdp(s: seq<byte>, m: seq<byte>, isV6: bool) {
    && UdpHeaders(isV6) < |s| <= 0xFFFF && UdpHeaders(isV6) < |m| && IpLengthExact(s, isV6)
    && (forall k :: 0 <= k < UdpHeaders(isV6) && SteadyUdp(isV6, k) ==> s[k] == m[k])
  }

  lemma AlikeIsUdpCandidate(s: seq<byte>, m: seq<byte>, isV6: bool)
    requires UdpCandidate(m, isV6) && AlikeUdp(s, m, isV6)
    ensures UdpCandidate(s, isV6)
  {
    assert s[0] == m[0] && s[6] == m[6] && s[7] == m[7] && s[9] == m[9];
  }

  lemma AlikeIsSameUdpStream(s: seq<byte>, m: seq<byte>, isV6: bool)
    requires UdpCandidate(m, isV6) && UdpCandidate(s, isV6) && AlikeUdp(s, m, isV6)
    ensures SameUdpStream(m, s, isV6)
  {
    var at, a := IpLen(isV6), SrcAddrAt(isV6);
    hide UdpCandidate;
    SameSlice(s, m, a, a + AddrLen(isV6));
    SameSlice(s, m, a + AddrLen(isV6), a + AddrLen(isV6) * 2);
    assert Be16(s, at) == Be16(m, at) && Be16(s, at + 2) == Be16(m, at + 2);
    assert s[0] == m[0] && s[1] == m[1] && s[6] == m[6] && s[7] == m[7] && s[8] == m[8];
  }

  // ----- The frame that accounting writes -----

  /** What a group says about the headers in its buffer. */
  lemma UdpGroupHeaders(item: UdpItem, target: seq<byte>, ms: seq<seq<byte>>, isV6: bool)
    requires UdpGroup(item, target, ms, isV6)
    ensures UdpCandidate(ms[0], isV6) && UdpHeaders(isV6) < |target| && item.iphLen == IpLen(isV6) && item.gsoSize > 0
    ensures item.key.isV6 == isV6
    ensures forall k :: 0 <= k < UdpHeaders(isV6) ==> target[k] == ms[0][k]
    ensures target[UdpHeaders(isV6)..] == Concat(UdpPayloads(ms, isV6))
  {
    UdpGroupExtent(item, target, ms, isV6);
    GroRun.UdpKeyVersion(ms[0], isV6);
    hide ChecksumValid, SameUdpStream, UdpCandidate, EvenSized, UdpKeyOf;
    forall k | 0 <= k < UdpHeaders(isV6) ensures target[k] == ms[0][k] {
      assert target[..UdpHeaders(isV6)][k] == ms[0][..UdpHeaders(isV6)][k];
    }
  }

  /** p has m's headers up to fields that accounting writes. */
  ghost predicate UdpHeadersOf(p: seq<byte>, m: seq<byte>, isV6: bool) {
    && UdpHeaders(isV6) < |p| && UdpHeaders(isV6) < |m|
    && forall k :: 0 <= k < UdpHeaders(isV6) && SteadyUdp(isV6, k) ==> p[k] == m[k]
  }

  lemma UdpFinishedRest(target: seq<byte>, isV6: bool)
    requires |target| >= UdpHeaders(isV6)
    ensures var p, hl := UdpFinished(target, isV6), UdpHeaders(isV6);
            p[hl..] == target[hl..] && forall k :: 0 <= k < hl && SteadyUdp(isV6, k) ==> p[k] == target[k]
  {
    hide UdpFinished;
    var p, hl := UdpFinished(target, isV6), UdpHeaders(isV6);
    forall k | 0 <= k < |target| && (k < hl ==> SteadyUdp(isV6, k)) ensures p[k] == target[k] {
      UdpFinishedKeeps(target, isV6, k);
    }
    SameSlice(p, target, hl, |p|);
    assert p[hl..] == p[hl..|p|] && target[hl..] == target[hl..|p|];
  }

  lemma UdpFinishedBytes(item: UdpItem, target: seq<byte>, ms: seq<seq<byte>>, isV6: bool)
    requires UdpGroup(item, target, ms, isV6)
    ensures |target| > UdpHeaders(isV6)
    ensures var p := UdpFinished(target, isV6);
            UdpHeadersOf(p, ms[0], isV6) && p[UdpHeaders(isV6)..] == Concat(UdpPayloads(ms, isV6))
  {
    UdpGroupHeaders(item, target, ms, isV6);
    hide UdpGroup, UdpFinished, UdpPayloads, UdpCandidate, SteadyUdp;
    UdpFinishedRest(target, isV6);
  }

  /** The shape of the header written for a UDP item. */
  predicate UdpShape(h: VirtioHdr, isV6: bool) {
    h.csumStart == IpLen(isV6) && h.csumOffset == 6 && h.gsoSize > 0
    && h.gsoType == VIRTIO_NET_HDR_GSO_UDP_L4 && h.hdrLen == UdpHeaders(isV6)
  }

  lemma UdpHdrChecks(h: VirtioHdr, p: seq<byte>, m: seq<byte>, isV6: bool)
    requires UdpShape(h, isV6) && UdpHeadersOf(p, m, isV6) && UdpCandidate(m, isV6)
    ensures CheckedHdr(h, p) == Ok(h) && IsV6(p) == isV6 && !IsTcp(h) && StandardCsum(h) && Splittable(h, |p|, isV6)
    ensures CsumInHeader(h)
  {
    assert p[0] == m[0];
  }

  /** The header that accounting writes for a UDP item passes the checks of the reading side. */
  lemma UdpHdrAccepted(item: UdpItem, target: seq<byte>, ms: seq<seq<byte>>, isV6: bool)
    requires UdpGroup(item, target, ms, isV6)
    ensures UsableUdp(item, target, isV6) && item.key.isV6 == isV6 && UdpShape(UdpHdr(item), isV6)
    ensures UdpHdr(item).gsoSize == item.gsoSize
    ensures var h, p := UdpHdr(item), UdpFinished(target, isV6);
            && CheckedHdr(h, p) == Ok(h) && IsV6(p) == isV6 && !IsTcp(h) && StandardCsum(h)
            && Splittable(h, |p|, isV6) && CsumInHeader(h)
  {
    UdpGroupHeaders(item, target, ms, isV6);
    UdpFinishedBytes(item, target, ms, isV6);
    GroRun.UdpGroupUsable(item, target, ms, isV6);
    hide UdpGroup, UdpFinished, UdpPayloads, UdpCandidate, UdpHeadersOf, CheckedHdr, Splittable, IsV6, Concat;
    UdpHdrChecks(UdpHdr(item), UdpFinished(target, isV6), ms[0], isV6);
  }

  /** The ten bytes in front of a merged UDP packet. */
  lemma UdpHdrBytes(item: UdpItem, target: seq<byte>, ms: seq<seq<byte>>, isV6: bool)
    requires UdpGroup(item, target, ms, isV6)
    ensures UsableUdp(item, target, isV6) && |ms| > 0
    ensures var b, at := Encode(UdpHdr(item)), if isV6 then 40 else 20;
            && b[0] == 1 && b[1] == 5 && b[2] as int == at + 8 && b[3] == 0
            && b[4] as int + b[5] as int * 0x100 == |ms[0]| - (at + 8)
            && b[6] == at && b[7] == 0 && b[8] == 6 && b[9] == 0
  {
    GroRun.UdpGroupUsable(item, target, ms, isV6);
    HdrLayout(UdpHdr(item));
    hide Encode, UdpKeyOf, ChecksumValid, UdpPayloads, SameUdpStream, EvenSized;
  }

  lemma UdpSegCount(item: UdpItem, target: seq<byte>, ms: seq<seq<byte>>, isV6: bool)
    requires UdpGroup(item, target, ms, isV6)
    ensures UdpShape(UdpHdr(item), isV6) && UdpHeaders(isV6) <= |target| && SegCount(UdpHdr(item), |target|) == |ms|
  {
    hide UdpGroup, SegCount, UdpPayloads, UdpPayload, UdpCandidate, Concat, UsableUdp;
    UdpGroupHeaders(item, target, ms, isV6);
    UdpGroupExtent(item, target, ms, isV6);
    GroRun.UdpGroupUsable(item, target, ms, isV6);
    SegmentsOfRun(UdpHdr(item), |target|, |ms|, |target| - UdpHeaders(isV6) - item.numMerged * item.gsoSize as int);
  }

  // ----- One segment -----

  /** Everything that splitting segment k off packet p relies on. */
  ghost predicate UdpSplit(h: VirtioHdr, p: seq<byte>, m: seq<byte>, isV6: bool, k: nat) {
    && UdpCandidate(m, isV6) && UdpShape(h, isV6) && UdpHeadersOf(p, m, isV6)
    && Splittable(h, |p|, isV6) && SegStart(h, k) < |p| && SegLen(h, |p|, k) <= 0xFFFF
  }

  lemma ClearedUdp(p: seq<byte>, h: VirtioHdr, isV6: bool)
    requires Splittable(h, |p|, isV6) && UdpShape(h, isV6)
    ensures var c := Cleared(p, h, isV6);
            (!isV6 ==> Be16(c, 10) == 0) && Be16(c, h.csumStart + h.csumOffset) == 0
  {}

  lemma UdpCutSums(h: VirtioHdr, p: seq<byte>, m: seq<byte>, isV6: bool, k: nat)
    requires UdpSplit(h, p, m, isV6, k)
    ensures var s := Cut(h, p, isV6, k);
            && IpLengthExact(s, isV6) && (!isV6 ==> IpHeaderValid(s, 20))
            && Verifies(s, IpLen(isV6), 17, isV6)
            && Be16(s, IpLen(isV6) + 4) == |s| - IpLen(isV6)
  {
    hide Segment, SegStart, SegCount, Be32, Be16, Verifies, IpHeaderValid, UdpCandidate, Cleared, IpLengthExact,
      UdpHeadersOf;
    ClearedUdp(p, h, isV6);
    SegmentIpFields(Cleared(p, h, isV6), h, isV6, k);
    SegmentTransportFields(Cleared(p, h, isV6), h, isV6, k);
    SegmentChecksum(Cleared(p, h, isV6), h, isV6, k);
  }

  lemma UdpCutKeeps(h: VirtioHdr, p: seq<byte>, m: seq<byte>, isV6: bool, k: nat, j: nat)
    requires UdpSplit(h, p, m, isV6, k) && SteadyUdp(isV6, j)
    ensures Cut(h, p, isV6, k)[j] == m[j]
  {
    hide Segment, SegStart, SegCount, UdpCandidate;
    SegmentKeeps(Cleared(p, h, isV6), h, isV6, k, j);
  }

  /** Up to its payload, segment k is a datagram like the first member. */
  lemma UdpCutIsAlike(h: VirtioHdr, p: seq<byte>, m: seq<byte>, isV6: bool, k: nat)
    requires UdpSplit(h, p, m, isV6, k)
    ensures var s := Cut(h, p, isV6, k); UdpCandidate(s, isV6) && SameUdpStream(m, s, isV6)
  {
    hide Cut, SegStart, UdpCandidate, IpLengthExact, Splittable, UdpHeadersOf, IpHeaderValid, Verifies,
      SameUdpStream;
    var s := Cut(h, p, isV6, k);
    UdpCutSums(h, p, m, isV6, k);
    forall j | 0 <= j < UdpHeaders(isV6) && SteadyUdp(isV6, j) ensures s[j] == m[j] {
      UdpCutKeeps(h, p, m, isV6, k, j);
    }
    assert |m| > UdpHeaders(isV6);
    AlikeIsUdpCandidate(s, m, isV6);
    AlikeIsSameUdpStream(s, m, isV6);
  }

  lemma SameUdpStreamVia(m: seq<byte>, mk: seq<byte>, s: seq<byte>, isV6: bool)
    requires UdpCandidate(m, isV6) && UdpCandidate(mk, isV6) && UdpCandidate(s, isV6)
    requires SameUdpStream(m, mk, isV6) && SameUdpStream(m, s, isV6)
    ensures SameUdpStream(mk, s, isV6)
  {
    hide UdpKeyOf, IpLengthExact, Fragmented;
  }

  lemma UdpCutMatches(h: VirtioHdr, p: seq<byte>, ms: seq<seq<byte>>, parts: seq<seq<byte>>, isV6: bool, k: nat)
    requires k < |ms| == |parts| && UdpSplit(h, p, ms[0], isV6, k)
    requires UdpCandidate(ms[k], isV6) && SameUdpStream(ms[0], ms[k], isV6)
    requires parts[k] == UdpPayload(ms[k], isV6) && Uniform(parts, h.gsoSize) && p[h.hdrLen..] == Concat(parts)
    ensures SameDatagram(Cut(h, p, isV6, k), ms[k], isV6)
  {
    hide UdpCandidate, Cut, UdpHeadersOf, Splittable, SegStart, Verifies, IpHeaderValid, SameUdpStream, Uniform,
      Concat, SameUdpBytes;
    var s := Cut(h, p, isV6, k);
    UdpCutSums(h, p, ms[0], isV6, k);
    UdpCutIsAlike(h, p, ms[0], isV6, k);
    SameUdpStreamVia(ms[0], ms[k], s, isV6);
    CutPayload(h, p, parts, isV6, k);
    SameUdpStreamBytes(ms[k], s, isV6);
  }

  lemma UdpMemberStream(item: UdpItem, target: seq<byte>, ms: seq<seq<byte>>, isV6: bool, k: nat)
    requires UdpGroup(item, target, ms, isV6) && k < |ms|
    ensures UdpCandidate(ms[0], isV6) && UdpCandidate(ms[k], isV6) && SameUdpStream(ms[0], ms[k], isV6)
    ensures (forall j :: 0 <= j < |ms| ==> UdpCandidate(ms[j], isV6)) && Uniform(UdpPayloads(ms, isV6), item.gsoSize)
    ensures UdpPayloads(ms, isV6)[k] == UdpPayload(ms[k], isV6)
  {
    hide ChecksumValid, SameUdpStream;
    UdpRunIsUniform(ms, isV6);
  }

  lemma UdpSplits(item: UdpItem, target: seq<byte>, ms: seq<seq<byte>>, isV6: bool, k: nat)
    requires UdpGroup(item, target, ms, isV6) && k < |ms| && UsableUdp(item, target, isV6)
    ensures UdpSplit(UdpHdr(item), UdpFinished(target, isV6), ms[0], isV6, k)
  {
    UdpHdrAccepted(item, target, ms, isV6);
    UdpSegCount(item, target, ms, isV6);
    UdpFinishedBytes(item, target, ms, isV6);
    UdpGroupHeaders(item, target, ms, isV6);
    FirstFits(item, target, ms, isV6);
    hide UdpGroup, UdpFinished, UdpPayloads, UdpCandidate, UdpHeadersOf, SegCount, CheckedHdr, Concat, IsV6;
    SegmentExists(UdpHdr(item), |target|, k);
  }

  lemma FirstFits(item: UdpItem, target: seq<byte>, ms: seq<seq<byte>>, isV6: bool)
    requires UdpGroup(item, target, ms, isV6)
    ensures UdpHeaders(isV6) + item.gsoSize <= 0xFFFF
  {
    hide ChecksumValid, UdpKeyOf, SameUdpStream, EvenSized, UdpPayloads;
  }

  lemma UdpSegmentMatches(item: UdpItem, target: seq<byte>, ms: seq<seq<byte>>, isV6: bool, k: nat)
    requires UdpGroup(item, target, ms, isV6) && k < |ms| && UsableUdp(item, target, isV6)
    ensures var h, p := UdpHdr(item), UdpFinished(target, isV6);
            && Splittable(h, |p|, isV6) && SegStart(h, k) < |p|
            && SameDatagram(Cut(h, p, isV6, k), ms[k], isV6)
  {
    hide UdpGroup, UdpFinished, UdpHdr, UdpPayloads, UdpCandidate, Cut, UdpHeadersOf, SegCount, SameDatagram,
      SameUdpStream, Uniform, Concat, CheckedHdr, SegStart, Splittable;
    UdpSplits(item, target, ms, isV6, k);
    UdpHdrAccepted(item, target, ms, isV6);
    UdpMemberStream(item, target, ms, isV6, k);
    UdpFinishedBytes(item, target, ms, isV6);
    UdpCutMatches(UdpHdr(item), UdpFinished(target, isV6), ms, UdpPayloads(ms, isV6), isV6, k);
  }

  /**
   Merging and splitting cancel out: the finished frame of a UDP item with merges is accepted by the
   reading side and yields one datagram per member, in order, each with its member's payload, flow
   and IP fields, and with exact lengths and valid checksums.
   */
  lemma UdpRoundTrip(item: UdpItem, target: seq<byte>, ms: seq<seq<byte>>, isV6: bool)
    requires UdpGroup(item, target, ms, isV6)
    ensures UsableUdp(item, target, isV6)
    ensures var h, p := UdpHdr(item), UdpFinished(target, isV6);
            && CheckedHdr(h, p) == Ok(h) && CsumInHeader(h)
            && ReadPackets(h, p).Ok?
            && var packets := ReadPackets(h, p).value;
            && |packets| == |ms|
            && forall k :: 0 <= k < |ms| ==> SameDatagram(packets[k], ms[k], isV6)
  {
    UdpHdrAccepted(item, target, ms, isV6);
    UdpSegCount(item, target, ms, isV6);
    var h, p := UdpHdr(item), UdpFinished(target, isV6);
    hide UdpGroup, UdpFinished, UdpHdr, SameDatagram, CheckedHdr, HeaderError, SegCount, Segment, SegStart;
    var packets := ReadPackets(h, p).value;
    forall k | 0 <= k < |ms| ensures SameDatagram(packets[k], ms[k], isV6) {
      UdpSegmentMatches(item, target, ms, isV6, k);
    }
  }
}
