/**
 What GRO takes for one run is exactly what one larger packet is split into: a second definition of a well-grouped
 run, by the reading side alone.
 */
module Grouping {
  import opened Bytes
  import opened Packet
  import opened Tcp
  import opened Udp
  import opened TcpItem
  import opened UdpTable
  import opened UdpBook
  import opened Gso
  import opened Accounting
  import opened VirtioRead
  import opened RoundTrip
  import opened RoundTripUdp
  import opened Wire

  // ----- TCP -----

  /** s is m as far as the stream goes: the same TCP bytes, and PSH on both or neither. */
  ghost predicate SegmentOf(s: seq<byte>, m: seq<byte>, isV6: bool) {
    && TcpCandidate(s, isV6) && TcpCandidate(m, isV6) && SameTcpBytes(m, s, isV6) && (Psh(s, isV6) <==> Psh(m, isV6))
  }

  /** One large TCP packet p with virtio header h is read as the segments ms. */
  ghost predicate ReadsAs(h: VirtioHdr, p: seq<byte>, ms: seq<seq<byte>>, isV6: bool) {
    && p != [] && IsV6(p) == isV6 && (h.gsoType == 1 || h.gsoType == 4) && h.csumOffset == 16
    && h.csumStart == (if isV6 then 40 else 20)
    && CheckedHdr(h, p).Ok? && CsumInHeader(CheckedHdr(h, p).value) && ReadPackets(h, p).Ok?
    && var packets := ReadPackets(h, p).value;
    && |packets| == |ms| && forall k :: 0 <= k < |ms| ==> SegmentOf(packets[k], ms[k], isV6)
  }

  /** h, checked, cuts p into n segments, and k is one of them. */
  ghost predicate Cuts(h: VirtioHdr, p: seq<byte>, isV6: bool, n: nat, k: nat) {
    && IsTcp(h) && StandardCsum(h) && h.csumStart == IpLen(isV6) && Splittable(h, |p|, isV6)
    && h.hdrLen == IpLen(isV6) + p[IpLen(isV6) + 12] as int / 16 * 4
    && n == SegCount(h, |p|) && k < n && SegStart(h, k) < |p| && TcpCandidate(Cut(h, p, isV6, k), isV6)
  }

  /** The bytes of a segment that no segment has for itself are those of the large packet. */
  lemma CutKept(h: VirtioHdr, p: seq<byte>, isV6: bool, n: nat, k: nat, j: nat)
    requires Cuts(h, p, isV6, n, k) && j < h.hdrLen && Steady(isV6, j)
    ensures Cut(h, p, isV6, k)[j] == p[j]
  {
    hide Segment, SegStart, SegCount, TcpCandidate;
    SegmentKeeps(Cleared(p, h, isV6), h, isV6, k, j);
  }

  lemma CutHeaders(h: VirtioHdr, p: seq<byte>, isV6: bool, n: nat, k: nat)
    requires Cuts(h, p, isV6, n, k)
    ensures HeadersLen(Cut(h, p, isV6, k), isV6) == h.hdrLen
  {
    CutKept(h, p, isV6, n, k, IpLen(isV6) + 12);
    hide Cut, TcpCandidate, SegCount, SegStart, Splittable;
  }

  /** Where segment k stands in the stream, how long it is, and that only the last can have PSH. */
  lemma CutPlace(h: VirtioHdr, p: seq<byte>, isV6: bool, n: nat, k: nat)
    requires Cuts(h, p, isV6, n, k)
    ensures var s := Cut(h, p, isV6, k);
            && SeqNo(s, isV6) == (Be32(p, IpLen(isV6) + 4) + k * h.gsoSize) % 0x1_0000_0000
            && 1 <= |TcpPayload(s, isV6)| <= h.gsoSize
            && (k + 1 < n ==> |TcpPayload(s, isV6)| == h.gsoSize && !Psh(s, isV6))
  {
    hide Segment, SegStart, SegCount, TcpCandidate, Cleared, Be32, HeadersLen;
    CutHeaders(h, p, isV6, n, k);
    CutLength(h, |p|, k);
    assert |Cut(h, p, isV6, k)| <= 0xFFFF by { CandidateFits(Cut(h, p, isV6, k), isV6); }
    ClearedFields(p, h, isV6);
    SegmentTransportFields(Cleared(p, h, isV6), h, isV6, k);
  }

  lemma CandidateFits(s: seq<byte>, isV6: bool)
    requires TcpCandidate(s, isV6)
    ensures |s| <= 0xFFFF
  {}

  lemma CutLength(h: VirtioHdr, len: nat, k: nat)
    requires h.gsoSize > 0 && h.hdrLen <= len && k < SegCount(h, len) && SegStart(h, k) < len
    ensures SegLen(h, len, k) - h.hdrLen <= h.gsoSize
    ensures k + 1 < SegCount(h, len) ==> SegLen(h, len, k) - h.hdrLen == h.gsoSize && SegEnd(h, len, k) < len
  {
    OnlyLastIsShort(h, len, k);
    Distribute(k, h.gsoSize);
    hide SegCount;
  }

  /** All segments are of the first one's stream. */
  lemma CutsAlike(h: VirtioHdr, p: seq<byte>, isV6: bool, n: nat, k: nat)
    requires Cuts(h, p, isV6, n, 0) && Cuts(h, p, isV6, n, k)
    ensures SameStream(Cut(h, p, isV6, 0), Cut(h, p, isV6, k), isV6)
  {
    hide Cut, SegStart, SegCount, SameStream, Splittable;
    var first, s := Cut(h, p, isV6, 0), Cut(h, p, isV6, k);
    CutHeaders(h, p, isV6, n, 0);
    CutHeaders(h, p, isV6, n, k);
    forall j | 0 <= j < h.hdrLen && Steady(isV6, j) ensures s[j] == first[j] {
      CutKept(h, p, isV6, n, 0, j);
      CutKept(h, p, isV6, n, k, j);
    }
    assert AlikeTcp(s, first, isV6);
    AlikeIsSameStream(s, first, isV6);
  }

  /** Segment k and the member it stands for. */
  lemma CutStandsFor(h: VirtioHdr, p: seq<byte>, ms: seq<seq<byte>>, isV6: bool, k: nat)
    requires ReadsAs(h, p, ms, isV6) && k < |ms|
    ensures var g := CheckedHdr(h, p).value;
            Cuts(g, p, isV6, |ms|, k) && SegmentOf(Cut(g, p, isV6, k), ms[k], isV6)
    ensures CheckedHdr(h, p).value.gsoSize == h.gsoSize
  {
    hide TcpCandidate, SegCount, SegStart, Segment, Cleared, SegmentOf;
    CheckedExactly(h, p);
    ValidationDischargesSplitter(h, p, 0, 0);
    var g := CheckedHdr(h, p).value;
    hide CheckedHdr;
    assert SegmentOf(ReadPackets(h, p).value[k], ms[k], isV6);
    SegmentExists(g, |p|, k);
    assert ReadPackets(h, p).value[k] == Cut(g, p, isV6, k);
    assert TcpCandidate(Cut(g, p, isV6, k), isV6) by { IsCandidate(Cut(g, p, isV6, k), ms[k], isV6); }
  }

  lemma IsCandidate(s: seq<byte>, m: seq<byte>, isV6: bool)
    requires SegmentOf(s, m, isV6)
    ensures TcpCandidate(s, isV6)
  {}

  /** What holds of a member because it holds of its segment. */
  lemma MemberPlace(h: VirtioHdr, p: seq<byte>, ms: seq<seq<byte>>, isV6: bool, k: nat)
    requires ReadsAs(h, p, ms, isV6) && k < |ms|
    ensures |p| >= IpLen(isV6) + 8 && TcpCandidate(ms[k], isV6) && TcpCandidate(ms[0], isV6)
    ensures SeqNo(ms[k], isV6) == (Be32(p, IpLen(isV6) + 4) + k * h.gsoSize) % 0x1_0000_0000
    ensures 1 <= |TcpPayload(ms[k], isV6)| <= h.gsoSize
    ensures k + 1 < |ms| ==> |TcpPayload(ms[k], isV6)| == h.gsoSize && !Psh(ms[k], isV6)
    ensures SameStream(ms[0], ms[k], isV6)
  {
    hide TcpCandidate, SameStream, SameTcpBytes, Cut, Be32, SeqNo, SegCount, SegStart, ReadPackets;
    var g := CheckedHdr(h, p).value;
    hide ReadsAs, CheckedHdr;
    CutStandsFor(h, p, ms, isV6, 0);
    CutStandsFor(h, p, ms, isV6, k);
    CutPlace(g, p, isV6, |ms|, k);
    CutsAlike(g, p, isV6, |ms|, k);
    SameStreamBytes(ms[0], Cut(g, p, isV6, 0), isV6);
    SameStreamBytes(ms[k], Cut(g, p, isV6, k), isV6);
    SameStreamSymmetric(ms[k], Cut(g, p, isV6, k), isV6);
    SameStreamTransitive(ms[0], Cut(g, p, isV6, 0), Cut(g, p, isV6, k), isV6);
    SameStreamTransitive(ms[0], Cut(g, p, isV6, k), ms[k], isV6);
  }

  lemma SplitIsOneStream(h: VirtioHdr, p: seq<byte>, ms: seq<seq<byte>>, isV6: bool)
    requires ReadsAs(h, p, ms, isV6) && ms != []
    ensures OneStream(ms, isV6)
  {
    hide ReadsAs, TcpCandidate, SameStream, SeqNo, TcpPayload, Psh, Be32;
    MemberPlace(h, p, ms, isV6, 0);
    forall k | 0 <= k < |ms| ensures TcpCandidate(ms[k], isV6) && SameStream(ms[0], ms[k], isV6) {
      MemberPlace(h, p, ms, isV6, k);
    }
  }

  lemma SplitIsContiguous(h: VirtioHdr, p: seq<byte>, ms: seq<seq<byte>>, isV6: bool)
    requires ReadsAs(h, p, ms, isV6) && OneStream(ms, isV6)
    ensures Contiguous(ms, isV6)
  {
    hide ReadsAs, TcpCandidate, SameStream, SeqNo, TcpPayload, Psh, Be32;
    forall k | 0 < k < |ms|
      ensures SeqNo(ms[k], isV6) == (SeqNo(ms[k - 1], isV6) + |TcpPayload(ms[k - 1], isV6)|) % 0x1_0000_0000
    {
      MemberPlace(h, p, ms, isV6, k - 1);
      MemberPlace(h, p, ms, isV6, k);
      NextPlace(Be32(p, IpLen(isV6) + 4), k, h.gsoSize);
    }
  }

  lemma NextPlace(x: u32, k: nat, g: nat)
    requires k > 0
    ensures (x + k * g) % 0x1_0000_0000 == ((x + (k - 1) * g) % 0x1_0000_0000 + g) % 0x1_0000_0000
  {
    Distribute(k - 1, g);
    ModAdd(x + (k - 1) * g, g);
  }

  lemma SplitIsEven(h: VirtioHdr, p: seq<byte>, ms: seq<seq<byte>>, isV6: bool)
    requires ReadsAs(h, p, ms, isV6) && OneStream(ms, isV6)
    ensures Even(ms, isV6)
  {
    hide ReadsAs, TcpCandidate, SameStream, SeqNo, TcpPayload, Psh, Be32;
    MemberPlace(h, p, ms, isV6, 0);
    forall k | 0 <= k < |ms| - 1 ensures |TcpPayload(ms[k], isV6)| == |TcpPayload(ms[0], isV6)| && !Psh(ms[k], isV6) {
      MemberPlace(h, p, ms, isV6, k);
    }
    MemberPlace(h, p, ms, isV6, |ms| - 1);
  }

  /** Segments that one packet is split into are well grouped. */
  lemma SplitIsGrouped(h: VirtioHdr, p: seq<byte>, ms: seq<seq<byte>>, isV6: bool)
    requires ReadsAs(h, p, ms, isV6) && ms != []
    ensures WellGrouped(ms, isV6)
  {
    hide ReadsAs, OneStream, Contiguous, Even;
    SplitIsOneStream(h, p, ms, isV6);
    SplitIsContiguous(h, p, ms, isV6);
    SplitIsEven(h, p, ms, isV6);
  }

  /** The item that a well-grouped run would be merged into, and the packet in its buffer. */
  function RunItem(ms: seq<seq<byte>>, isV6: bool): TcpItem
    requires 0 < |ms| <= 0xFFFF && TcpCandidate(ms[0], isV6) && TcpCandidate(ms[|ms| - 1], isV6)
  {
    var m := ms[0];
    TcpItem(KeyOf(m, isV6), SeqNo(m, isV6), 0, |ms| - 1, |TcpPayload(m, isV6)|, IpLen(isV6), TcpHdrLen(m, isV6),
            Psh(ms[|ms| - 1], isV6))
  }

  function RunPacket(ms: seq<seq<byte>>, isV6: bool): seq<byte>
    requires ms != [] && forall k :: 0 <= k < |ms| ==> TcpCandidate(ms[k], isV6)
  {
    assert TcpCandidate(ms[0], isV6) && TcpCandidate(ms[|ms| - 1], isV6);
    var headers: seq<byte> := ms[0][..HeadersLen(ms[0], isV6)];
    var flagsAt := IpLen(isV6) + TCP_FLAGS_OFFSET;
    (if Psh(ms[|ms| - 1], isV6) then headers[flagsAt := TCP_FLAG_ACK + TCP_FLAG_PSH] else headers)
    + Concat(TcpPayloads(ms, isV6))
  }

  lemma RunIsGroup(ms: seq<seq<byte>>, isV6: bool)
    requires WellGrouped(ms, isV6) && |ms| <= 0xFFFF
    requires forall k :: 0 <= k < |ms| ==> ChecksumValid(ms[k], IpLen(isV6), IPPROTO_TCP, isV6)
    ensures TcpGroup(RunItem(ms, isV6), RunPacket(ms, isV6), ms, isV6)
    ensures |RunPacket(ms, isV6)| >= IpLen(isV6) + 14
    ensures MergedPsh(RunPacket(ms, isV6), isV6) <==> Psh(ms[|ms| - 1], isV6)
  {
    hide ChecksumValid, KeyOf, SeqNo, SameStream, Contiguous, Classify, IpLengthExact, Fragmented, TcpPayloads;
    var m, target := ms[0], RunPacket(ms, isV6);
    assert TcpCandidate(m, isV6);
    assert target[HeadersLen(m, isV6)..] == Concat(TcpPayloads(ms, isV6));
    if |ms| == 1 {
      OnePayload(ms, isV6);
      assert target == m;
    }
  }

  lemma OnePayload(ms: seq<seq<byte>>, isV6: bool)
    requires |ms| == 1 && TcpCandidate(ms[0], isV6)
    ensures Concat(TcpPayloads(ms, isV6)) == TcpPayload(ms[0], isV6)
  {
    assert TcpPayloads(ms, isV6)[1..] == [];
  }

  /** PSH is on the last segment if its member has it, and on no other, as with the members. */
  lemma PshAgrees(ms: seq<seq<byte>>, isV6: bool, k: nat)
    requires WellGrouped(ms, isV6) && k < |ms|
    ensures Psh(ms[k], isV6) <==> k == |ms| - 1 && Psh(ms[|ms| - 1], isV6)
  {
    hide TcpCandidate, SameStream, Contiguous;
  }

  /** A well-grouped run is what one packet is split into. */
  lemma GroupedIsSplit(ms: seq<seq<byte>>, isV6: bool) returns (h: VirtioHdr, p: seq<byte>)
    requires WellGrouped(ms, isV6) && |ms| <= 0xFFFF
    requires forall k :: 0 <= k < |ms| ==> ChecksumValid(ms[k], IpLen(isV6), IPPROTO_TCP, isV6)
    ensures ReadsAs(h, p, ms, isV6)
  {
    hide TcpGroup, RunItem, RunPacket, TcpFinished, CheckedHdr, ReadPackets, MergedPsh, ChecksumValid, TcpCandidate,
      SameTcpBytes, SameStream, Contiguous, Even, Psh, WellGrouped, SameSegment, SegmentOf, Verifies;
    AreCandidates(ms, isV6);
    var item, target := RunItem(ms, isV6), RunPacket(ms, isV6);
    RunIsGroup(ms, isV6);
    TcpRoundTrip(item, target, ms, isV6);
    TcpHdrAccepted(item, target, ms, isV6);
    h, p := TcpHdr(item), TcpFinished(target, isV6);
    var packets := ReadPackets(h, p).value;
    forall k | 0 <= k < |ms| ensures SegmentOf(packets[k], ms[k], isV6) {
      PshAgrees(ms, isV6, k);
      Same(packets[k], ms[k], isV6);
    }
  }

  lemma AreCandidates(ms: seq<seq<byte>>, isV6: bool)
    requires WellGrouped(ms, isV6)
    ensures ms != [] && forall k :: 0 <= k < |ms| ==> TcpCandidate(ms[k], isV6)
  {}

  lemma Same(s: seq<byte>, m: seq<byte>, isV6: bool)
    requires SameSegment(s, m, isV6)
    ensures TcpCandidate(s, isV6) && TcpCandidate(m, isV6)
    ensures SegmentOf(s, m, isV6) <==> (Psh(s, isV6) <==> Psh(m, isV6))
  {
    hide TcpCandidate, SameTcpBytes, Verifies;
  }

  /**
   Segments with right checksums are well grouped if and only if some large packet is split into just them. So what
   is merged could have been sent, or received, as one.
   */
  lemma GroupedIffSplit(ms: seq<seq<byte>>, isV6: bool)
    requires 0 < |ms| <= 0xFFFF
    requires forall k :: 0 <= k < |ms| ==>
               TcpCandidate(ms[k], isV6) && ChecksumValid(ms[k], IpLen(isV6), IPPROTO_TCP, isV6)
    ensures WellGrouped(ms, isV6) <==> exists h, p :: ReadsAs(h, p, ms, isV6)
  {
    hide WellGrouped, ReadsAs, TcpCandidate, ChecksumValid;
    if WellGrouped(ms, isV6) { var _, _ := GroupedIsSplit(ms, isV6); }
    if h, p :| ReadsAs(h, p, ms, isV6) { SplitIsGrouped(h, p, ms, isV6); }
  }

  // ----- UDP -----

  /** One large UDP packet p with virtio header h is read as the datagrams ms. */
  ghost predicate UdpReadsAs(h: VirtioHdr, p: seq<byte>, ms: seq<seq<byte>>, isV6: bool) {
    && p != [] && IsV6(p) == isV6 && h.gsoType == 5 && h.csumOffset == 6
    && h.csumStart == (if isV6 then 40 else 20)
    && CheckedHdr(h, p).Ok? && CsumInHeader(CheckedHdr(h, p).value) && ReadPackets(h, p).Ok?
    && var packets := ReadPackets(h, p).value;
    && |packets| == |ms| && forall k :: 0 <= k < |ms| ==> DatagramOf(packets[k], ms[k], isV6)
  }

  /** s is the datagram m as far as flow, IP fields and payload go. */
  ghost predicate DatagramOf(s: seq<byte>, m: seq<byte>, isV6: bool) {
    UdpCandidate(s, isV6) && UdpCandidate(m, isV6) && SameUdpBytes(m, s, isV6)
  }

  /** h, checked, cuts p into n datagrams, and k is one of them. */
  ghost predicate UdpCuts(h: VirtioHdr, p: seq<byte>, isV6: bool, n: nat, k: nat) {
    && UdpShape(h, isV6) && Splittable(h, |p|, isV6)
    && n == SegCount(h, |p|) && k < n && SegStart(h, k) < |p| && UdpCandidate(Cut(h, p, isV6, k), isV6)
  }

  lemma UdpCutKept(h: VirtioHdr, p: seq<byte>, isV6: bool, n: nat, k: nat, j: nat)
    requires UdpCuts(h, p, isV6, n, k) && SteadyUdp(isV6, j)
    ensures Cut(h, p, isV6, k)[j] == p[j]
  {
    hide Segment, SegStart, SegCount, UdpCandidate;
    SegmentKeeps(Cleared(p, h, isV6), h, isV6, k, j);
  }

  /** How long datagram k is. */
  lemma UdpCutPlace(h: VirtioHdr, p: seq<byte>, isV6: bool, n: nat, k: nat)
    requires UdpCuts(h, p, isV6, n, k)
    ensures var s := Cut(h, p, isV6, k);
            && 1 <= |UdpPayload(s, isV6)| <= h.gsoSize && (k + 1 < n ==> |UdpPayload(s, isV6)| == h.gsoSize)
  {
    hide Segment, SegStart, SegCount, UdpCandidate, Cleared;
    CutLength(h, |p|, k);
  }

  lemma UdpCutsAlike(h: VirtioHdr, p: seq<byte>, isV6: bool, n: nat, k: nat)
    requires UdpCuts(h, p, isV6, n, 0) && UdpCuts(h, p, isV6, n, k)
    ensures SameUdpStream(Cut(h, p, isV6, 0), Cut(h, p, isV6, k), isV6)
  {
    hide Cut, SegStart, SegCount, SameUdpStream, Splittable;
    var first, s := Cut(h, p, isV6, 0), Cut(h, p, isV6, k);
    forall j | 0 <= j < UdpHeaders(isV6) && SteadyUdp(isV6, j) ensures s[j] == first[j] {
      UdpCutKept(h, p, isV6, n, 0, j);
      UdpCutKept(h, p, isV6, n, k, j);
    }
    assert AlikeUdp(s, first, isV6);
    AlikeIsSameUdpStream(s, first, isV6);
  }

  lemma UdpCutStandsFor(h: VirtioHdr, p: seq<byte>, ms: seq<seq<byte>>, isV6: bool, k: nat)
    requires UdpReadsAs(h, p, ms, isV6) && k < |ms|
    ensures var g := CheckedHdr(h, p).value;
            UdpCuts(g, p, isV6, |ms|, k) && DatagramOf(Cut(g, p, isV6, k), ms[k], isV6)
    ensures CheckedHdr(h, p).value.gsoSize == h.gsoSize
  {
    hide UdpCandidate, SegCount, SegStart, Segment, Cleared, SameUdpBytes;
    CheckedExactly(h, p);
    ValidationDischargesSplitter(h, p, 0, 0);
    var g := CheckedHdr(h, p).value;
    hide CheckedHdr;
    SegmentExists(g, |p|, k);
    assert ReadPackets(h, p).value[k] == Cut(g, p, isV6, k);
  }

  lemma UdpMemberPlace(h: VirtioHdr, p: seq<byte>, ms: seq<seq<byte>>, isV6: bool, k: nat)
    requires UdpReadsAs(h, p, ms, isV6) && k < |ms|
    ensures UdpCandidate(ms[k], isV6) && UdpCandidate(ms[0], isV6) && SameUdpStream(ms[0], ms[k], isV6)
    ensures 1 <= |UdpPayload(ms[k], isV6)| <= h.gsoSize
    ensures k + 1 < |ms| ==> |UdpPayload(ms[k], isV6)| == h.gsoSize
  {
    hide UdpCandidate, SameUdpStream, SameUdpBytes, Cut, SegCount, SegStart, ReadPackets;
    var g := CheckedHdr(h, p).value;
    hide UdpReadsAs, CheckedHdr;
    UdpCutStandsFor(h, p, ms, isV6, 0);
    UdpCutStandsFor(h, p, ms, isV6, k);
    UdpCutPlace(g, p, isV6, |ms|, k);
    UdpCutsAlike(g, p, isV6, |ms|, k);
    var first, s := Cut(g, p, isV6, 0), Cut(g, p, isV6, k);
    SameUdpStreamBytes(ms[0], first, isV6);
    SameUdpStreamBytes(ms[k], s, isV6);
    UdpStreamJoins(ms[0], first, s, ms[k], isV6);
  }

  lemma UdpStreamJoins(a: seq<byte>, b: seq<byte>, c: seq<byte>, d: seq<byte>, isV6: bool)
    requires UdpCandidate(a, isV6) && UdpCandidate(b, isV6) && UdpCandidate(c, isV6) && UdpCandidate(d, isV6)
    requires SameUdpStream(a, b, isV6) && SameUdpStream(b, c, isV6) && SameUdpStream(d, c, isV6)
    ensures SameUdpStream(a, d, isV6)
  {
    hide UdpKeyOf, IpLengthExact, Fragmented;
  }

  /** Datagrams that one packet is split into are well grouped. */
  lemma SplitIsUdpGrouped(h: VirtioHdr, p: seq<byte>, ms: seq<seq<byte>>, isV6: bool)
    requires UdpReadsAs(h, p, ms, isV6) && ms != []
    ensures UdpWellGrouped(ms, isV6)
  {
    hide UdpReadsAs, UdpCandidate, SameUdpStream, UdpPayload;
    UdpMemberPlace(h, p, ms, isV6, 0);
    forall k | 0 <= k < |ms|
      ensures UdpCandidate(ms[k], isV6) && SameUdpStream(ms[0], ms[k], isV6)
      ensures k < |ms| - 1 ==> |UdpPayload(ms[k], isV6)| == |UdpPayload(ms[0], isV6)|
    {
      UdpMemberPlace(h, p, ms, isV6, k);
    }
    UdpMemberPlace(h, p, ms, isV6, |ms| - 1);
  }

  function UdpRunItem(ms: seq<seq<byte>>, isV6: bool): UdpItem
    requires 0 < |ms| <= 0xFFFF && UdpCandidate(ms[0], isV6)
  {
    UdpItem(UdpKeyOf(ms[0], isV6), 0, |ms| - 1, |UdpPayload(ms[0], isV6)|, IpLen(isV6), false)
  }

  function UdpRunPacket(ms: seq<seq<byte>>, isV6: bool): seq<byte>
    requires ms != [] && forall k :: 0 <= k < |ms| ==> UdpCandidate(ms[k], isV6)
  {
    assert UdpCandidate(ms[0], isV6);
    ms[0][..UdpHeaders(isV6)] + Concat(UdpPayloads(ms, isV6))
  }

  lemma UdpRunIsGroup(ms: seq<seq<byte>>, isV6: bool)
    requires UdpWellGrouped(ms, isV6) && |ms| <= 0xFFFF
    requires forall k :: 0 <= k < |ms| ==> ChecksumValid(ms[k], IpLen(isV6), IPPROTO_UDP, isV6)
    ensures UdpGroup(UdpRunItem(ms, isV6), UdpRunPacket(ms, isV6), ms, isV6)
  {
    hide ChecksumValid, UdpKeyOf, SameUdpStream, Classify, IpLengthExact, Fragmented, UdpPayloads;
    var m, target := ms[0], UdpRunPacket(ms, isV6);
    assert UdpCandidate(m, isV6);
    assert target[UdpHeaders(isV6)..] == Concat(UdpPayloads(ms, isV6));
    if |ms| == 1 {
      OneUdpPayload(ms, isV6);
      assert target == m;
    }
  }

  lemma OneUdpPayload(ms: seq<seq<byte>>, isV6: bool)
    requires |ms| == 1 && UdpCandidate(ms[0], isV6)
    ensures Concat(UdpPayloads(ms, isV6)) == UdpPayload(ms[0], isV6)
  {
    assert UdpPayloads(ms, isV6)[1..] == [];
  }

  /** A well-grouped run of datagrams is what one packet is split into. */
  lemma UdpGroupedIsSplit(ms: seq<seq<byte>>, isV6: bool) returns (h: VirtioHdr, p: seq<byte>)
    requires UdpWellGrouped(ms, isV6) && |ms| <= 0xFFFF
    requires forall k :: 0 <= k < |ms| ==> ChecksumValid(ms[k], IpLen(isV6), IPPROTO_UDP, isV6)
    ensures UdpReadsAs(h, p, ms, isV6)
  {
    hide UdpGroup, UdpRunItem, UdpRunPacket, UdpFinished, CheckedHdr, ReadPackets, ChecksumValid, UdpCandidate,
      SameUdpBytes, SameUdpStream, EvenSized, SameDatagram, DatagramOf, Verifies;
    assert UdpCandidate(ms[0], isV6);
    var item, target := UdpRunItem(ms, isV6), UdpRunPacket(ms, isV6);
    UdpRunIsGroup(ms, isV6);
    UdpRoundTrip(item, target, ms, isV6);
    UdpHdrAccepted(item, target, ms, isV6);
    UdpSegCount(item, target, ms, isV6);
    h, p := UdpHdr(item), UdpFinished(target, isV6);
    var packets := ReadPackets(h, p).value;
    forall k | 0 <= k < |ms| ensures DatagramOf(packets[k], ms[k], isV6) {
      SameUdp(packets[k], ms[k], isV6);
    }
  }

  lemma SameUdp(s: seq<byte>, m: seq<byte>, isV6: bool)
    requires SameDatagram(s, m, isV6)
    ensures DatagramOf(s, m, isV6)
  {
    hide UdpCandidate, SameUdpBytes, Verifies;
  }

  /** Datagrams with right checksums are well grouped if and only if some large packet is split into just them. */
  lemma UdpGroupedIffSplit(ms: seq<seq<byte>>, isV6: bool)
    requires 0 < |ms| <= 0xFFFF
    requires forall k :: 0 <= k < |ms| ==>
               UdpCandidate(ms[k], isV6) && ChecksumValid(ms[k], IpLen(isV6), IPPROTO_UDP, isV6)
    ensures UdpWellGrouped(ms, isV6) <==> exists h, p :: UdpReadsAs(h, p, ms, isV6)
  {
    hide UdpWellGrouped, UdpReadsAs, UdpCandidate, ChecksumValid;
    if UdpWellGrouped(ms, isV6) { var _, _ := UdpGroupedIsSplit(ms, isV6); }
    if h, p :| UdpReadsAs(h, p, ms, isV6) { SplitIsUdpGrouped(h, p, ms, isV6); }
  }
}
