/** Merging undone by splitting: a finished frame, read back, yields its members' packets again. */
module RoundTrip {
  import opened Bytes
  import opened Checksum
  import opened Packet
  import opened Gso
  import opened Tcp
  import opened Udp
  import opened TcpItem
  import opened Accounting
  import opened VirtioRead
  import opened Wire

  // ----- What accounting leaves alone -----

  /** Header bytes of a merged packet that accounting or splitting writes, and that say nothing about the stream. */
  predicate IpVolatile(isV6: bool, at: nat) {
    if isV6 then 4 <= at < 6 else 2 <= at < 6 || 10 <= at < 12
  }

  lemma IpFinishedKeeps(pkt: seq<byte>, isV6: bool, at: nat)
    requires IpLen(isV6) <= |pkt| && at < |pkt| && !IpVolatile(isV6, at)
    ensures IpFinished(pkt, isV6)[at] == pkt[at]
  {
    hide Sum;
  }

  lemma TcpFinishedKeeps(pkt: seq<byte>, isV6: bool, at: nat)
    requires IpLen(isV6) + 20 <= |pkt| && at < |pkt|
    requires !IpVolatile(isV6, at) && !(IpLen(isV6) + 16 <= at < IpLen(isV6) + 18)
    ensures TcpFinished(pkt, isV6)[at] == pkt[at]
  {
    hide Sum, IpFinished, PartialSum;
    IpFinishedKeeps(pkt, isV6, at);
  }

  lemma UdpFinishedKeeps(pkt: seq<byte>, isV6: bool, at: nat)
    requires UdpHeaders(isV6) <= |pkt| && at < |pkt|
    requires !IpVolatile(isV6, at) && !(IpLen(isV6) + 4 <= at < IpLen(isV6) + 8)
    ensures UdpFinished(pkt, isV6)[at] == pkt[at]
  {
    hide Sum, IpFinished, PartialSum;
    IpFinishedKeeps(pkt, isV6, at);
  }

  // ----- Packets with the same headers -----

  /** Bytes of the headers that nobody writes. */
  predicate Steady(isV6: bool, j: nat) {
    var at := IpLen(isV6);
    !IpVolatile(isV6, j) && !(at + 4 <= j < at + 8) && j != at + TCP_FLAGS_OFFSET && !(at + 16 <= j < at + 18)
  }

  /** s has m's headers up to fields that differ from segment to segment. */
  ghost predicate AlikeTcp(s: seq<byte>, m: seq<byte>, isV6: bool)
    requires TcpCandidate(m, isV6)
  {
    var at, hl := IpLen(isV6), HeadersLen(m, isV6);
    && hl < |s| <= 0xFFFF && IpLengthExact(s, isV6)
    && (s[at + TCP_FLAGS_OFFSET] == TCP_FLAG_ACK || s[at + TCP_FLAGS_OFFSET] == TCP_FLAG_ACK + TCP_FLAG_PSH)
    && (forall k :: 0 <= k < hl && Steady(isV6, k) ==> s[k] == m[k])
  }

  lemma AlikeIsCandidate(s: seq<byte>, m: seq<byte>, isV6: bool)
    requires TcpCandidate(m, isV6) && AlikeTcp(s, m, isV6)
    ensures TcpCandidate(s, isV6) && HeadersLen(s, isV6) == HeadersLen(m, isV6)
  {
    assert s[0] == m[0] && s[6] == m[6] && s[7] == m[7] && s[9] == m[9];
    assert s[IpLen(isV6) + 12] == m[IpLen(isV6) + 12];
  }

  lemma AlikeIsSameStream(s: seq<byte>, m: seq<byte>, isV6: bool)
    requires TcpCandidate(m, isV6) && TcpCandidate(s, isV6) && AlikeTcp(s, m, isV6)
    ensures SameStream(m, s, isV6)
  {
    AlikeIsCandidate(s, m, isV6);
    var at, a := IpLen(isV6), SrcAddrAt(isV6);
    hide TcpCandidate;
    SameSlice(s, m, a, a + AddrLen(isV6));
    SameSlice(s, m, a + AddrLen(isV6), a + AddrLen(isV6) * 2);
    SameSlice(s, m, at + 20, HeadersLen(m, isV6));
    assert Be16(s, at) == Be16(m, at) && Be16(s, at + 2) == Be16(m, at + 2) && Be32(s, at + 8) == Be32(m, at + 8);
    assert s[0] == m[0] && s[1] == m[1] && s[6] == m[6] && s[7] == m[7] && s[8] == m[8];
  }

  // ----- TCP -----

  /** The cut of a merged packet is that of its members. */
  lemma SegmentsOfRun(hdr: VirtioHdr, len: nat, n: nat, last: nat)
    requires hdr.gsoSize > 0 && n > 0 && 1 <= last <= hdr.gsoSize && len == hdr.hdrLen + (n - 1) * hdr.gsoSize + last
    ensures hdr.hdrLen <= len && SegCount(hdr, len) == n
  {
    MulMono(0, n - 1, hdr.gsoSize);
    SegmentExists(hdr, len, n - 1);
    SegmentExists(hdr, len, n);
    Distribute(n - 1, hdr.gsoSize);
  }

  /** What a group says about the headers in its buffer. */
  lemma GroupHeaders(item: TcpItem, target: seq<byte>, ms: seq<seq<byte>>, isV6: bool)
    requires TcpGroup(item, target, ms, isV6)
    ensures var m, at := ms[0], IpLen(isV6);
            && TcpCandidate(m, isV6) && HeadersLen(m, isV6) < |target|
            && item.iphLen == at && item.tcphLen == TcpHdrLen(m, isV6) && item.key.isV6 == isV6
            && item.gsoSize == |TcpPayload(m, isV6)| && item.sentSeq == SeqNo(m, isV6)
            && (forall k :: 0 <= k < HeadersLen(m, isV6) && k != at + TCP_FLAGS_OFFSET ==> target[k] == m[k])
            && (target[at + TCP_FLAGS_OFFSET] == TCP_FLAG_ACK
                || target[at + TCP_FLAGS_OFFSET] == TCP_FLAG_ACK + TCP_FLAG_PSH)
            && target[HeadersLen(m, isV6)..] == Concat(TcpPayloads(ms, isV6))
  {
    GroupExtent(item, target, ms, isV6);
    hide ChecksumValid, SameStream, Contiguous, Even, TcpPayloads;
    var m := ms[0];
    assert m[IpLen(isV6) + TCP_FLAGS_OFFSET] == Flags(m, isV6);
  }

  lemma TcpHdrChecks(h: VirtioHdr, p: seq<byte>, isV6: bool)
    requires h.csumStart == IpLen(isV6) && h.csumOffset == 16 && h.gsoSize > 0
    requires h.gsoType == (if isV6 then VIRTIO_NET_HDR_GSO_TCPV6 else VIRTIO_NET_HDR_GSO_TCPV4)
    requires IpLen(isV6) + 20 <= h.hdrLen <= IpLen(isV6) + 60 && h.hdrLen < |p|
    requires p[0] / 0x10 == (if isV6 then 6 else 4) && p[IpLen(isV6) + 12] / 0x10 * 4 == h.hdrLen - IpLen(isV6)
    ensures CheckedHdr(h, p) == Ok(h) && IsV6(p) == isV6 && IsTcp(h) && StandardCsum(h) && Splittable(h, |p|, isV6)
  {}

  lemma VersionNibble(m: seq<byte>, isV6: bool)
    requires TcpCandidate(m, isV6)
    ensures m[0] / 0x10 == (if isV6 then 6 else 4) && 20 <= TcpHdrLen(m, isV6) <= 60
  {}

  /** The header that accounting writes for a TCP item passes the checks of the reading side. */
  lemma TcpHdrAccepted(item: TcpItem, target: seq<byte>, ms: seq<seq<byte>>, isV6: bool)
    requires TcpGroup(item, target, ms, isV6)
    ensures Usable(item, target, isV6) && item.key.isV6 == isV6
    ensures var h, p := TcpHdr(item), TcpFinished(target, isV6);
            && CheckedHdr(h, p) == Ok(h) && IsV6(p) == isV6 && IsTcp(h) && StandardCsum(h) && Splittable(h, |p|, isV6)
            && h.hdrLen == HeadersLen(ms[0], isV6) && h.csumStart == IpLen(isV6) && h.gsoSize == item.gsoSize
  {
    GroupIsUsable(item, target, ms, isV6);
    GroupHeaders(item, target, ms, isV6);
    VersionNibble(ms[0], isV6);
    hide TcpGroup, TcpFinished, TcpPayloads, SeqNo, TcpCandidate, CheckedHdr, Splittable;
    var at := IpLen(isV6);
    TcpFinishedKeeps(target, isV6, 0);
    TcpFinishedKeeps(target, isV6, at + 12);
    TcpHdrChecks(TcpHdr(item), TcpFinished(target, isV6), isV6);
  }

  /**
   The ten bytes in front of a merged packet ask for the checksum at the place where TCP has it, and give the kind,
   the length of the packet's own headers, and the size of its first segment.
   */
  lemma TcpHdrBytes(item: TcpItem, target: seq<byte>, ms: seq<seq<byte>>, isV6: bool)
    requires TcpGroup(item, target, ms, isV6)
    ensures Usable(item, target, isV6) && |ms| > 0
    ensures var b, p, at := Encode(TcpHdr(item)), TcpFinished(target, isV6), if isV6 then 40 else 20;
            var headers := at + p[at + 12] as int / 16 * 4;
            && b[0] == 1 && b[1] == (if isV6 then 4 else 1)
            && b[2] as int + b[3] as int * 0x100 == headers
            && b[4] as int + b[5] as int * 0x100 == |ms[0]| - headers
            && b[6] == at && b[7] == 0 && b[8] == 16 && b[9] == 0
  {
    hide TcpGroup, TcpFinished, TcpPayloads, SeqNo, TcpCandidate, CheckedHdr, Encode;
    GroupIsUsable(item, target, ms, isV6);
    GroupHeaders(item, target, ms, isV6);
    assert ms != [] by { GroupLen(item, target, ms, isV6); }
    TcpFinishedKeeps(target, isV6, IpLen(isV6) + 12);
    HdrLayout(TcpHdr(item));
  }

  lemma TcpSegCount(item: TcpItem, target: seq<byte>, ms: seq<seq<byte>>, isV6: bool)
    requires TcpGroup(item, target, ms, isV6) && Usable(item, target, isV6)
    ensures TcpHdr(item).hdrLen <= |target| && TcpHdr(item).gsoSize > 0 && SegCount(TcpHdr(item), |target|) == |ms|
  {
    GroupExtent(item, target, ms, isV6);
    GroupHeaders(item, target, ms, isV6);
    GroupLen(item, target, ms, isV6);
    hide TcpGroup, SegCount, TcpCandidate;
    SegmentsOfRun(TcpHdr(item), |target|, |ms|,
                  |target| - HeadersLen(ms[0], isV6) - item.numMerged * item.gsoSize as int);
  }

  lemma GroupLen(item: TcpItem, target: seq<byte>, ms: seq<seq<byte>>, isV6: bool)
    requires TcpGroup(item, target, ms, isV6)
    ensures |ms| == item.numMerged + 1
  {}

  lemma TcpFinishedRest(target: seq<byte>, isV6: bool, hl: nat)
    requires IpLen(isV6) + 20 <= hl <= |target|
    ensures var p := TcpFinished(target, isV6);
            && p[hl..] == target[hl..]
            && forall k :: 0 <= k < hl && !IpVolatile(isV6, k) && !(IpLen(isV6) + 16 <= k < IpLen(isV6) + 18) ==>
                  p[k] == target[k]
  {
    hide TcpFinished;
    var p, at := TcpFinished(target, isV6), IpLen(isV6);
    forall k | 0 <= k < |target| && !IpVolatile(isV6, k) && !(at + 16 <= k < at + 18) ensures p[k] == target[k] {
      TcpFinishedKeeps(target, isV6, k);
    }
    SameSlice(p, target, hl, |p|);
    assert p[hl..] == p[hl..|p|] && target[hl..] == target[hl..|p|];
  }

  /** The finished packet: payload and stream headers are those of the group. */
  lemma TcpFinishedBytes(item: TcpItem, target: seq<byte>, ms: seq<seq<byte>>, isV6: bool)
    requires TcpGroup(item, target, ms, isV6)
    ensures var p, m := TcpFinished(target, isV6), ms[0];
            && TcpCandidate(m, isV6) && HeadersOf(p, m, isV6)
            && p[HeadersLen(m, isV6)..] == Concat(TcpPayloads(ms, isV6))
  {
    GroupHeaders(item, target, ms, isV6);
    hide TcpGroup, TcpFinished, TcpPayloads, SeqNo, TcpCandidate, IpVolatile, Concat, HeadersOf, HeadersLen;
    TcpFinishedRest(target, isV6, HeadersLen(ms[0], isV6));
    HeadersFollow(TcpFinished(target, isV6), target, ms[0], isV6);
  }

  lemma HeadersFollow(p: seq<byte>, target: seq<byte>, m: seq<byte>, isV6: bool)
    requires TcpCandidate(m, isV6) && HeadersLen(m, isV6) < |p| == |target|
    requires var at, hl := IpLen(isV6), HeadersLen(m, isV6);
             && (forall k :: 0 <= k < hl && !IpVolatile(isV6, k) && !(at + 16 <= k < at + 18) ==> p[k] == target[k])
             && (forall k :: 0 <= k < hl && k != at + TCP_FLAGS_OFFSET ==> target[k] == m[k])
             && (target[at + TCP_FLAGS_OFFSET] == TCP_FLAG_ACK
                 || target[at + TCP_FLAGS_OFFSET] == TCP_FLAG_ACK + TCP_FLAG_PSH)
    ensures HeadersOf(p, m, isV6)
  {
    hide TcpCandidate;
  }

  /**
   s carries the same bytes of the same stream as m: addresses, ports, sequence and acknowledgment number, options,
   payload and IP fields. IP identification, window and urgent pointer may differ, and PSH may have been lost, but
   not gained. The checksums of s verify.
   */
  ghost predicate SameSegment(s: seq<byte>, m: seq<byte>, isV6: bool) {
    && TcpCandidate(m, isV6) && TcpCandidate(s, isV6)
    && (Psh(s, isV6) ==> Psh(m, isV6))
    && SameTcpBytes(m, s, isV6)
    && Verifies(s, IpLen(isV6), 6, isV6) && (!isV6 ==> IpHeaderValid(s, 20))
  }

  /** p has m's headers up to fields that accounting writes. */
  ghost predicate HeadersOf(p: seq<byte>, m: seq<byte>, isV6: bool)
    requires TcpCandidate(m, isV6)
  {
    var at := IpLen(isV6);
    && HeadersLen(m, isV6) < |p|
    && (p[at + TCP_FLAGS_OFFSET] == TCP_FLAG_ACK || p[at + TCP_FLAGS_OFFSET] == TCP_FLAG_ACK + TCP_FLAG_PSH)
    && (forall k :: 0 <= k < HeadersLen(m, isV6) && !IpVolatile(isV6, k)
                    && k != at + TCP_FLAGS_OFFSET && !(at + 16 <= k < at + 18) ==>
          p[k] == m[k])
  }

  /** A header whose shape is that of m. */
  ghost predicate HdrFor(h: VirtioHdr, m: seq<byte>, isV6: bool)
    requires TcpCandidate(m, isV6)
  {
    IsTcp(h) && StandardCsum(h) && h.hdrLen == HeadersLen(m, isV6) && h.csumStart == IpLen(isV6)
  }

  /** Everything that splitting segment k off packet p relies on. */
  ghost predicate TcpSplit(h: VirtioHdr, p: seq<byte>, m: seq<byte>, isV6: bool, k: nat) {
    && TcpCandidate(m, isV6) && HdrFor(h, m, isV6) && HeadersOf(p, m, isV6)
    && Splittable(h, |p|, isV6) && SegStart(h, k) < |p| && k < SegCount(h, |p|) && SegLen(h, |p|, k) <= 0xFFFF
  }

  /** Segment k of p, with its checksum fields cleared. */
  function Cut(h: VirtioHdr, p: seq<byte>, isV6: bool, k: nat): (s: seq<byte>)
    requires Splittable(h, |p|, isV6) && SegStart(h, k) < |p|
    ensures h.hdrLen < |s| == SegLen(h, |p|, k)
  {
    hide SegStart, Segment;
    Segment(Cleared(p, h, isV6), h, isV6, k)
  }

  lemma ClearedFields(p: seq<byte>, h: VirtioHdr, isV6: bool)
    requires Splittable(h, |p|, isV6) && StandardCsum(h) && IsTcp(h)
    ensures var c := Cleared(p, h, isV6);
            && (!isV6 ==> Be16(c, 10) == 0) && Be16(c, h.csumStart + h.csumOffset) == 0
            && Be32(c, h.csumStart + 4) == Be32(p, h.csumStart + 4)
            && c[h.csumStart + TCP_FLAGS_OFFSET] == p[h.csumStart + TCP_FLAGS_OFFSET]
  {}

  lemma CutSums(h: VirtioHdr, p: seq<byte>, m: seq<byte>, isV6: bool, k: nat)
    requires TcpSplit(h, p, m, isV6, k)
    ensures var s := Cut(h, p, isV6, k);
            IpLengthExact(s, isV6) && (!isV6 ==> IpHeaderValid(s, 20))
            && Verifies(s, IpLen(isV6), 6, isV6)
  {
    hide Segment, SegStart, SegCount, Be32, Be16, Verifies, IpHeaderValid, TcpCandidate, Cleared, IpLengthExact,
      HeadersOf;
    ClearedFields(p, h, isV6);
    SegmentIpFields(Cleared(p, h, isV6), h, isV6, k);
    SegmentChecksum(Cleared(p, h, isV6), h, isV6, k);
  }

  lemma CutSeqNo(h: VirtioHdr, p: seq<byte>, m: seq<byte>, isV6: bool, k: nat)
    requires TcpSplit(h, p, m, isV6, k)
    ensures Be32(Cut(h, p, isV6, k), h.csumStart + 4) == (Be32(p, h.csumStart + 4) + k * h.gsoSize) % 0x1_0000_0000
  {
    hide Segment, SegStart, SegCount, TcpCandidate, Cleared, HeadersOf, Be32, Be16, ClearFinPsh, HeadersLen;
    ClearedFields(p, h, isV6);
    SegmentTransportFields(Cleared(p, h, isV6), h, isV6, k);
  }

  lemma CutFlags(h: VirtioHdr, p: seq<byte>, m: seq<byte>, isV6: bool, k: nat)
    requires TcpSplit(h, p, m, isV6, k)
    ensures var flags := Cut(h, p, isV6, k)[h.csumStart + TCP_FLAGS_OFFSET];
            flags == TCP_FLAG_ACK || flags == TCP_FLAG_ACK + TCP_FLAG_PSH
  {
    hide Segment, SegStart, SegCount, TcpCandidate, Cleared, IpVolatile, Be32, Be16, HeadersLen;
    ClearedFields(p, h, isV6);
    SegmentTransportFields(Cleared(p, h, isV6), h, isV6, k);
  }

  lemma CutKeeps(h: VirtioHdr, p: seq<byte>, m: seq<byte>, isV6: bool, k: nat, j: nat)
    requires TcpSplit(h, p, m, isV6, k) && j < HeadersLen(m, isV6) && Steady(isV6, j)
    ensures Cut(h, p, isV6, k)[j] == m[j]
  {
    hide Segment, SegStart, SegCount, TcpCandidate;
    SegmentKeeps(Cleared(p, h, isV6), h, isV6, k, j);
  }

  lemma CutIsAlike(h: VirtioHdr, p: seq<byte>, m: seq<byte>, isV6: bool, k: nat)
    requires TcpSplit(h, p, m, isV6, k)
    ensures AlikeTcp(Cut(h, p, isV6, k), m, isV6)
  {
    hide Cut, SegStart, SegCount, TcpCandidate, IpLengthExact, Splittable, HeadersOf, IpHeaderValid, Verifies;
    CutSums(h, p, m, isV6, k);
    CutFlags(h, p, m, isV6, k);
    forall j | 0 <= j < HeadersLen(m, isV6) && Steady(isV6, j) ensures Cut(h, p, isV6, k)[j] == m[j] {
      CutKeeps(h, p, m, isV6, k, j);
    }
  }

  lemma SegmentExtent(h: VirtioHdr, len: nat, parts: seq<seq<byte>>, k: nat)
    requires h.gsoSize > 0 && k < |parts| && Uniform(parts, h.gsoSize) && len == h.hdrLen + |Concat(parts)|
    ensures SegStart(h, k) == h.hdrLen + k * h.gsoSize < len
    ensures SegEnd(h, len, k) == h.hdrLen + (k * h.gsoSize + |parts[k]|) <= len
    ensures Concat(parts)[k * h.gsoSize..k * h.gsoSize + |parts[k]|] == parts[k]
  {
    CutConcat(parts, h.gsoSize, k);
    Distribute(k, h.gsoSize);
    hide Concat;
  }

  lemma CutPayloadIs(h: VirtioHdr, p: seq<byte>, isV6: bool, k: nat)
    requires Splittable(h, |p|, isV6) && SegStart(h, k) < |p|
    ensures SegEnd(h, |p|, k) <= |p| && SegStart(h, k) <= SegEnd(h, |p|, k)
    ensures Cut(h, p, isV6, k)[h.hdrLen..] == Cleared(p, h, isV6)[SegStart(h, k)..SegEnd(h, |p|, k)]
  {
    hide Segment, SegStart, Cleared;
    SegmentPayload(Cleared(p, h, isV6), h, isV6, k);
  }

  /** The payload of segment k is that of member k. */
  lemma CutPayload(h: VirtioHdr, p: seq<byte>, parts: seq<seq<byte>>, isV6: bool, k: nat)
    requires Splittable(h, |p|, isV6) && SegStart(h, k) < |p| && k < |parts|
    requires Uniform(parts, h.gsoSize) && p[h.hdrLen..] == Concat(parts)
    ensures Cut(h, p, isV6, k)[h.hdrLen..] == parts[k]
  {
    hide Cut, Segment, SegStart, SegEnd, Concat, Uniform, Cleared;
    SegmentExtent(h, |p|, parts, k);
    CutPayloadIs(h, p, isV6, k);
    SliceOfRest(p, Cleared(p, h, isV6), h, isV6, k * h.gsoSize, k * h.gsoSize + |parts[k]|);
  }

  lemma SliceOfRest(p: seq<byte>, c: seq<byte>, h: VirtioHdr, isV6: bool, lo: nat, hi: nat)
    requires Splittable(h, |p|, isV6) && c == Cleared(p, h, isV6) && lo <= hi && h.hdrLen + hi <= |p|
    ensures c[h.hdrLen + lo..h.hdrLen + hi] == p[h.hdrLen..][lo..hi]
  {
    SameSlice(c, p, h.hdrLen + lo, h.hdrLen + hi);
    assert p[h.hdrLen..][lo..hi] == p[h.hdrLen + lo..h.hdrLen + hi];
  }

  /**
   Merging and splitting cancel out: the finished frame of a TCP item with merges is accepted by the
   reading side and yields one segment per member, in sequence order, each with its member's
   sequence number, payload, flow, options and IP fields, and with valid checksums. The last segment
   has PSH if the merged header has it, and no other segment has.
   */
  lemma TcpRoundTrip(item: TcpItem, target: seq<byte>, ms: seq<seq<byte>>, isV6: bool)
    requires TcpGroup(item, target, ms, isV6)
    ensures Usable(item, target, isV6)
    ensures var h, p := TcpHdr(item), TcpFinished(target, isV6);
            && CheckedHdr(h, p) == Ok(h) && CsumInHeader(h)
            && ReadPackets(h, p).Ok?
            && var packets := ReadPackets(h, p).value;
            && |packets| == |ms|
            && forall k :: 0 <= k < |ms| ==> SameSegment(packets[k], ms[k], isV6)
                                             && (Psh(packets[k], isV6) <==> k == |ms| - 1 && MergedPsh(target, isV6))
  {
    TcpHdrAccepted(item, target, ms, isV6);
    TcpSegCount(item, target, ms, isV6);
    var h, p := TcpHdr(item), TcpFinished(target, isV6);
    hide TcpGroup, TcpFinished, TcpHdr, SameSegment, CheckedHdr, HeaderError, SegCount, Segment, SegStart, MergedPsh;
    var packets := ReadPackets(h, p).value;
    forall k | 0 <= k < |ms|
      ensures SameSegment(packets[k], ms[k], isV6)
              && (Psh(packets[k], isV6) <==> k == |ms| - 1 && MergedPsh(target, isV6))
    {
      TcpSegmentMatches(item, target, ms, isV6, k);
    }
  }

  lemma SentSeqIs(item: TcpItem, target: seq<byte>, ms: seq<seq<byte>>, isV6: bool)
    requires TcpGroup(item, target, ms, isV6) && |target| >= IpLen(isV6) + 20
    ensures Be32(TcpFinished(target, isV6), IpLen(isV6) + 4) == item.sentSeq
  {
    GroupHeaders(item, target, ms, isV6);
    TcpFinishedBytes(item, target, ms, isV6);
    hide TcpGroup, TcpFinished, TcpCandidate, TcpPayloads;
    SeqNoOf(TcpFinished(target, isV6), ms[0], isV6);
  }

  lemma SeqNoOf(p: seq<byte>, m: seq<byte>, isV6: bool)
    requires TcpCandidate(m, isV6) && HeadersOf(p, m, isV6)
    ensures Be32(p, IpLen(isV6) + 4) == SeqNo(m, isV6)
  {
    hide TcpCandidate;
  }

  lemma TcpSplits(item: TcpItem, target: seq<byte>, ms: seq<seq<byte>>, isV6: bool, k: nat)
    requires TcpGroup(item, target, ms, isV6) && k < |ms| && Usable(item, target, isV6)
    ensures TcpSplit(TcpHdr(item), TcpFinished(target, isV6), ms[0], isV6, k)
  {
    TcpHdrAccepted(item, target, ms, isV6);
    TcpSegCount(item, target, ms, isV6);
    TcpFinishedBytes(item, target, ms, isV6);
    hide TcpGroup, TcpFinished, TcpCandidate, CheckedHdr, SegCount, HeadersOf, TcpPayloads, IsV6;
    SegmentExists(TcpHdr(item), |target|, k);
  }

  lemma TcpSegmentMatches(item: TcpItem, target: seq<byte>, ms: seq<seq<byte>>, isV6: bool, k: nat)
    requires TcpGroup(item, target, ms, isV6) && k < |ms| && Usable(item, target, isV6)
    ensures var h, p := TcpHdr(item), TcpFinished(target, isV6);
            && Splittable(h, |p|, isV6) && SegStart(h, k) < |p|
            && SameSegment(Cut(h, p, isV6, k), ms[k], isV6)
            && (Psh(Cut(h, p, isV6, k), isV6) <==> k == |ms| - 1 && MergedPsh(target, isV6))
  {
    hide TcpGroup, TcpFinished, TcpHdr, TcpPayloads, Splittable, TcpCandidate, Cut, HeadersOf, HdrFor, SegStart,
      SegCount, SameSegment, SameStream, SeqNo, Be32, HeadersLen, Uniform, Concat, MergedPsh;
    var h, p := TcpHdr(item), TcpFinished(target, isV6);
    TcpSplits(item, target, ms, isV6, k);
    MemberStream(item, target, ms, isV6, k);
    TcpShape(item, target, ms, isV6);
    TcpFinishedBytes(item, target, ms, isV6);
    SentSeqIs(item, target, ms, isV6);
    TcpCutPsh(item, target, ms, isV6, k);
    CutMatches(h, p, ms, TcpPayloads(ms, isV6), isV6, k);
    SamePsh(Cut(h, p, isV6, k), ms[k], isV6);
  }

  /** The header in the merged packet has PSH. */
  predicate MergedPsh(target: seq<byte>, isV6: bool)
    requires |target| >= IpLen(isV6) + 14
  {
    target[IpLen(isV6) + TCP_FLAGS_OFFSET] == TCP_FLAG_ACK + TCP_FLAG_PSH
  }

  /** It can only come from the last member. */
  lemma MergedPshIsLast(item: TcpItem, target: seq<byte>, ms: seq<seq<byte>>, isV6: bool)
    requires TcpGroup(item, target, ms, isV6)
    ensures |target| >= IpLen(isV6) + 14
    ensures MergedPsh(target, isV6) ==> Psh(ms[|ms| - 1], isV6)
  {
    hide ChecksumValid, KeyOf, SeqNo, SameStream, Contiguous, TcpPayloads;
    var m := ms[0];
    assert m[IpLen(isV6) + TCP_FLAGS_OFFSET] == Flags(m, isV6);
  }

  lemma CutPsh(h: VirtioHdr, p: seq<byte>, m: seq<byte>, isV6: bool, k: nat)
    requires TcpSplit(h, p, m, isV6, k)
    ensures Cut(h, p, isV6, k)[h.csumStart + TCP_FLAGS_OFFSET] ==
            if k + 1 == SegCount(h, |p|) then p[h.csumStart + TCP_FLAGS_OFFSET] else TCP_FLAG_ACK
  {
    hide Segment, SegStart, SegCount, TcpCandidate, Cleared, IpVolatile, Be32, Be16, HeadersLen;
    ClearedFields(p, h, isV6);
    OnlyLastIsShort(h, |p|, k);
    SegmentTransportFields(Cleared(p, h, isV6), h, isV6, k);
  }

  lemma FinishedFlags(target: seq<byte>, isV6: bool)
    requires |target| >= IpLen(isV6) + 20
    ensures TcpFinished(target, isV6)[IpLen(isV6) + TCP_FLAGS_OFFSET] == target[IpLen(isV6) + TCP_FLAGS_OFFSET]
  {
    hide TcpFinished;
    TcpFinishedKeeps(target, isV6, IpLen(isV6) + TCP_FLAGS_OFFSET);
  }

  /** The flags of a segment: PSH on the last one if the merged header has it. */
  lemma TcpCutPsh(item: TcpItem, target: seq<byte>, ms: seq<seq<byte>>, isV6: bool, k: nat)
    requires TcpGroup(item, target, ms, isV6) && k < |ms| && Usable(item, target, isV6)
    ensures TcpSplit(TcpHdr(item), TcpFinished(target, isV6), ms[0], isV6, k)
    ensures var flags := Cut(TcpHdr(item), TcpFinished(target, isV6), isV6, k)[IpLen(isV6) + TCP_FLAGS_OFFSET];
            && (flags == TCP_FLAG_ACK + TCP_FLAG_PSH <==> k == |ms| - 1 && MergedPsh(target, isV6))
            && (k == |ms| - 1 && MergedPsh(target, isV6) ==> Psh(ms[k], isV6))
  {
    hide TcpGroup, TcpFinished, TcpCandidate, SegCount, SegStart, HeadersOf, HdrFor, Cut, Splittable;
    TcpSplits(item, target, ms, isV6, k);
    TcpSegCount(item, target, ms, isV6);
    TcpShape(item, target, ms, isV6);
    CutPsh(TcpHdr(item), TcpFinished(target, isV6), ms[0], isV6, k);
    FinishedFlags(target, isV6);
    MergedPshIsLast(item, target, ms, isV6);
  }

  lemma SamePsh(s: seq<byte>, m: seq<byte>, isV6: bool)
    requires SameSegment(s, m, isV6)
    ensures TcpCandidate(s, isV6)
    ensures Psh(s, isV6) <==> s[IpLen(isV6) + TCP_FLAGS_OFFSET] == TCP_FLAG_ACK + TCP_FLAG_PSH
  {
    hide TcpCandidate, SameTcpBytes, Verifies;
  }

  lemma CutMatches(h: VirtioHdr, p: seq<byte>, ms: seq<seq<byte>>, parts: seq<seq<byte>>, isV6: bool, k: nat)
    requires k < |ms| == |parts| && TcpSplit(h, p, ms[0], isV6, k)
    requires TcpCandidate(ms[k], isV6) && SameStream(ms[0], ms[k], isV6)
    requires Cut(h, p, isV6, k)[IpLen(isV6) + TCP_FLAGS_OFFSET] == TCP_FLAG_ACK + TCP_FLAG_PSH ==> Psh(ms[k], isV6)
    requires SeqNo(ms[k], isV6) == (Be32(p, IpLen(isV6) + 4) + k * h.gsoSize) % 0x1_0000_0000
    requires parts[k] == TcpPayload(ms[k], isV6) && Uniform(parts, h.gsoSize) && p[h.hdrLen..] == Concat(parts)
    ensures SameSegment(Cut(h, p, isV6, k), ms[k], isV6)
  {
    hide TcpCandidate, Cut, HeadersOf, HdrFor, Splittable, SegStart, SegCount, Verifies, IpHeaderValid, SameStream,
      SeqNo, Be32, HeadersLen, Uniform, Concat, SameTcpBytes;
    CutIsMember(h, p, ms[0], ms[k], isV6, k);
    CutPayload(h, p, parts, isV6, k);
    SameStreamBytes(ms[k], Cut(h, p, isV6, k), isV6);
  }

  lemma TcpShape(item: TcpItem, target: seq<byte>, ms: seq<seq<byte>>, isV6: bool)
    requires TcpGroup(item, target, ms, isV6)
    ensures Usable(item, target, isV6)
    ensures var h := TcpHdr(item);
            h.hdrLen == HeadersLen(ms[0], isV6) && h.gsoSize == item.gsoSize && h.csumStart == IpLen(isV6)
  {
    GroupIsUsable(item, target, ms, isV6);
    GroupHeaders(item, target, ms, isV6);
    hide TcpGroup, TcpCandidate, SeqNo, TcpPayloads;
  }

  /** Up to sequence number and payload, segment k belongs where member mk does. */
  lemma CutIsMember(h: VirtioHdr, p: seq<byte>, m: seq<byte>, mk: seq<byte>, isV6: bool, k: nat)
    requires TcpSplit(h, p, m, isV6, k) && TcpCandidate(mk, isV6) && SameStream(m, mk, isV6)
    ensures var s := Cut(h, p, isV6, k);
            && TcpCandidate(s, isV6) && SameStream(mk, s, isV6) && HeadersLen(s, isV6) == h.hdrLen
            && SeqNo(s, isV6) == (Be32(p, IpLen(isV6) + 4) + k * h.gsoSize) % 0x1_0000_0000
            && Verifies(s, IpLen(isV6), 6, isV6) && (!isV6 ==> IpHeaderValid(s, 20))
  {
    hide TcpCandidate, Cut, HeadersOf, Splittable, SegStart, SegCount, Verifies, IpHeaderValid, SameStream,
      AlikeTcp, Be32, HeadersLen, IpLengthExact;
    var s := Cut(h, p, isV6, k);
    CutSums(h, p, m, isV6, k);
    CutSeqNo(h, p, m, isV6, k);
    CutIsAlike(h, p, m, isV6, k);
    AlikeIsCandidate(s, m, isV6);
    AlikeIsSameStream(s, m, isV6);
    SameStreamSymmetric(m, mk, isV6);
    SameStreamTransitive(mk, m, s, isV6);
  }

  lemma MemberStream(item: TcpItem, target: seq<byte>, ms: seq<seq<byte>>, isV6: bool, k: nat)
    requires TcpGroup(item, target, ms, isV6) && k < |ms|
    ensures TcpCandidate(ms[0], isV6) && TcpCandidate(ms[k], isV6) && SameStream(ms[0], ms[k], isV6)
    ensures SeqNo(ms[k], isV6) == (item.sentSeq + k * item.gsoSize) % 0x1_0000_0000
    ensures (forall j :: 0 <= j < |ms| ==> TcpCandidate(ms[j], isV6)) && Uniform(TcpPayloads(ms, isV6), item.gsoSize)
    ensures TcpPayloads(ms, isV6)[k] == TcpPayload(ms[k], isV6)
  {
    hide ChecksumValid, SameStream, HeadersFrom;
    SeqNoAt(ms, isV6, k);
    RunIsUniform(ms, isV6);
  }
}
