/** gso_split and gso_none_checksum: one large packet becomes a run of well-formed segments. */
module Gso {
  import opened Bytes
  import opened Checksum
  import opened Packet
  import opened Wire

  datatype GsoError =
    | SizesTooShort | TooManyBuffers | ZeroGsoSize | HdrLenBelowCsumStart | CsumStartBelowIpHeader
    | InputBelowHdrLen | IpTooShort | CsumBeyondInput | TcpHeaderShort | UdpHeaderShort
    | AddressesBeyondInput | TooManySegments | OutputTooSmall

  predicate IsTcp(hdr: VirtioHdr) {
    hdr.gsoType == VIRTIO_NET_HDR_GSO_TCPV4 || hdr.gsoType == VIRTIO_NET_HDR_GSO_TCPV6
  }

  function Protocol(hdr: VirtioHdr): byte { if IsTcp(hdr) then IPPROTO_TCP else IPPROTO_UDP }

  /** The checks made before the first segment, in order. */
  function HeaderError(hdr: VirtioHdr, len: nat, isV6: bool, outs: nat, sizes: nat): Option<GsoError> {
    if sizes < outs then Some(SizesTooShort)
    else if outs > 0xFFFF then Some(TooManyBuffers)
    else if hdr.gsoSize == 0 then Some(ZeroGsoSize)
    else if hdr.hdrLen < hdr.csumStart then Some(HdrLenBelowCsumStart)
    else if hdr.csumStart < IpLen(isV6) then Some(CsumStartBelowIpHeader)
    else if len < hdr.hdrLen then Some(InputBelowHdrLen)
    else if len < IpLen(isV6) then Some(IpTooShort)
    else if hdr.csumStart + hdr.csumOffset + 1 >= len then Some(CsumBeyondInput)
    else if IsTcp(hdr) && (hdr.hdrLen < hdr.csumStart + 20 || hdr.csumStart + TCP_FLAGS_OFFSET + 1 > len) then
      Some(TcpHeaderShort)
    else if !IsTcp(hdr) && hdr.hdrLen < hdr.csumStart + UDP_H_LEN then Some(UdpHeaderShort)
    else if SrcAddrAt(isV6) + 2 * AddrLen(isV6) > len then Some(AddressesBeyondInput)
    else None
  }

  /** The checks pass exactly when the header describes a packet that can be cut, of a kind told by its type. */
  lemma HeaderAccepted(hdr: VirtioHdr, len: nat, isV6: bool, outs: nat, sizes: nat)
    ensures HeaderError(hdr, len, isV6, outs, sizes) == None <==>
            && outs <= sizes && outs <= 65535 && hdr.gsoSize > 0
            && (if isV6 then 40 else 20) <= hdr.csumStart
            && hdr.csumStart + (if hdr.gsoType == 1 || hdr.gsoType == 4 then 20 else 8) <= hdr.hdrLen <= len
            && hdr.csumStart + hdr.csumOffset + 2 <= len
  {}

  /** The checksum field lies inside the transport header. */
  predicate CsumInHeader(hdr: VirtioHdr) {
    hdr.csumStart + hdr.csumOffset + 2 <= hdr.hdrLen
  }

  /** What the checks establish for a packet of the given length. */
  predicate Cuttable(hdr: VirtioHdr, len: nat, isV6: bool) {
    && hdr.gsoSize > 0
    && IpLen(isV6) <= hdr.csumStart <= hdr.hdrLen <= len
    && hdr.csumStart + (if IsTcp(hdr) then 20 else UDP_H_LEN) <= hdr.hdrLen
    && hdr.csumStart + hdr.csumOffset + 2 <= len
  }

  /** A packet that can be cut, with its checksum field inside the transport header. */
  predicate Splittable(hdr: VirtioHdr, len: nat, isV6: bool) {
    Cuttable(hdr, len, isV6) && CsumInHeader(hdr)
  }

  /** The two checksum fields cleared: the IPv4 header's, and the transport's. */
  function Cleared(input: seq<byte>, hdr: VirtioHdr, isV6: bool): (r: seq<byte>)
    requires |input| >= 20 && hdr.csumStart + hdr.csumOffset + 1 < |input|
    ensures |r| == |input|
  {
    Put16(ClearedIp(input, isV6), hdr.csumStart + hdr.csumOffset, 0)
  }

  function ClearedIp(input: seq<byte>, isV6: bool): (r: seq<byte>)
    requires |input| >= 20
  {
    if isV6 then input else Put16(input, 10, 0)
  }

  /** What a call leaves in the input buffer: clearing stops where checking stops. */
  function InputAfter(input: seq<byte>, hdr: VirtioHdr, isV6: bool, outs: nat, sizes: nat): (r: seq<byte>) {
    match HeaderError(hdr, |input|, isV6, outs, sizes)
    case Some(e) =>
      if e == CsumBeyondInput then ClearedIp(input, isV6)
      else if e == TcpHeaderShort || e == UdpHeaderShort || e == AddressesBeyondInput then Cleared(input, hdr, isV6)
      else input
    case None => Cleared(input, hdr, isV6)
  }

  // ----- The segments -----

  /** Where the payload of segment i starts and ends in the input. */
  function SegStart(hdr: VirtioHdr, i: nat): (r: nat)
    ensures r >= hdr.hdrLen
  {
    hdr.hdrLen + i * hdr.gsoSize
  }

  function SegEnd(hdr: VirtioHdr, len: nat, i: nat): nat {
    if SegStart(hdr, i) + hdr.gsoSize > len then len else SegStart(hdr, i) + hdr.gsoSize
  }

  /** The number of segments: the payload length over the segment size, rounded up. */
  function SegCount(hdr: VirtioHdr, len: nat): nat
    requires hdr.gsoSize > 0 && hdr.hdrLen <= len
  {
    (len - hdr.hdrLen + hdr.gsoSize - 1) / hdr.gsoSize
  }

  function IpHeaderFor(ip: seq<byte>, isV6: bool, i: nat, total: nat): (r: seq<byte>)
    requires |ip| >= IpLen(isV6) && (isV6 ==> total >= 40)
    ensures |r| == |ip|
  {
    if isV6 then Put16(ip, 4, (total - 40) % 0x1_0000)
    else
      var numbered := Put16(Put16(ip, 4, (Be16(ip, 4) + i) % 0x1_0000), 2, total % 0x1_0000);
      Put16(numbered, 10, Not16(Sum(numbered, 0)))
  }

  function TransportFor(th: seq<byte>, hdr: VirtioHdr, i: nat, last: bool, dataLen: nat): (r: seq<byte>)
    requires |th| >= if IsTcp(hdr) then 20 else UDP_H_LEN
    ensures |r| == |th|
  {
    if IsTcp(hdr) then
      var advanced := Put32(th, 4, (Be32(th, 4) + i * hdr.gsoSize) % 0x1_0000_0000);
      if last then advanced else advanced[TCP_FLAGS_OFFSET := ClearFinPsh(advanced[TCP_FLAGS_OFFSET])]
    else
      Put16(th, 4, (dataLen + |th|) % 0x1_0000)
  }

  /** Transport header and payload of segment i before its checksum is filled in. */
  function Unsummed(input: seq<byte>, hdr: VirtioHdr, isV6: bool, i: nat): (r: seq<byte>)
    requires Cuttable(hdr, |input|, isV6) && SegStart(hdr, i) < |input|
    ensures |r| == SegLen(hdr, |input|, i) - hdr.csumStart
  {
    var start, end := SegStart(hdr, i), SegEnd(hdr, |input|, i);
    TransportFor(input[hdr.csumStart..hdr.hdrLen], hdr, i, end == |input|, end - start) + input[start..end]
  }

  function SegLen(hdr: VirtioHdr, len: nat, i: nat): nat
    requires SegStart(hdr, i) < len
  {
    hdr.hdrLen + SegEnd(hdr, len, i) - SegStart(hdr, i)
  }

  /** The checksum that goes into segment i. */
  function SegCsum(input: seq<byte>, hdr: VirtioHdr, isV6: bool, i: nat): u16
    requires Cuttable(hdr, |input|, isV6) && SegStart(hdr, i) < |input|
  {
    var t := Unsummed(input, hdr, isV6, i);
    Not16(Sum(t, PseudoOf(input, Protocol(hdr), isV6, |t| % 0x1_0000)))
  }

  /** Segment i of an input whose checksum fields are cleared. */
  function Segment(input: seq<byte>, hdr: VirtioHdr, isV6: bool, i: nat): (r: seq<byte>)
    requires Splittable(hdr, |input|, isV6) && SegStart(hdr, i) < |input|
    ensures |r| == SegLen(hdr, |input|, i)
  {
    SegIp(input, hdr, isV6, i) + SegTransport(input, hdr, isV6, i)
  }

  function SegIp(input: seq<byte>, hdr: VirtioHdr, isV6: bool, i: nat): (r: seq<byte>)
    requires Cuttable(hdr, |input|, isV6) && SegStart(hdr, i) < |input|
    ensures |r| == hdr.csumStart
  {
    IpHeaderFor(input[..hdr.csumStart], isV6, i, SegLen(hdr, |input|, i))
  }

  function SegTransport(input: seq<byte>, hdr: VirtioHdr, isV6: bool, i: nat): (r: seq<byte>)
    requires Splittable(hdr, |input|, isV6) && SegStart(hdr, i) < |input|
    ensures |r| == SegLen(hdr, |input|, i) - hdr.csumStart
  {
    Put16(Unsummed(input, hdr, isV6, i), hdr.csumOffset, SegCsum(input, hdr, isV6, i))
  }

  /** i counts a segment exactly when its payload starts before the end of the input. */
  lemma SegmentExists(hdr: VirtioHdr, len: nat, i: nat)
    requires hdr.gsoSize > 0 && hdr.hdrLen <= len
    ensures i < SegCount(hdr, len) <==> SegStart(hdr, i) < len
  {
    var n := SegCount(hdr, len);
    var g := hdr.gsoSize;
    if i < n {
      MulMono(i, n - 1, g);
      Distribute(n - 1, g);
    } else {
      MulMono(n, i, g);
    }
  }

  /** Before the last segment every payload is full; the last one ends the input. */
  lemma OnlyLastIsShort(hdr: VirtioHdr, len: nat, i: nat)
    requires hdr.gsoSize > 0 && hdr.hdrLen <= len && i < SegCount(hdr, len)
    ensures i + 1 < SegCount(hdr, len) ==> SegEnd(hdr, len, i) == SegStart(hdr, i + 1) < len
    ensures i + 1 == SegCount(hdr, len) ==> SegEnd(hdr, len, i) == len
  {
    SegmentExists(hdr, len, i);
    SegmentExists(hdr, len, i + 1);
    Distribute(i, hdr.gsoSize);
  }

  /** The payload of a segment. */
  function Payload(segment: seq<byte>, hdr: VirtioHdr): seq<byte> {
    if hdr.hdrLen <= |segment| then segment[hdr.hdrLen..] else []
  }

  /** Segments 0 up to n. */
  function Segments(input: seq<byte>, hdr: VirtioHdr, isV6: bool, n: nat): (r: seq<seq<byte>>)
    requires Splittable(hdr, |input|, isV6)
    requires forall i :: 0 <= i < n ==> SegStart(hdr, i) < |input|
    ensures |r| == n
  {
    seq(n, i requires 0 <= i < n => Segment(input, hdr, isV6, i))
  }

  /** The whole run of segments that the input is cut into. */
  function AllSegments(input: seq<byte>, hdr: VirtioHdr, isV6: bool): (r: seq<seq<byte>>)
    requires Splittable(hdr, |input|, isV6)
    ensures |r| == SegCount(hdr, |input|)
  {
    InRange(hdr, |input|, SegCount(hdr, |input|));
    Segments(input, hdr, isV6, SegCount(hdr, |input|))
  }

  lemma InRange(hdr: VirtioHdr, len: nat, n: nat)
    requires hdr.gsoSize > 0 && hdr.hdrLen <= len && n <= SegCount(hdr, len)
    ensures forall i :: 0 <= i < n ==> SegStart(hdr, i) < len
  {
    forall i | 0 <= i < n ensures SegStart(hdr, i) < len {
      SegmentExists(hdr, len, i);
    }
  }

  function Payloads(segments: seq<seq<byte>>, hdr: VirtioHdr): (r: seq<seq<byte>>) {
    seq(|segments|, k requires 0 <= k < |segments| => Payload(segments[k], hdr))
  }

  lemma SegmentPayload(input: seq<byte>, hdr: VirtioHdr, isV6: bool, i: nat)
    requires Splittable(hdr, |input|, isV6) && SegStart(hdr, i) < |input|
    ensures Payload(Segment(input, hdr, isV6, i), hdr) == input[SegStart(hdr, i)..SegEnd(hdr, |input|, i)]
  {
    hide SegIp, SegStart, Unsummed, SegCsum;
    var t, th := Unsummed(input, hdr, isV6, i), hdr.hdrLen - hdr.csumStart;
    UnsummedPayload(input, hdr, isV6, i);
    DropBehind(SegIp(input, hdr, isV6, i), SegTransport(input, hdr, isV6, i), th);
    SameSlice(SegTransport(input, hdr, isV6, i), t, th, |t|);
    assert SegTransport(input, hdr, isV6, i)[th..] == SegTransport(input, hdr, isV6, i)[th..|t|];
    assert t[th..] == t[th..|t|];
  }

  lemma UnsummedPayload(input: seq<byte>, hdr: VirtioHdr, isV6: bool, i: nat)
    requires Cuttable(hdr, |input|, isV6) && SegStart(hdr, i) < |input|
    ensures Unsummed(input, hdr, isV6, i)[hdr.hdrLen - hdr.csumStart..] ==
            input[SegStart(hdr, i)..SegEnd(hdr, |input|, i)]
  {
    hide TransportFor;
  }

  lemma DropBehind(a: seq<byte>, b: seq<byte>, n: nat)
    requires n <= |b|
    ensures (a + b)[|a| + n..] == b[n..]
  {}

  /** Where the payload of the first n segments ends. */
  function CutAt(hdr: VirtioHdr, len: nat, n: nat): nat {
    if SegStart(hdr, n) < len then SegStart(hdr, n) else len
  }

  lemma CutStep(hdr: VirtioHdr, len: nat, i: nat)
    requires hdr.gsoSize > 0 && hdr.hdrLen <= len && SegStart(hdr, i) < len
    ensures CutAt(hdr, len, i) == SegStart(hdr, i) <= SegEnd(hdr, len, i) == CutAt(hdr, len, i + 1)
  {
    Distribute(i, hdr.gsoSize);
  }

  /** The payloads of the segments, one after the other, are the payload of the input. */
  lemma PayloadsConcatenate(input: seq<byte>, hdr: VirtioHdr, isV6: bool)
    requires Splittable(hdr, |input|, isV6)
    ensures Concat(Payloads(AllSegments(input, hdr, isV6), hdr)) == input[hdr.hdrLen..]
  {
    var n := SegCount(hdr, |input|);
    InRange(hdr, |input|, n);
    PayloadsUpTo(input, hdr, isV6, n);
    SegmentExists(hdr, |input|, n);
  }

  lemma {:induction false} PayloadsUpTo(input: seq<byte>, hdr: VirtioHdr, isV6: bool, n: nat)
    requires Splittable(hdr, |input|, isV6)
    requires forall i :: 0 <= i < n ==> SegStart(hdr, i) < |input|
    ensures hdr.hdrLen <= CutAt(hdr, |input|, n) <= |input|
    ensures Concat(Payloads(Segments(input, hdr, isV6, n), hdr)) == input[hdr.hdrLen..CutAt(hdr, |input|, n)]
  {
    hide Segment, SegCount;
    if n == 0 {
      assert SegStart(hdr, 0) == hdr.hdrLen;
    } else {
      PayloadsUpTo(input, hdr, isV6, n - 1);
      var before, last := Segments(input, hdr, isV6, n - 1), Segment(input, hdr, isV6, n - 1);
      assert Segments(input, hdr, isV6, n) == before + [last];
      AppendPayload(before, last, hdr);
      SegmentPayload(input, hdr, isV6, n - 1);
      CutStep(hdr, |input|, n - 1);
      JoinSlices(input, hdr.hdrLen, SegStart(hdr, n - 1), SegEnd(hdr, |input|, n - 1));
    }
  }

  lemma AppendPayload(segments: seq<seq<byte>>, last: seq<byte>, hdr: VirtioHdr)
    ensures Concat(Payloads(segments + [last], hdr)) == Concat(Payloads(segments, hdr)) + Payload(last, hdr)
  {
    assert Payloads(segments + [last], hdr) == Payloads(segments, hdr) + [Payload(last, hdr)];
    ConcatAppend(Payloads(segments, hdr), Payload(last, hdr));
  }

  lemma JoinSlices(b: seq<byte>, lo: nat, mid: nat, hi: nat)
    requires lo <= mid <= hi <= |b|
    ensures b[lo..mid] + b[mid..hi] == b[lo..hi]
  {}

  // ----- What is in a segment -----

  /** The checksum field is where TCP (offset 16) and UDP (offset 6) have it. */
  predicate StandardCsum(hdr: VirtioHdr) {
    hdr.csumOffset == if IsTcp(hdr) then 16 else 6
  }

  /** The bytes of the headers that a segment does not share with the input. */
  predicate Rewritten(hdr: VirtioHdr, isV6: bool, at: nat) {
    || (if isV6 then 4 <= at < 6 else 2 <= at < 6 || 10 <= at < 12)
    || (if IsTcp(hdr) then hdr.csumStart + 4 <= at < hdr.csumStart + 8 || at == hdr.csumStart + TCP_FLAGS_OFFSET
        else hdr.csumStart + 4 <= at < hdr.csumStart + 6)
    || hdr.csumStart + hdr.csumOffset <= at < hdr.csumStart + hdr.csumOffset + 2
  }

  lemma SegmentParts(input: seq<byte>, hdr: VirtioHdr, isV6: bool, i: nat)
    requires Splittable(hdr, |input|, isV6) && SegStart(hdr, i) < |input|
    ensures var s := Segment(input, hdr, isV6, i);
            && s[..hdr.csumStart] == SegIp(input, hdr, isV6, i)
            && s[hdr.csumStart..] == SegTransport(input, hdr, isV6, i)
  {
    hide SegIp, SegTransport;
    SplitAt(SegIp(input, hdr, isV6, i), SegTransport(input, hdr, isV6, i));
  }

  lemma SplitAt(a: seq<byte>, b: seq<byte>)
    ensures (a + b)[..|a|] == a && (a + b)[|a|..] == b
  {}

  /** Every header byte outside the rewritten fields is the input's. */
  lemma SegmentKeeps(input: seq<byte>, hdr: VirtioHdr, isV6: bool, i: nat, at: nat)
    requires Splittable(hdr, |input|, isV6) && SegStart(hdr, i) < |input|
    requires at < hdr.hdrLen && !Rewritten(hdr, isV6, at)
    ensures Segment(input, hdr, isV6, i)[at] == input[at]
  {
    hide SegIp, SegStart, Unsummed, SegCsum, TransportFor, IpHeaderFor;
    if at < hdr.csumStart {
      SegIpKeeps(input, hdr, isV6, i, at);
      assert Segment(input, hdr, isV6, i)[at] == SegIp(input, hdr, isV6, i)[at];
    } else {
      UnsummedHeader(input, hdr, isV6, i, at - hdr.csumStart);
      TransportKeeps(input[hdr.csumStart..hdr.hdrLen], hdr, i, SegEnd(hdr, |input|, i) == |input|,
                     SegEnd(hdr, |input|, i) - SegStart(hdr, i), at - hdr.csumStart);
      assert Segment(input, hdr, isV6, i)[at] == SegTransport(input, hdr, isV6, i)[at - hdr.csumStart];
    }
  }

  lemma SegIpKeeps(input: seq<byte>, hdr: VirtioHdr, isV6: bool, i: nat, at: nat)
    requires Cuttable(hdr, |input|, isV6) && SegStart(hdr, i) < |input|
    requires at < hdr.csumStart && !(if isV6 then 4 <= at < 6 else 2 <= at < 6 || 10 <= at < 12)
    ensures SegIp(input, hdr, isV6, i)[at] == input[at]
  {
    hide Sum, SegStart;
  }

  lemma TransportKeeps(th: seq<byte>, hdr: VirtioHdr, i: nat, last: bool, dataLen: nat, k: nat)
    requires |th| >= (if IsTcp(hdr) then 20 else UDP_H_LEN) && k < |th|
    requires !(if IsTcp(hdr) then 4 <= k < 8 || k == TCP_FLAGS_OFFSET else 4 <= k < 6)
    ensures TransportFor(th, hdr, i, last, dataLen)[k] == th[k]
  {}

  lemma UnsummedHeader(input: seq<byte>, hdr: VirtioHdr, isV6: bool, i: nat, at: nat)
    requires Splittable(hdr, |input|, isV6) && SegStart(hdr, i) < |input| && hdr.csumStart + at < hdr.hdrLen
    ensures var last := SegEnd(hdr, |input|, i) == |input|;
            Unsummed(input, hdr, isV6, i)[at] ==
            TransportFor(input[hdr.csumStart..hdr.hdrLen], hdr, i, last, SegEnd(hdr, |input|, i) - SegStart(hdr, i))[at]
  {}

  lemma IpHeaderFields(ip: seq<byte>, isV6: bool, i: nat, total: nat)
    requires |ip| >= IpLen(isV6) && (if isV6 then 40 else 0) <= total <= 0xFFFF
    requires !isV6 ==> Be16(ip, 10) == 0
    ensures var r := IpHeaderFor(ip, isV6, i, total);
            if isV6 then Be16(r, 4) == total - 40
            else Be16(r, 2) == total && Be16(r, 4) == (Be16(ip, 4) + i) % 0x1_0000 && Sum(r, 0) == 0xFFFF
  {
    if !isV6 {
      var numbered := Put16(Put16(ip, 4, (Be16(ip, 4) + i) % 0x1_0000), 2, total % 0x1_0000);
      hide Sum;
      ChecksumCompletes(numbered, 10, 0, 0);
    }
  }

  lemma TransportFields(th: seq<byte>, hdr: VirtioHdr, i: nat, last: bool, dataLen: nat)
    requires |th| >= (if IsTcp(hdr) then 20 else UDP_H_LEN)
    ensures var r := TransportFor(th, hdr, i, last, dataLen);
            && (IsTcp(hdr) ==>
                  && Be32(r, 4) == (Be32(th, 4) + i * hdr.gsoSize) % 0x1_0000_0000
                  && r[13] == if last then th[13] else ClearFinPsh(th[13]))
            && (!IsTcp(hdr) ==> Be16(r, 4) == (dataLen + |th|) % 0x1_0000)
            && (StandardCsum(hdr) ==> Be16(r, hdr.csumOffset) == Be16(th, hdr.csumOffset))
  {}

  /** The IP header of a segment: exact length, consecutive IPv4 identification, and a valid header sum. */
  lemma SegmentIpFields(input: seq<byte>, hdr: VirtioHdr, isV6: bool, i: nat)
    requires Splittable(hdr, |input|, isV6) && SegStart(hdr, i) < |input|
    requires SegLen(hdr, |input|, i) <= 0xFFFF
    requires !isV6 ==> Be16(input, 10) == 0
    ensures var s := Segment(input, hdr, isV6, i);
            && IpLengthExact(s, isV6)
            && (!isV6 ==> Be16(s, 4) == (Be16(input, 4) + i) % 0x1_0000 && IpHeaderValid(s, hdr.csumStart))
  {
    var s := Segment(input, hdr, isV6, i);
    SegmentParts(input, hdr, isV6, i);
    IpHeaderFields(input[..hdr.csumStart], isV6, i, |s|);
    hide Segment, SegTransport, SegStart, Sum, IpHeaderFor;
    assert s[..hdr.csumStart] == IpHeaderFor(input[..hdr.csumStart], isV6, i, |s|);
  }

  /** The transport header of a segment: sequence number, flags, UDP length. */
  lemma SegmentTransportFields(input: seq<byte>, hdr: VirtioHdr, isV6: bool, i: nat)
    requires Splittable(hdr, |input|, isV6) && SegStart(hdr, i) < |input| && StandardCsum(hdr)
    requires SegLen(hdr, |input|, i) <= 0xFFFF
    ensures var s := Segment(input, hdr, isV6, i);
            var flagsAt := hdr.csumStart + TCP_FLAGS_OFFSET;
            && hdr.hdrLen <= |s|
            && (IsTcp(hdr) ==>
                  && Be32(s, hdr.csumStart + 4) == (Be32(input, hdr.csumStart + 4) + i * hdr.gsoSize) % 0x1_0000_0000
                  && s[flagsAt] ==
                     if SegEnd(hdr, |input|, i) == |input| then input[flagsAt]
                     else ClearFinPsh(input[flagsAt]))
            && (!IsTcp(hdr) ==> Be16(s, hdr.csumStart + 4) == |s| - hdr.csumStart)
  {
    hide Segment, SegStart, TransportFor;
    var th := input[hdr.csumStart..hdr.hdrLen];
    var last, dataLen := SegEnd(hdr, |input|, i) == |input|, SegEnd(hdr, |input|, i) - SegStart(hdr, i);
    TransportFields(th, hdr, i, last, dataLen);
    var r := TransportFor(th, hdr, i, last, dataLen);
    SegmentHeaderByte(input, hdr, isV6, i, 4);
    SegmentHeaderByte(input, hdr, isV6, i, 5);
    if IsTcp(hdr) {
      SegmentHeaderByte(input, hdr, isV6, i, 6);
      SegmentHeaderByte(input, hdr, isV6, i, 7);
      SegmentHeaderByte(input, hdr, isV6, i, 13);
    }
  }

  lemma SegmentHeaderByte(input: seq<byte>, hdr: VirtioHdr, isV6: bool, i: nat, k: nat)
    requires Splittable(hdr, |input|, isV6) && SegStart(hdr, i) < |input|
    requires k < hdr.hdrLen - hdr.csumStart && !(hdr.csumOffset <= k < hdr.csumOffset + 2)
    ensures |Segment(input, hdr, isV6, i)| >= hdr.hdrLen
    ensures Segment(input, hdr, isV6, i)[hdr.csumStart + k] ==
            TransportFor(input[hdr.csumStart..hdr.hdrLen], hdr, i, SegEnd(hdr, |input|, i) == |input|,
                         SegEnd(hdr, |input|, i) - SegStart(hdr, i))[k]
  {
    UnsummedHeader(input, hdr, isV6, i, k);
    hide SegIp, SegStart, Unsummed, TransportFor, Sum, PseudoOf;
    assert Segment(input, hdr, isV6, i)[hdr.csumStart + k] == SegTransport(input, hdr, isV6, i)[k];
  }

  /** The pseudo-header of a segment is that of the input, up to the length. */
  lemma SegmentPseudo(input: seq<byte>, hdr: VirtioHdr, isV6: bool, i: nat, length: u16)
    requires Splittable(hdr, |input|, isV6) && SegStart(hdr, i) < |input|
    ensures PseudoOf(Segment(input, hdr, isV6, i), Protocol(hdr), isV6, length) ==
            PseudoOf(input, Protocol(hdr), isV6, length)
  {
    var s := Segment(input, hdr, isV6, i);
    hide Segment, SegStart;
    forall at | SrcAddrAt(isV6) <= at < SrcAddrAt(isV6) + 2 * AddrLen(isV6) ensures s[at] == input[at] {
      SegmentKeeps(input, hdr, isV6, i, at);
    }
    SamePseudo(s, input, Protocol(hdr), isV6, length);
  }

  lemma UnsummedCsum(input: seq<byte>, hdr: VirtioHdr, isV6: bool, i: nat)
    requires Splittable(hdr, |input|, isV6) && SegStart(hdr, i) < |input| && StandardCsum(hdr)
    ensures Be16(Unsummed(input, hdr, isV6, i), hdr.csumOffset) == Be16(input, hdr.csumStart + hdr.csumOffset)
  {
    hide SegStart, Unsummed, TransportFor;
    var last, dataLen := SegEnd(hdr, |input|, i) == |input|, SegEnd(hdr, |input|, i) - SegStart(hdr, i);
    TransportFields(input[hdr.csumStart..hdr.hdrLen], hdr, i, last, dataLen);
    UnsummedHeader(input, hdr, isV6, i, hdr.csumOffset);
    UnsummedHeader(input, hdr, isV6, i, hdr.csumOffset + 1);
  }

  /** With its checksum filled in, the transport part of a segment sums to all ones. */
  lemma TransportSums(input: seq<byte>, hdr: VirtioHdr, isV6: bool, i: nat)
    requires Splittable(hdr, |input|, isV6) && SegStart(hdr, i) < |input| && StandardCsum(hdr)
    requires Be16(input, hdr.csumStart + hdr.csumOffset) == 0
    ensures var tail := SegTransport(input, hdr, isV6, i);
            Sum(tail, PseudoOf(input, Protocol(hdr), isV6, |tail| % 0x1_0000)) == 0xFFFF
  {
    hide Unsummed, SegStart, TransportFor, Sum, PseudoOf;
    var t := Unsummed(input, hdr, isV6, i);
    UnsummedCsum(input, hdr, isV6, i);
    var pseudo := PseudoOf(input, Protocol(hdr), isV6, |t| % 0x1_0000);
    ChecksumCompletes(t, hdr.csumOffset, pseudo, pseudo);
  }

  lemma ValidIfSums(s: seq<byte>, iphLen: nat, protocol: byte, isV6: bool)
    requires IpLen(isV6) <= iphLen <= |s| <= 0xFFFF
    ensures ChecksumValid(s, iphLen, protocol, isV6) <==>
            Sum(s[iphLen..], PseudoOf(s, protocol, isV6, |s| - iphLen)) == 0xFFFF
  {
    hide Sum, PseudoOf;
  }

  /** The transport checksum of a segment verifies. */
  lemma SegmentChecksum(input: seq<byte>, hdr: VirtioHdr, isV6: bool, i: nat)
    requires Splittable(hdr, |input|, isV6) && SegStart(hdr, i) < |input| && StandardCsum(hdr)
    requires SegLen(hdr, |input|, i) <= 0xFFFF
    requires Be16(input, hdr.csumStart + hdr.csumOffset) == 0
    ensures |Segment(input, hdr, isV6, i)| >= hdr.csumStart
    ensures var protocol := if hdr.gsoType == 1 || hdr.gsoType == 4 then 6 else 17;
            Verifies(Segment(input, hdr, isV6, i), hdr.csumStart, protocol, isV6)
  {
    hide Segment, SegTransport, SegStart, Sum, PseudoOf, ChecksumValid, Verifies;
    var s := Segment(input, hdr, isV6, i);
    SegmentParts(input, hdr, isV6, i);
    TransportSums(input, hdr, isV6, i);
    SegmentPseudo(input, hdr, isV6, i, |s| - hdr.csumStart);
    ValidIfSums(s, hdr.csumStart, Protocol(hdr), isV6);
    ChecksumValidIff(s, hdr.csumStart, Protocol(hdr), isV6);
  }

  /**
   Every segment cut from an input is a packet in its own right: its length fields are exact, its
   IPv4 header and its transport checksum verify, identifications and sequence numbers run on,
   FIN and PSH are on the last segment only, and no other header byte differs from the input's.
   */
  lemma SegmentsAreWellFormed(input: seq<byte>, hdr: VirtioHdr, isV6: bool, i: nat)
    requires Splittable(hdr, |input|, isV6) && StandardCsum(hdr) && SegStart(hdr, i) < |input|
    requires SegLen(hdr, |input|, i) <= 0xFFFF
    ensures var s := Segment(Cleared(input, hdr, isV6), hdr, isV6, i);
            var flagsAt := hdr.csumStart + TCP_FLAGS_OFFSET;
            && IpLengthExact(s, isV6)
            && (!isV6 ==> Be16(s, 4) == (Be16(input, 4) + i) % 0x1_0000 && IpHeaderValid(s, hdr.csumStart))
            && hdr.hdrLen <= |s| <= 0xFFFF
            && Verifies(s, hdr.csumStart, if hdr.gsoType == 1 || hdr.gsoType == 4 then 6 else 17, isV6)
            && (IsTcp(hdr) ==>
                  && Be32(s, hdr.csumStart + 4) == (Be32(input, hdr.csumStart + 4) + i * hdr.gsoSize) % 0x1_0000_0000
                  && s[flagsAt] ==
                     if i + 1 == SegCount(hdr, |input|) then input[flagsAt]
                     else ClearFinPsh(input[flagsAt]))
            && (!IsTcp(hdr) ==> Be16(s, hdr.csumStart + 4) == |s| - hdr.csumStart)
            && (forall at :: 0 <= at < hdr.hdrLen && !Rewritten(hdr, isV6, at) ==> s[at] == input[at])
  {
    hide SegCount, Segment, SegStart, IpHeaderValid, Verifies;
    var cleared := Cleared(input, hdr, isV6);
    SegmentExists(hdr, |input|, i);
    OnlyLastIsShort(hdr, |input|, i);
    SegmentIpFields(cleared, hdr, isV6, i);
    SegmentTransportFields(cleared, hdr, isV6, i);
    SegmentChecksum(cleared, hdr, isV6, i);
    forall at | 0 <= at < hdr.hdrLen && !Rewritten(hdr, isV6, at)
      ensures Segment(cleared, hdr, isV6, i)[at] == input[at]
    {
      SegmentKeeps(cleared, hdr, isV6, i, at);
    }
  }

  // ----- A packet whose checksum is left partial -----

  /** What gso_none_checksum makes of a packet. */
  function Completed(b: seq<byte>, csumStart: nat, csumOffset: nat): (r: seq<byte>)
    requires csumStart + csumOffset + 2 <= |b|
    ensures |r| == |b|
  {
    var at := csumStart + csumOffset;
    Put16(b, at, Not16(Sum(Put16(b, at, 0)[csumStart..], Be16(b, at))))
  }

  /** A packet with the folded pseudo-header sum in its checksum field is completed to one that verifies. */
  lemma PartialChecksumCompletes(b: seq<byte>, csumStart: nat, csumOffset: nat, protocol: byte, isV6: bool)
    requires IpLen(isV6) <= csumStart && csumStart + csumOffset + 2 <= |b| <= 0xFFFF && csumOffset % 2 == 0
    requires Be16(b, csumStart + csumOffset) == Sum([], PseudoOf(b, protocol, isV6, |b| - csumStart))
    ensures Verifies(Completed(b, csumStart, csumOffset), csumStart, protocol, isV6)
  {
    hide Sum, PseudoOf, ChecksumValid, Verifies;
    var at, r := csumStart + csumOffset, Completed(b, csumStart, csumOffset);
    var pseudo := PseudoOf(b, protocol, isV6, |b| - csumStart);
    var tail := Put16(b, at, 0)[csumStart..];
    SumResidue([], pseudo);
    assert r[csumStart..] == Put16(tail, csumOffset, Not16(Sum(tail, Be16(b, at))));
    assert PseudoOf(r, protocol, isV6, |b| - csumStart) == pseudo by {
      SamePseudo(b, r, protocol, isV6, |b| - csumStart);
    }
    ChecksumCompletes(tail, csumOffset, Be16(b, at), pseudo);
    ValidIfSums(r, csumStart, protocol, isV6);
    ChecksumValidIff(r, csumStart, protocol, isV6);
  }

  /** Completing makes the bytes from csumStart on sum to all ones, on top of what the field held before. */
  lemma CompletedSums(b: seq<byte>, csumStart: nat, csumOffset: nat)
    requires csumStart + csumOffset + 2 <= |b| && csumOffset % 2 == 0
    ensures Sum(Completed(b, csumStart, csumOffset)[csumStart..], Be16(b, csumStart + csumOffset)) == 0xFFFF
  {
    hide Sum;
    var at, r := csumStart + csumOffset, Completed(b, csumStart, csumOffset);
    var tail := Put16(b, at, 0)[csumStart..];
    assert r[csumStart..] == Put16(tail, csumOffset, Not16(Sum(tail, Be16(b, at))));
    ChecksumCompletes(tail, csumOffset, Be16(b, at), Be16(b, at));
  }

  /** The pseudo-header depends on the addresses only. */
  lemma SamePseudo(a: seq<byte>, b: seq<byte>, protocol: byte, isV6: bool, length: u16)
    requires |a| >= IpLen(isV6) && |b| >= IpLen(isV6)
    requires forall at :: SrcAddrAt(isV6) <= at < SrcAddrAt(isV6) + 2 * AddrLen(isV6) ==> a[at] == b[at]
    ensures PseudoOf(a, protocol, isV6, length) == PseudoOf(b, protocol, isV6, length)
  {
    var at, n := SrcAddrAt(isV6), AddrLen(isV6);
    SameSlice(a, b, at, at + n);
    SameSlice(a, b, at + n, at + n * 2);
  }
}
