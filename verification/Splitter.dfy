/** The in-place splitter and checksum writer, proved against the segments of module Gso. */
module Splitter {
  import opened Bytes
  import opened Checksum
  import opened Packet
  import opened Gso

  // ----- Writing into a window of a larger buffer -----

  /** Writing a field that lies in b[lo..hi] is writing it in that window. */
  lemma PutWindow(b: seq<byte>, lo: nat, hi: nat, at: nat, v: u16)
    requires lo <= at && at + 2 <= hi <= |b|
    ensures Put16(b, at, v)[lo..hi] == Put16(b[lo..hi], at - lo, v)
    ensures Put16(b, at, v)[..lo] == b[..lo] && Put16(b, at, v)[hi..] == b[hi..]
  {}

  lemma Put32Window(b: seq<byte>, lo: nat, hi: nat, at: nat, v: u32)
    requires lo <= at && at + 4 <= hi <= |b|
    ensures Put32(b, at, v)[lo..hi] == Put32(b[lo..hi], at - lo, v)
    ensures Put32(b, at, v)[..lo] == b[..lo] && Put32(b, at, v)[hi..] == b[hi..]
  {}

  lemma PutSame(b: seq<byte>, at: nat)
    requires at + 2 <= |b|
    ensures Put16(b, at, Be16(b, at)) == b
  {}

  lemma Be16Window(out: seq<byte>, ip: seq<byte>)
    requires 6 <= |ip| <= |out| && out[0..|ip|] == ip
    ensures Be16(out, 4) == Be16(ip, 4)
  {
    assert out[4] == out[0..|ip|][4] && out[5] == out[0..|ip|][5];
  }

  /** Copies the IP header into out and brings length, identification and header checksum up to date. */
  method WriteIpHeader(out0: seq<byte>, ip: seq<byte>, isV6: bool, i: nat, total: nat) returns (out: seq<byte>)
    requires |ip| >= IpLen(isV6) && (isV6 ==> total >= 40)
    requires |out0| >= |ip|
    ensures |out| == |out0|
    ensures out[..|ip|] == IpHeaderFor(ip, isV6, i, total) && out[|ip|..] == out0[|ip|..]
  {
    hide Sum, Put16, Be16;
    out := Splice(out0, 0, ip);
    assert out[0..|ip|] == ip;
    PutSame(ip, 4);
    Be16Window(out, ip);
    if !isV6 {
      if i > 0 {
        var id := (Be16(out, 4) + i) % 0x1_0000;
        PutWindow(out, 0, |ip|, 4, id);
        out := Put16(out, 4, id);
      }
      assert out[0..|ip|] == Put16(ip, 4, (Be16(ip, 4) + i) % 0x1_0000);
      PutWindow(out, 0, |ip|, 2, total % 0x1_0000);
      out := Put16(out, 2, total % 0x1_0000);
      var csum := Not16(Sum(out[..|ip|], 0));
      PutWindow(out, 0, |ip|, 10, csum);
      out := Put16(out, 10, csum);
    } else {
      PutWindow(out, 0, |ip|, 4, (total - 40) % 0x1_0000);
      out := Put16(out, 4, (total - 40) % 0x1_0000);
    }
    assert out[0..|ip|] == out[..|ip|];
  }

  /**
   Copies the transport header, brings sequence number, flags or UDP length up to date, copies the
   payload and fills in the checksum, for a window starting at the transport header. The checksum
   goes where the header says, even if that is behind the segment.
   */
  method WriteTransport(out0: seq<byte>, input: seq<byte>, hdr: VirtioHdr, isV6: bool, i: nat) returns (out: seq<byte>)
    requires Cuttable(hdr, |input|, isV6) && SegStart(hdr, i) < |input|
    requires |out0| >= SegLen(hdr, |input|, i) && hdr.csumStart + hdr.csumOffset + 2 <= |out0|
    ensures var total := SegLen(hdr, |input|, i);
            out == Put16(out0[..hdr.csumStart] + Unsummed(input, hdr, isV6, i) + out0[total..],
                        hdr.csumStart + hdr.csumOffset, SegCsum(input, hdr, isV6, i))
  {
    hide Sum, PseudoOf, SegStart, TransportFor, Splice, Put16;
    var lo, mid, total := hdr.csumStart, hdr.hdrLen, SegLen(hdr, |input|, i);
    var start, end := SegStart(hdr, i), SegEnd(hdr, |input|, i);
    out := WriteTransportHeader(out0, input, hdr, i, end);
    var beforePayload := out;
    out := Splice(out, mid, input[start..end]);
    SpliceWindow(beforePayload, lo, mid, input[start..end]);
    assert out[lo..total] == Unsummed(input, hdr, isV6, i);
    assert out[total..] == out0[total..] by { assert out0[total..] == out0[mid..][total - mid..]; }
    assert out == out0[..lo] + Unsummed(input, hdr, isV6, i) + out0[total..];
    hide Unsummed, SegEnd;
    var csum := Not16(Sum(out[lo..total], PseudoOf(input, Protocol(hdr), isV6, (total - lo) % 0x1_0000)));
    out := Put16(out, lo + hdr.csumOffset, csum);
  }

  lemma SpliceWindow(b: seq<byte>, lo: nat, mid: nat, s: seq<byte>)
    requires lo <= mid && mid + |s| <= |b|
    ensures Splice(b, mid, s)[lo..mid + |s|] == b[lo..mid] + s
    ensures Splice(b, mid, s)[..lo] == b[..lo] && Splice(b, mid, s)[mid + |s|..] == b[mid + |s|..]
  {}

  lemma SetWindow(b: seq<byte>, lo: nat, hi: nat, at: nat, v: byte)
    requires lo <= at < hi <= |b|
    ensures b[at := v][lo..hi] == b[lo..hi][at - lo := v]
    ensures b[at := v][..lo] == b[..lo] && b[at := v][hi..] == b[hi..]
  {}

  method WriteTransportHeader(out0: seq<byte>, input: seq<byte>, hdr: VirtioHdr, i: nat,
                              end: nat) returns (out: seq<byte>)
    requires hdr.csumStart + (if IsTcp(hdr) then 20 else UDP_H_LEN) <= hdr.hdrLen <= |input|
    requires hdr.hdrLen <= |out0| && SegStart(hdr, i) <= end <= |input|
    ensures |out| == |out0|
    ensures out[..hdr.csumStart] == out0[..hdr.csumStart] && out[hdr.hdrLen..] == out0[hdr.hdrLen..]
    ensures out[hdr.csumStart..hdr.hdrLen] ==
            TransportFor(input[hdr.csumStart..hdr.hdrLen], hdr, i, end == |input|, end - SegStart(hdr, i))
  {
    hide Put16, Put32, Splice, SegStart;
    var lo, mid := hdr.csumStart, hdr.hdrLen;
    var th := input[lo..mid];
    out := Splice(out0, lo, th);
    SpliceWindow(out0, lo, lo, th);
    if IsTcp(hdr) {
      var tcpSeq := (Be32(input, lo + 4) + i * hdr.gsoSize) % 0x1_0000_0000;
      Put32Window(out, lo, mid, lo + 4, tcpSeq);
      out := Put32(out, lo + 4, tcpSeq);
      if end != |input| {
        var flags := ClearFinPsh(out[lo + TCP_FLAGS_OFFSET]);
        SetWindow(out, lo, mid, lo + TCP_FLAGS_OFFSET, flags);
        out := out[lo + TCP_FLAGS_OFFSET := flags];
      }
    } else {
      var udpLen := (end - SegStart(hdr, i) + mid - lo) % 0x1_0000;
      PutWindow(out, lo, mid, lo + 4, udpLen);
      out := Put16(out, lo + 4, udpLen);
    }
  }

  /** An output window with segment i laid over its front, and the checksum where the header says. */
  function Filled(out: seq<byte>, input: seq<byte>, hdr: VirtioHdr, isV6: bool, i: nat): (r: seq<byte>)
    requires Cuttable(hdr, |input|, isV6) && SegStart(hdr, i) < |input|
    requires |out| >= SegLen(hdr, |input|, i) && hdr.csumStart + hdr.csumOffset + 2 <= |out|
    ensures |r| == |out|
  {
    Put16(Splice(out, 0, SegIp(input, hdr, isV6, i) + Unsummed(input, hdr, isV6, i)), hdr.csumStart + hdr.csumOffset,
          SegCsum(input, hdr, isV6, i))
  }

  /** With the checksum field in the transport header, that is just the segment, and nothing behind it changes. */
  lemma FilledIsSegment(out: seq<byte>, input: seq<byte>, hdr: VirtioHdr, isV6: bool, i: nat)
    requires Splittable(hdr, |input|, isV6) && SegStart(hdr, i) < |input| && |out| >= SegLen(hdr, |input|, i)
    ensures Filled(out, input, hdr, isV6, i) == Splice(out, 0, Segment(input, hdr, isV6, i))
  {
    hide SegIp, Unsummed, SegCsum, SegStart;
    PutBetween(SegIp(input, hdr, isV6, i), Unsummed(input, hdr, isV6, i), out[SegLen(hdr, |input|, i)..],
               hdr.csumOffset, SegCsum(input, hdr, isV6, i));
  }

  lemma PutBetween(a: seq<byte>, b: seq<byte>, c: seq<byte>, at: nat, v: u16)
    requires at + 2 <= |b|
    ensures Put16(a + b + c, |a| + at, v) == a + Put16(b, at, v) + c
  {}

  /** One pass of the loop: a segment laid over the front of an output window. */
  method WriteSegment(out0: seq<byte>, input: seq<byte>, hdr: VirtioHdr, isV6: bool, i: nat) returns (out: seq<byte>)
    requires Cuttable(hdr, |input|, isV6) && SegStart(hdr, i) < |input|
    requires |out0| >= SegLen(hdr, |input|, i) && hdr.csumStart + hdr.csumOffset + 2 <= |out0|
    ensures out == Filled(out0, input, hdr, isV6, i)
  {
    hide SegIp, Unsummed, SegCsum, SegStart, Put16;
    var total := SegLen(hdr, |input|, i);
    out := WriteIp(out0, input, hdr, isV6, i);
    ghost var ip := out;
    out := WriteTransport(out, input, hdr, isV6, i);
    assert ip[total..] == out0[total..] by {
      assert ip[total..] == ip[hdr.csumStart..][total - hdr.csumStart..];
      assert out0[total..] == out0[hdr.csumStart..][total - hdr.csumStart..];
    }
    assert out0[..0] == [];
  }

  method WriteIp(out0: seq<byte>, input: seq<byte>, hdr: VirtioHdr, isV6: bool, i: nat) returns (out: seq<byte>)
    requires Cuttable(hdr, |input|, isV6) && SegStart(hdr, i) < |input|
    requires |out0| >= SegLen(hdr, |input|, i)
    ensures |out| == |out0|
    ensures out[..hdr.csumStart] == SegIp(input, hdr, isV6, i) && out[hdr.csumStart..] == out0[hdr.csumStart..]
  {
    hide SegStart, IpHeaderFor;
    out := WriteIpHeader(out0, input[..hdr.csumStart], isV6, i, SegLen(hdr, |input|, i));
  }

  // ----- The loop -----

  /** Output buffer k can take segment k behind the caller's offset. */
  predicate Room(outs: seq<seq<byte>>, offset: nat, hdr: VirtioHdr, len: nat, k: nat)
    requires k < |outs| && SegStart(hdr, k) < len
  {
    offset + SegLen(hdr, len, k) <= |outs[k]|
  }

  /** The loop writes segment k: it exists, and there is room for it and for all before it. */
  ghost predicate Reached(outs: seq<seq<byte>>, offset: nat, hdr: VirtioHdr, len: nat, k: nat) {
    && k < |outs| && SegStart(hdr, k) < len
    && forall j :: 0 <= j <= k ==> SegStart(hdr, j) < len && Room(outs, offset, hdr, len, j)
  }

  /** The checksum field lies inside every output buffer that is written; otherwise the original panics. */
  ghost predicate CsumFits(outs: seq<seq<byte>>, offset: nat, hdr: VirtioHdr, len: nat) {
    forall k :: 0 <= k < |outs| && Reached(outs, offset, hdr, len, k) ==>
      offset + hdr.csumStart + hdr.csumOffset + 2 <= |outs[k]|
  }

  /** It does whenever it lies in the transport header. */
  lemma CsumInHeaderFits(outs: seq<seq<byte>>, offset: nat, hdr: VirtioHdr, len: nat)
    requires CsumInHeader(hdr)
    ensures CsumFits(outs, offset, hdr, len)
  {
    hide SegStart;
    forall k | 0 <= k < |outs| && Reached(outs, offset, hdr, len, k)
      ensures offset + hdr.csumStart + hdr.csumOffset + 2 <= |outs[k]|
    {
      assert Room(outs, offset, hdr, len, k);
    }
  }

  /** Output k holds segment k behind the offset, which is left alone like everything else but the checksum field. */
  ghost predicate Holds(outs0: seq<seq<byte>>, outs: seq<seq<byte>>, input: seq<byte>, hdr: VirtioHdr, isV6: bool,
                        offset: nat, k: nat)
    requires Cuttable(hdr, |input|, isV6)
  {
    && k < |outs0| == |outs| && SegStart(hdr, k) < |input| && Room(outs0, offset, hdr, |input|, k)
    && offset + hdr.csumStart + hdr.csumOffset + 2 <= |outs0[k]|
    && outs[k] == outs0[k][..offset] + Filled(outs0[k][offset..], input, hdr, isV6, k)
  }

  /** The first n outputs hold the first n segments, their sizes are noted, and nothing else has changed. */
  ghost predicate Written(outs0: seq<seq<byte>>, outs: seq<seq<byte>>, sizes0: seq<nat>, sizes: seq<nat>,
                          input: seq<byte>, hdr: VirtioHdr, isV6: bool, offset: nat, n: nat)
    requires Cuttable(hdr, |input|, isV6) && |outs0| <= |sizes0|
  {
    && |outs| == |outs0| && |sizes| == |sizes0| && n <= |outs|
    && (forall k :: 0 <= k < n ==> Holds(outs0, outs, input, hdr, isV6, offset, k))
    && (forall k :: 0 <= k < n ==> SegStart(hdr, k) < |input| && sizes[k] == SegLen(hdr, |input|, k))
    && (forall k :: n <= k < |outs| ==> outs[k] == outs0[k])
  }

  /** Segment k is the first that finds no room. */
  ghost predicate FirstWithoutRoom(outs: seq<seq<byte>>, offset: nat, hdr: VirtioHdr, len: nat, k: nat) {
    && (forall j :: 0 <= j < k ==> j < |outs| && SegStart(hdr, j) < len && Room(outs, offset, hdr, len, j))
    && k < |outs| && SegStart(hdr, k) < len && !Room(outs, offset, hdr, len, k)
  }

  /**
   How splitting ends: all segments written, or too many for the outputs given, or a first segment
   that finds no room, whose size has been noted; in each case exactly the segments before that
   point are in place, and no later size has changed.
   */
  ghost predicate Outcome(r: Result<nat, GsoError>, outs0: seq<seq<byte>>, outs: seq<seq<byte>>, sizes0: seq<nat>,
                          sizes: seq<nat>, input: seq<byte>, hdr: VirtioHdr, isV6: bool, offset: nat)
    requires Cuttable(hdr, |input|, isV6) && |outs0| <= |sizes0|
  {
    match r
    case Ok(n) =>
      && n == SegCount(hdr, |input|) && Written(outs0, outs, sizes0, sizes, input, hdr, isV6, offset, n)
      && n <= |sizes| && sizes[n..] == sizes0[n..]
    case Err(TooManySegments) =>
      && |outs0| < SegCount(hdr, |input|) && Written(outs0, outs, sizes0, sizes, input, hdr, isV6, offset, |outs0|)
      && sizes[|outs0|..] == sizes0[|outs0|..]
    case Err(OutputTooSmall) =>
      exists k: nat ::
        && FirstWithoutRoom(outs0, offset, hdr, |input|, k)
        && Written(outs0, outs, sizes0, sizes, input, hdr, isV6, offset, k)
        && sizes[k..] == [SegLen(hdr, |input|, k)] + sizes0[k + 1..]
    case _ => false
  }

  /** Every segment has an output buffer with room for it. */
  ghost predicate AllFit(outs: seq<seq<byte>>, offset: nat, hdr: VirtioHdr, len: nat)
    requires hdr.gsoSize > 0 && hdr.hdrLen <= len
  {
    && SegCount(hdr, len) <= |outs|
    && forall k :: 0 <= k < SegCount(hdr, len) ==> SegStart(hdr, k) < len && Room(outs, offset, hdr, len, k)
  }

  /** Splitting succeeds exactly when everything fits. */
  lemma SplitSucceedsIffAllFit(r: Result<nat, GsoError>, outs0: seq<seq<byte>>, outs: seq<seq<byte>>,
                               sizes0: seq<nat>, sizes: seq<nat>,
                               input: seq<byte>, hdr: VirtioHdr, isV6: bool, offset: nat)
    requires Cuttable(hdr, |input|, isV6) && |outs0| <= |sizes0|
    requires Outcome(r, outs0, outs, sizes0, sizes, input, hdr, isV6, offset)
    ensures r.Ok? <==> AllFit(outs0, offset, hdr, |input|)
  {
    hide SegCount, Filled, SegStart, SegLen;
    if r == Err(OutputTooSmall) {
      var k: nat :| FirstWithoutRoom(outs0, offset, hdr, |input|, k);
      SegmentExists(hdr, |input|, k);
    } else if r.Ok? {
      forall k | 0 <= k < r.value ensures SegStart(hdr, k) < |input| && Room(outs0, offset, hdr, |input|, k) {
        assert Holds(outs0, outs, input, hdr, isV6, offset, k);
      }
    }
  }

  /** With the checksum field in the transport header, an output that holds segment k has just that written into it. */
  lemma HoldsSegment(outs0: seq<seq<byte>>, outs: seq<seq<byte>>, input: seq<byte>, hdr: VirtioHdr, isV6: bool,
                     offset: nat, k: nat)
    requires Splittable(hdr, |input|, isV6) && Holds(outs0, outs, input, hdr, isV6, offset, k)
    ensures outs[k] == Splice(outs0[k], offset, Segment(input, hdr, isV6, k))
  {
    hide Segment, Filled, SegStart;
    FilledIsSegment(outs0[k][offset..], input, hdr, isV6, k);
    SpliceBehind(outs0[k], offset, Segment(input, hdr, isV6, k));
  }

  lemma SpliceBehind(b: seq<byte>, at: nat, s: seq<byte>)
    requires at + |s| <= |b|
    ensures b[..at] + Splice(b[at..], 0, s) == Splice(b, at, s)
  {}

  /** gso_split. */
  method GsoSplit(input: array<byte>, hdr: VirtioHdr, outBufs: array<seq<byte>>, sizes: array<nat>, outOffset: nat,
                  isV6: bool)
    returns (r: Result<nat, GsoError>)
    requires input as object != sizes
    requires HeaderError(hdr, input.Length, isV6, outBufs.Length, sizes.Length) == None ==>
               CsumFits(outBufs[..], outOffset, hdr, input.Length)
    modifies input, outBufs, sizes
    ensures input[..] == InputAfter(old(input[..]), hdr, isV6, outBufs.Length, sizes.Length)
    ensures match HeaderError(hdr, input.Length, isV6, outBufs.Length, sizes.Length)
            case Some(e) => r == Err(e) && outBufs[..] == old(outBufs[..]) && sizes[..] == old(sizes[..])
            case None =>
              && Cuttable(hdr, input.Length, isV6)
              && Outcome(r, old(outBufs[..]), outBufs[..], old(sizes[..]), sizes[..], input[..], hdr, isV6, outOffset)
  {
    hide CsumFits;
    if sizes.Length < outBufs.Length { return Err(SizesTooShort); }
    if outBufs.Length > 0xFFFF { return Err(TooManyBuffers); }
    if hdr.gsoSize == 0 { return Err(ZeroGsoSize); }
    if hdr.hdrLen < hdr.csumStart { return Err(HdrLenBelowCsumStart); }
    if hdr.csumStart < IpLen(isV6) { return Err(CsumStartBelowIpHeader); }
    if input.Length < hdr.hdrLen { return Err(InputBelowHdrLen); }
    if input.Length < IpLen(isV6) { return Err(IpTooShort); }
    ghost var given := input[..];
    if !isV6 {
      input[10], input[11] := 0, 0;
    }
    assert input[..] == ClearedIp(given, isV6);
    var csumAt := hdr.csumStart + hdr.csumOffset;
    if csumAt + 1 >= input.Length { return Err(CsumBeyondInput); }
    input[csumAt], input[csumAt + 1] := 0, 0;
    assert input[..] == Cleared(given, hdr, isV6);
    if IsTcp(hdr) {
      if hdr.hdrLen < hdr.csumStart + 20 || hdr.csumStart + TCP_FLAGS_OFFSET + 1 > input.Length {
        return Err(TcpHeaderShort);
      }
    } else {
      if hdr.hdrLen < hdr.csumStart + UDP_H_LEN { return Err(UdpHeaderShort); }
    }
    if SrcAddrAt(isV6) + 2 * AddrLen(isV6) > input.Length { return Err(AddressesBeyondInput); }
    r := SplitLoop(input[..], hdr, outBufs, sizes, outOffset, isV6);
  }

  /** The segmentation loop of gso_split, once the checks have passed. */
  method SplitLoop(input: seq<byte>, hdr: VirtioHdr, outBufs: array<seq<byte>>, sizes: array<nat>, outOffset: nat,
                   isV6: bool)
    returns (r: Result<nat, GsoError>)
    requires Cuttable(hdr, |input|, isV6) && outBufs.Length <= sizes.Length
    requires CsumFits(outBufs[..], outOffset, hdr, |input|)
    modifies outBufs, sizes
    ensures Outcome(r, old(outBufs[..]), outBufs[..], old(sizes[..]), sizes[..], input, hdr, isV6, outOffset)
  {
    hide SegCount, Filled, Written, CsumFits;
    ghost var outs0, sizes0 := outBufs[..], sizes[..];
    var nextSegmentDataAt := hdr.hdrLen;
    var i := 0;
    NothingWritten(outs0, sizes0, input, hdr, isV6, outOffset);
    while nextSegmentDataAt < |input|
      invariant nextSegmentDataAt == SegStart(hdr, i) && i <= outBufs.Length
      invariant Written(outs0, outBufs[..], sizes0, sizes[..], input, hdr, isV6, outOffset, i)
      invariant sizes[i..] == sizes0[i..]
      decreases |input| - nextSegmentDataAt
    {
      SegmentExists(hdr, |input|, i);
      if i == outBufs.Length { return Err(TooManySegments); }
      var totalLen := SegLen(hdr, |input|, i);
      ghost var outs, before := outBufs[..], sizes[..];
      WrittenSoFar(outs0, outs, sizes0, before, input, hdr, isV6, outOffset, i);
      sizes[i] := totalLen;
      assert sizes[..] == before[i := totalLen];
      SizeNoted(outs0, outs, sizes0, before, input, hdr, isV6, outOffset, i, totalLen);
      if outOffset > |outBufs[i]| || |outBufs[i]| - outOffset < totalLen {
        assert FirstWithoutRoom(outs0, outOffset, hdr, |input|, i);
        return Err(OutputTooSmall);
      }
      assert outOffset + hdr.csumStart + hdr.csumOffset + 2 <= |outs0[i]| by {
        CsumFitsHere(outs0, outOffset, hdr, |input|, i);
      }
      var out := WriteSegment(outBufs[i][outOffset..], input, hdr, isV6, i);
      outBufs[i] := outBufs[i][..outOffset] + out;
      WrittenNext(outs0, outs, sizes0, before, input, hdr, isV6, outOffset, i);
      assert outBufs[..] == outs[i := outBufs[i]];
      Distribute(i, hdr.gsoSize);
      nextSegmentDataAt := nextSegmentDataAt + hdr.gsoSize;
      i := i + 1;
    }
    assert i == SegCount(hdr, |input|) by {
      SegmentExists(hdr, |input|, i);
      if i > 0 {
        SegmentExists(hdr, |input|, i - 1);
        LastWritten(outs0, outBufs[..], sizes0, sizes[..], input, hdr, isV6, outOffset, i);
      }
    }
    return Ok(i);
  }

  lemma NothingWritten(outs: seq<seq<byte>>, sizes: seq<nat>, input: seq<byte>, hdr: VirtioHdr, isV6: bool, offset: nat)
    requires Cuttable(hdr, |input|, isV6) && |outs| <= |sizes|
    ensures Written(outs, outs, sizes, sizes, input, hdr, isV6, offset, 0)
  {}

  /** What has been written so far tells which outputs had room, and leaves the next one alone. */
  lemma WrittenSoFar(outs0: seq<seq<byte>>, outs: seq<seq<byte>>, sizes0: seq<nat>, sizes: seq<nat>,
                     input: seq<byte>, hdr: VirtioHdr, isV6: bool, offset: nat, n: nat)
    requires Cuttable(hdr, |input|, isV6) && |outs0| <= |sizes0|
    requires Written(outs0, outs, sizes0, sizes, input, hdr, isV6, offset, n) && n < |outs|
    ensures |sizes| == |sizes0| && |outs| == |outs0| && outs[n] == outs0[n]
    ensures forall j :: 0 <= j < n ==> SegStart(hdr, j) < |input| && Room(outs0, offset, hdr, |input|, j)
  {
    hide Filled, SegStart;
    forall j | 0 <= j < n ensures SegStart(hdr, j) < |input| && Room(outs0, offset, hdr, |input|, j) {
      assert Holds(outs0, outs, input, hdr, isV6, offset, j);
    }
  }

  lemma LastWritten(outs0: seq<seq<byte>>, outs: seq<seq<byte>>, sizes0: seq<nat>, sizes: seq<nat>,
                    input: seq<byte>, hdr: VirtioHdr, isV6: bool, offset: nat, n: nat)
    requires Cuttable(hdr, |input|, isV6) && |outs0| <= |sizes0|
    requires Written(outs0, outs, sizes0, sizes, input, hdr, isV6, offset, n) && n > 0
    ensures SegStart(hdr, n - 1) < |input|
  {
    hide Holds;
  }

  lemma SizeNoted(outs0: seq<seq<byte>>, outs: seq<seq<byte>>, sizes0: seq<nat>, sizes: seq<nat>,
                  input: seq<byte>, hdr: VirtioHdr, isV6: bool, offset: nat, n: nat, size: nat)
    requires Cuttable(hdr, |input|, isV6) && |outs0| <= |sizes0| == |sizes| && n < |outs0|
    requires Written(outs0, outs, sizes0, sizes, input, hdr, isV6, offset, n) && sizes[n..] == sizes0[n..]
    ensures Written(outs0, outs, sizes0, sizes[n := size], input, hdr, isV6, offset, n)
    ensures sizes[n := size][n..] == [size] + sizes0[n + 1..] && sizes[n := size][n + 1..] == sizes0[n + 1..]
  {
    hide Holds, SegStart;
    assert sizes[n..][1..] == sizes0[n..][1..];
  }

  lemma CsumFitsHere(outs: seq<seq<byte>>, offset: nat, hdr: VirtioHdr, len: nat, k: nat)
    requires CsumFits(outs, offset, hdr, len) && k < |outs| && SegStart(hdr, k) < len
    requires forall j :: 0 <= j <= k ==> SegStart(hdr, j) < len && Room(outs, offset, hdr, len, j)
    ensures offset + hdr.csumStart + hdr.csumOffset + 2 <= |outs[k]|
  {
    assert Reached(outs, offset, hdr, len, k);
  }

  lemma WrittenNext(outs0: seq<seq<byte>>, outs: seq<seq<byte>>, sizes0: seq<nat>, sizes: seq<nat>,
                    input: seq<byte>, hdr: VirtioHdr, isV6: bool, offset: nat, n: nat)
    requires Cuttable(hdr, |input|, isV6) && |outs0| <= |sizes0|
    requires Written(outs0, outs, sizes0, sizes, input, hdr, isV6, offset, n)
    requires n < |outs| && SegStart(hdr, n) < |input| && Room(outs0, offset, hdr, |input|, n)
    requires offset + hdr.csumStart + hdr.csumOffset + 2 <= |outs0[n]|
    ensures Written(outs0, outs[n := outs0[n][..offset] + Filled(outs0[n][offset..], input, hdr, isV6, n)], sizes0,
                    sizes[n := SegLen(hdr, |input|, n)], input, hdr, isV6, offset, n + 1)
  {
    hide Filled, SegStart;
    var outs' := outs[n := outs0[n][..offset] + Filled(outs0[n][offset..], input, hdr, isV6, n)];
    forall k | 0 <= k < n + 1 ensures Holds(outs0, outs', input, hdr, isV6, offset, k) {
      if k < n { assert Holds(outs0, outs, input, hdr, isV6, offset, k); }
    }
  }

  // ----- gso_none_checksum -----

  datatype CsumResult = CsumDone | CsumOutOfRange

  /** gso_none_checksum: refuses offsets outside the packet, otherwise completes the checksum in place. */
  method GsoNoneChecksum(inBuf: array<byte>, csumStart: u16, csumOffset: u16) returns (r: CsumResult)
    modifies inBuf
    ensures r == CsumDone <==> csumStart + csumOffset + 2 <= inBuf.Length
    ensures r == CsumDone ==> inBuf[..] == Completed(old(inBuf[..]), csumStart, csumOffset)
    ensures r == CsumOutOfRange ==> inBuf[..] == old(inBuf[..])
  {
    hide Sum;
    var csumAt := csumStart + csumOffset;
    if csumStart > inBuf.Length || csumAt + 2 > inBuf.Length { return CsumOutOfRange; }
    ghost var given := inBuf[..];
    var initial := Be16(inBuf[..], csumAt);
    inBuf[csumAt] := 0;
    inBuf[csumAt + 1] := 0;
    assert inBuf[..] == Put16(given, csumAt, 0);
    var csum := Not16(Sum(inBuf[csumStart..], initial));
    inBuf[csumAt], inBuf[csumAt + 1] := csum / 0x100, csum % 0x100;
    assert inBuf[..] == Put16(given, csumAt, csum);
    return CsumDone;
  }
}
