/** handle_virtio_read: what is checked of a frame read from the device before it is split. */
module VirtioRead {
  import opened Bytes
  import opened Checksum
  import opened Packet
  import opened Gso
  import opened Splitter

  datatype ReadError =
    | SizesBelowBufs | TooManyBufs | BadOffset | BadChecksumOffsets | ReadOverflows
    | ZeroGso | UnsupportedGso | GsoTypeMismatch | BadIpVersion
    | PacketTooShort | BadTcpHeaderLen | BelowHdrLen | HdrLenBelowStart | CsumPastEnd
    | SplitFailed(e: GsoError)

  /**
   The header handle_virtio_read splits with: the length of the headers is read from the packet, with
   16-bit addition that may wrap, instead of being taken from the kernel.
   */
  function CheckedHdr(hdr: VirtioHdr, input: seq<byte>): Result<VirtioHdr, ReadError>
    requires |input| > 0
  {
    var version := input[0] / 0x10;
    if hdr.gsoSize == 0 then Err(ZeroGso)
    else if !IsTcp(hdr) && hdr.gsoType != VIRTIO_NET_HDR_GSO_UDP_L4 then Err(UnsupportedGso)
    else if version != 4 && version != 6 then Err(BadIpVersion)
    else if version == 4 && hdr.gsoType == VIRTIO_NET_HDR_GSO_TCPV6 then Err(GsoTypeMismatch)
    else if version == 6 && hdr.gsoType == VIRTIO_NET_HDR_GSO_TCPV4 then Err(GsoTypeMismatch)
    else if hdr.gsoType == VIRTIO_NET_HDR_GSO_UDP_L4 then
      LengthChecked(hdr.(hdrLen := (hdr.csumStart + 8) % 0x1_0000), input)
    else if |input| <= hdr.csumStart as int + 12 then Err(PacketTooShort)
    else
      var tcpHLen := input[hdr.csumStart as int + 12] / 0x10 * 4;
      if !(20 <= tcpHLen <= 60) then Err(BadTcpHeaderLen)
      else LengthChecked(hdr.(hdrLen := (hdr.csumStart + tcpHLen) % 0x1_0000), input)
  }

  function LengthChecked(hdr: VirtioHdr, input: seq<byte>): Result<VirtioHdr, ReadError> {
    if |input| < hdr.hdrLen then Err(BelowHdrLen)
    else if hdr.hdrLen < hdr.csumStart then Err(HdrLenBelowStart)
    else if hdr.csumStart as int + hdr.csumOffset as int + 1 >= |input| then Err(CsumPastEnd)
    else Ok(hdr)
  }

  predicate IsV6(input: seq<byte>)
    requires |input| > 0
  {
    input[0] / 0x10 == 6
  }

  /**
   Validation discharges the splitter. Once the header has been checked, its length field is the
   true, unwrapped sum; the only check of gso_split that can still fail is the one on the size of
   the fixed IP header, and it fails exactly when csum_start lies inside that header.
   */
  lemma ValidationDischargesSplitter(hdr: VirtioHdr, input: seq<byte>, outs: nat, sizes: nat)
    requires |input| > 0 && outs <= sizes && outs <= 0xFFFF
    requires CheckedHdr(hdr, input).Ok?
    ensures var h := CheckedHdr(hdr, input).value;
            && h.hdrLen == h.csumStart + (if IsTcp(h) then input[h.csumStart + 12] / 0x10 * 4 else 8)
            && HeaderError(h, |input|, IsV6(input), outs, sizes) ==
               (if hdr.csumStart < IpLen(IsV6(input)) then Some(CsumStartBelowIpHeader) else None)
            && (hdr.csumStart >= IpLen(IsV6(input)) ==> Cuttable(h, |input|, IsV6(input)))
  {}

  /**
   The checks pass exactly when type and IP version agree, the transport header read from the packet lies inside
   it, without a wrap of its 16-bit length, and so does the checksum field; the header then ends where that one does.
   */
  lemma CheckedExactly(hdr: VirtioHdr, input: seq<byte>)
    requires |input| > 0
    ensures var start, version, tcp := hdr.csumStart as int, input[0] / 16, hdr.gsoType == 1 || hdr.gsoType == 4;
            var size := if !tcp then 8 else if start + 12 < |input| then input[start + 12] / 16 * 4 else 0;
            && (CheckedHdr(hdr, input).Ok? <==>
                && hdr.gsoSize > 0
                && ((version == 4 && (hdr.gsoType == 1 || hdr.gsoType == 5))
                    || (version == 6 && (hdr.gsoType == 4 || hdr.gsoType == 5)))
                && (tcp ==> size >= 20) && start + size <= |input| && start + size <= 65535
                && start + hdr.csumOffset as int + 2 <= |input|)
            && (CheckedHdr(hdr, input).Ok? ==> CheckedHdr(hdr, input).value == hdr.(hdrLen := start + size))
  {}

  /** What a frame that needs no splitting is turned into. */
  function ReadWhole(hdr: VirtioHdr, input: seq<byte>): (r: Result<seq<byte>, ReadError>)
    ensures r.Ok? ==> |r.value| == |input|
  {
    if hdr.flags % 2 == 0 then Ok(input)
    else if hdr.csumStart as int + hdr.csumOffset as int + 2 <= |input| then
      Ok(Completed(input, hdr.csumStart, hdr.csumOffset))
    else Err(BadChecksumOffsets)
  }

  /** The packets a frame is turned into, given room for them; the checksum field is in the transport header. */
  function ReadPackets(hdr: VirtioHdr, input: seq<byte>): Result<seq<seq<byte>>, ReadError>
    requires |input| > 0
    requires hdr.gsoType != VIRTIO_NET_HDR_GSO_NONE && CheckedHdr(hdr, input).Ok? ==>
               CsumInHeader(CheckedHdr(hdr, input).value)
  {
    if hdr.gsoType == VIRTIO_NET_HDR_GSO_NONE then
      match ReadWhole(hdr, input)
      case Ok(packet) => Ok([packet])
      case Err(e) => Err(e)
    else
      match CheckedHdr(hdr, input)
      case Err(e) => Err(e)
      case Ok(h) =>
        ValidationDischargesSplitter(hdr, input, 0, 0);
        if hdr.csumStart < IpLen(IsV6(input)) then Err(SplitFailed(CsumStartBelowIpHeader))
        else Ok(AllSegments(Cleared(input, h, IsV6(input)), h, IsV6(input)))
  }

  // ----- The read itself -----

  /** A frame that needs no splitting ends up whole, with its checksum completed, in the first buffer. */
  ghost predicate PlainOutcome(r: Result<nat, ReadError>, hdr: VirtioHdr, input: seq<byte>, bufs: seq<seq<byte>>,
                               bufs': seq<seq<byte>>, sizes: seq<nat>, sizes': seq<nat>, offset: nat)
    requires 0 < |bufs| <= |sizes|
  {
    match ReadWhole(hdr, input)
    case Err(e) => r == Err(e) && bufs' == bufs && sizes' == sizes
    case Ok(packet) =>
      if offset + |input| > |bufs[0]| then r == Err(ReadOverflows) && bufs' == bufs && sizes' == sizes
      else r == Ok(1) && bufs' == bufs[0 := Splice(bufs[0], offset, packet)] && sizes' == sizes[0 := |input|]
  }

  /** The field at position at holds the complement of the sum from csumStart on, taken with the field cleared. */
  predicate SumFilled(got: seq<byte>, input: seq<byte>, csumStart: nat, at: nat)
    requires csumStart <= at && at + 2 <= |input| == |got|
  {
    Be16(got, at) == 0xFFFF - Sum(input[csumStart..at] + [0, 0] + input[at + 2..], Be16(input, at))
  }

  /**
   Bit 0 of the flags alone decides: clear, and the frame is delivered byte for byte; set, and only the two bytes
   of the checksum field change, so that the sum from csum_start on completes. There is no other error than a
   field that ends behind the frame, with the bit set, and a buffer that is too short.
   */
  lemma PlainRead(flags: bv8, r: Result<nat, ReadError>, hdr: VirtioHdr, input: seq<byte>, bufs: seq<seq<byte>>,
                  bufs': seq<seq<byte>>, sizes: seq<nat>, sizes': seq<nat>, offset: nat)
    requires 0 < |bufs| <= |sizes| && offset <= |bufs[0]| && hdr.flags == flags as int
    requires PlainOutcome(r, hdr, input, bufs, bufs', sizes, sizes', offset)
    ensures var start, at, end := hdr.csumStart as int, hdr.csumStart as int + hdr.csumOffset as int, offset + |input|;
            if flags & 0x01 != 0 && at + 2 > |input| then
              r == Err(BadChecksumOffsets) && bufs' == bufs && sizes' == sizes
            else if end > |bufs[0]| then r == Err(ReadOverflows) && bufs' == bufs && sizes' == sizes
            else
              && r == Ok(1) && |bufs'| == |bufs| && bufs'[1..] == bufs[1..] && sizes' == sizes[0 := |input|]
              && |bufs'[0]| == |bufs[0]| && bufs'[0][..offset] == bufs[0][..offset] && bufs'[0][end..] == bufs[0][end..]
              && var got := bufs'[0][offset..end];
              if flags & 0x01 == 0 then got == input
              else
                && (forall k :: 0 <= k < |input| && k != at && k != at + 1 ==> got[k] == input[k])
                && SumFilled(got, input, start, at)
                && (hdr.csumOffset % 2 == 0 ==> Sum(got[start..], Be16(input, at)) == 0xFFFF)
  {
    hide Sum, Completed;
    NeedsCsumBit(flags);
    var start, at := hdr.csumStart as int, hdr.csumStart as int + hdr.csumOffset as int;
    if flags & 0x01 != 0 && at + 2 <= |input| {
      CompletedField(input, start, hdr.csumOffset);
      if hdr.csumOffset % 2 == 0 { CompletedSums(input, start, hdr.csumOffset); }
    }
  }

  lemma NeedsCsumBit(flags: bv8)
    ensures flags as int % 2 == 0 <==> flags & 0x01 == 0
  {}

  lemma CompletedField(b: seq<byte>, csumStart: nat, csumOffset: nat)
    requires csumStart + csumOffset + 2 <= |b|
    ensures var at, got := csumStart + csumOffset, Completed(b, csumStart, csumOffset);
            && SumFilled(got, b, csumStart, at)
            && forall k :: 0 <= k < |b| && k != at && k != at + 1 ==> got[k] == b[k]
  {
    hide Sum;
    var at := csumStart + csumOffset;
    assert Put16(b, at, 0)[csumStart..] == b[csumStart..at] + [0, 0] + b[at + 2..];
  }

  /** A frame that is split fails its checks, or ends as the splitter does on the cleared input. */
  ghost predicate SplitOutcome(r: Result<nat, ReadError>, hdr: VirtioHdr, input: seq<byte>, bufs: seq<seq<byte>>,
                               bufs': seq<seq<byte>>, sizes: seq<nat>, sizes': seq<nat>, offset: nat)
    requires |input| > 0 && |bufs| <= |sizes| && |bufs| <= 0xFFFF
  {
    match CheckedHdr(hdr, input)
    case Err(e) => r == Err(e) && bufs' == bufs && sizes' == sizes
    case Ok(h) =>
      ValidationDischargesSplitter(hdr, input, |bufs|, |sizes|);
      var isV6 := IsV6(input);
      if hdr.csumStart < IpLen(isV6) then
        r == Err(SplitFailed(CsumStartBelowIpHeader)) && bufs' == bufs && sizes' == sizes
      else match r
        case Ok(n) => Outcome(Ok(n), bufs, bufs', sizes, sizes', Cleared(input, h, isV6), h, isV6, offset)
        case Err(SplitFailed(e)) =>
          Outcome(Err(e), bufs, bufs', sizes, sizes', Cleared(input, h, isV6), h, isV6, offset)
        case _ => false
  }

  /** A successful read has put exactly the frame's packets, in order, behind the caller's offset. */
  lemma ReadDelivers(n: nat, hdr: VirtioHdr, input: seq<byte>, bufs: seq<seq<byte>>, bufs': seq<seq<byte>>,
                     sizes: seq<nat>, sizes': seq<nat>, offset: nat)
    requires |input| > 0 && |bufs| <= |sizes| && |bufs| <= 0xFFFF && hdr.gsoType != VIRTIO_NET_HDR_GSO_NONE
    requires CheckedHdr(hdr, input).Ok? ==> CsumInHeader(CheckedHdr(hdr, input).value)
    requires SplitOutcome(Ok(n), hdr, input, bufs, bufs', sizes, sizes', offset)
    ensures ReadPackets(hdr, input).Ok?
    ensures var packets := ReadPackets(hdr, input).value;
            && n == |packets| <= |bufs'| == |bufs| && |sizes'| == |sizes|
            && (forall k :: 0 <= k < n ==> offset + |packets[k]| <= |bufs[k]| && sizes'[k] == |packets[k]|
                                           && bufs'[k] == Splice(bufs[k], offset, packets[k]))
            && (forall k :: n <= k < |bufs| ==> bufs'[k] == bufs[k]) && sizes'[n..] == sizes[n..]
  {
    ValidationDischargesSplitter(hdr, input, |bufs|, |sizes|);
    var h, isV6 := CheckedHdr(hdr, input).value, IsV6(input);
    hide Segment, CheckedHdr, SegLen, SegCount, SegStart, Holds, Filled, Cleared;
    var packets, cleared := ReadPackets(hdr, input).value, Cleared(input, h, isV6);
    forall k | 0 <= k < n
      ensures offset + |packets[k]| <= |bufs[k]| && bufs'[k] == Splice(bufs[k], offset, packets[k])
    {
      assert packets[k] == Segment(cleared, h, isV6, k);
      HeldSegment(bufs, bufs', cleared, h, isV6, offset, k);
    }
  }

  /** A frame that is split is read exactly when its checks pass and every segment has a buffer with room for it. */
  lemma SplitReadSucceedsIff(r: Result<nat, ReadError>, hdr: VirtioHdr, input: seq<byte>, bufs: seq<seq<byte>>,
                             bufs': seq<seq<byte>>, sizes: seq<nat>, sizes': seq<nat>, offset: nat)
    requires |input| > 0 && |bufs| <= |sizes| && |bufs| <= 0xFFFF
    requires SplitOutcome(r, hdr, input, bufs, bufs', sizes, sizes', offset)
    ensures r.Ok? <==> && CheckedHdr(hdr, input).Ok?
                       && (if input[0] / 16 == 6 then 40 else 20) <= hdr.csumStart
                       && AllFit(bufs, offset, CheckedHdr(hdr, input).value, |input|)
  {
    if CheckedHdr(hdr, input).Ok? {
      ValidationDischargesSplitter(hdr, input, |bufs|, |sizes|);
      var h, isV6 := CheckedHdr(hdr, input).value, IsV6(input);
      hide CheckedHdr, Outcome, AllFit, Cleared;
      if hdr.csumStart >= IpLen(isV6) {
        var split: Result<nat, GsoError> := if r.Ok? then Ok(r.value) else Err(r.error.e);
        SplitSucceedsIffAllFit(split, bufs, bufs', sizes, sizes', Cleared(input, h, isV6), h, isV6, offset);
      }
    }
  }

  lemma HeldSegment(outs0: seq<seq<byte>>, outs: seq<seq<byte>>, input: seq<byte>, h: VirtioHdr, isV6: bool,
                    offset: nat, k: nat)
    requires Splittable(h, |input|, isV6) && Holds(outs0, outs, input, h, isV6, offset, k)
    ensures k < |outs0| == |outs| && SegStart(h, k) < |input|
    ensures offset + |Segment(input, h, isV6, k)| <= |outs0[k]|
    ensures outs[k] == Splice(outs0[k], offset, Segment(input, h, isV6, k))
  {
    hide Segment, Filled, SegStart;
    HoldsSegment(outs0, outs, input, h, isV6, offset, k);
  }

  /** handle_virtio_read; its caller makes sure that there is input and an output buffer. */
  method HandleVirtioRead(hdr: VirtioHdr, input: array<byte>, bufs: array<seq<byte>>, sizes: array<nat>, offset: nat)
    returns (r: Result<nat, ReadError>)
    requires input.Length > 0 && bufs.Length > 0 && input as object != sizes
    requires hdr.gsoType != VIRTIO_NET_HDR_GSO_NONE && CheckedHdr(hdr, input[..]).Ok? ==>
               CsumFits(bufs[..], offset, CheckedHdr(hdr, input[..]).value, input.Length)
    modifies input, bufs, sizes
    ensures if sizes.Length < bufs.Length then
              r == Err(SizesBelowBufs) && bufs[..] == old(bufs[..]) && sizes[..] == old(sizes[..])
            else if bufs.Length > 0xFFFF then
              r == Err(TooManyBufs) && bufs[..] == old(bufs[..]) && sizes[..] == old(sizes[..])
            else if exists j :: 0 <= j < bufs.Length && offset > |old(bufs[..])[j]| then
              r == Err(BadOffset) && bufs[..] == old(bufs[..]) && sizes[..] == old(sizes[..])
            else if hdr.gsoType == VIRTIO_NET_HDR_GSO_NONE then
              PlainOutcome(r, hdr, old(input[..]), old(bufs[..]), bufs[..], old(sizes[..]), sizes[..], offset)
            else SplitOutcome(r, hdr, old(input[..]), old(bufs[..]), bufs[..], old(sizes[..]), sizes[..], offset)
  {
    hide PlainOutcome, SplitOutcome, CheckedHdr, CsumFits;
    if sizes.Length < bufs.Length { return Err(SizesBelowBufs); }
    if bufs.Length > 0xFFFF { return Err(TooManyBufs); }
    for k := 0 to bufs.Length
      invariant forall j :: 0 <= j < k ==> offset <= |bufs[..][j]|
      invariant bufs[..] == old(bufs[..]) && input[..] == old(input[..]) && sizes[..] == old(sizes[..])
    {
      if offset > |bufs[k]| {
        assert offset > |bufs[..][k]|;
        return Err(BadOffset);
      }
    }
    if hdr.gsoType == VIRTIO_NET_HDR_GSO_NONE {
      r := ReadPlain(hdr, input, bufs, sizes, offset);
    } else {
      r := ReadSplit(hdr, input, bufs, sizes, offset);
    }
  }

  /** The part of handle_virtio_read for frames that need no splitting. */
  method ReadPlain(hdr: VirtioHdr, input: array<byte>, bufs: array<seq<byte>>, sizes: array<nat>, offset: nat)
    returns (r: Result<nat, ReadError>)
    requires 0 < bufs.Length <= sizes.Length && input as object != sizes && offset <= |bufs[0]|
    modifies input, bufs, sizes
    ensures PlainOutcome(r, hdr, old(input[..]), old(bufs[..]), bufs[..], old(sizes[..]), sizes[..], offset)
  {
    var len := input.Length;
    if hdr.flags % 2 != 0 {
      var done := GsoNoneChecksum(input, hdr.csumStart, hdr.csumOffset);
      if done == CsumOutOfRange { return Err(BadChecksumOffsets); }
    }
    if |bufs[0]| - offset < len { return Err(ReadOverflows); }
    sizes[0] := len;
    bufs[0] := Splice(bufs[0], offset, input[..]);
    return Ok(1);
  }

  /** The part of handle_virtio_read for frames that are split. */
  method ReadSplit(hdr0: VirtioHdr, input: array<byte>, bufs: array<seq<byte>>, sizes: array<nat>, offset: nat)
    returns (r: Result<nat, ReadError>)
    requires input.Length > 0 && bufs.Length <= sizes.Length && bufs.Length <= 0xFFFF && input as object != sizes
    requires CheckedHdr(hdr0, input[..]).Ok? ==>
               CsumFits(bufs[..], offset, CheckedHdr(hdr0, input[..]).value, input.Length)
    modifies input, bufs, sizes
    ensures SplitOutcome(r, hdr0, old(input[..]), old(bufs[..]), bufs[..], old(sizes[..]), sizes[..], offset)
  {
    hide Outcome, HeaderError, Cuttable, Cleared, CsumFits;
    var checked := CheckHdr(hdr0, input);
    if checked.Err? { return Err(checked.error); }
    var hdr := checked.value;
    ValidationDischargesSplitter(hdr0, input[..], bufs.Length, sizes.Length);
    hide CheckedHdr;
    var split := GsoSplit(input, hdr, bufs, sizes, offset, input[0] / 0x10 == 6);
    match split {
      case Ok(n) => return Ok(n);
      case Err(e) => return Err(SplitFailed(e));
    }
  }

  /** The checks before splitting, on the input as it was read. */
  method CheckHdr(hdr0: VirtioHdr, input: array<byte>) returns (r: Result<VirtioHdr, ReadError>)
    requires input.Length > 0
    ensures r == CheckedHdr(hdr0, input[..])
  {
    var len := input.Length;
    if hdr0.gsoSize == 0 { return Err(ZeroGso); }
    if hdr0.gsoType != VIRTIO_NET_HDR_GSO_TCPV4
       && hdr0.gsoType != VIRTIO_NET_HDR_GSO_TCPV6
       && hdr0.gsoType != VIRTIO_NET_HDR_GSO_UDP_L4
    {
      return Err(UnsupportedGso);
    }
    var ipVersion := input[0] / 0x10;
    if ipVersion == 4 {
      if hdr0.gsoType != VIRTIO_NET_HDR_GSO_TCPV4 && hdr0.gsoType != VIRTIO_NET_HDR_GSO_UDP_L4 {
        return Err(GsoTypeMismatch);
      }
    } else if ipVersion == 6 {
      if hdr0.gsoType != VIRTIO_NET_HDR_GSO_TCPV6 && hdr0.gsoType != VIRTIO_NET_HDR_GSO_UDP_L4 {
        return Err(GsoTypeMismatch);
      }
    } else {
      return Err(BadIpVersion);
    }
    var hdr := hdr0;
    if hdr.gsoType == VIRTIO_NET_HDR_GSO_UDP_L4 {
      hdr := hdr.(hdrLen := (hdr.csumStart + 8) % 0x1_0000);
    } else {
      if len <= hdr.csumStart as int + 12 { return Err(PacketTooShort); }
      var tcpHLen := input[hdr.csumStart as int + 12] / 0x10 * 4;
      if !(20 <= tcpHLen <= 60) { return Err(BadTcpHeaderLen); }
      hdr := hdr.(hdrLen := (hdr.csumStart + tcpHLen) % 0x1_0000);
    }
    if len < hdr.hdrLen { return Err(BelowHdrLen); }
    if hdr.hdrLen < hdr.csumStart { return Err(HdrLenBelowStart); }
    if hdr.csumStart as int + hdr.csumOffset as int + 1 >= len { return Err(CsumPastEnd); }
    return Ok(hdr);
  }
}
