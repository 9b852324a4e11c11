/** TCP segments as GRO sees them: eligibility, flows, and runs of segments that form one larger segment. */
module Tcp {
  import opened Bytes
  import opened Packet

  // ----- One segment -----

  function TcpHdrLen(pkt: seq<byte>, isV6: bool): nat
    requires |pkt| >= IpLen(isV6) + 14
  {
    pkt[IpLen(isV6) + 12] / 0x10 * 4
  }

  function HeadersLen(pkt: seq<byte>, isV6: bool): nat
    requires |pkt| >= IpLen(isV6) + 14
  {
    IpLen(isV6) + TcpHdrLen(pkt, isV6)
  }

  function Flags(pkt: seq<byte>, isV6: bool): byte
    requires |pkt| >= IpLen(isV6) + 14
  {
    pkt[IpLen(isV6) + TCP_FLAGS_OFFSET]
  }

  /** The packets tcp_gro goes on with; every other one is left alone (Noop). */
  predicate TcpCandidate(pkt: seq<byte>, isV6: bool): (r: bool)
    ensures r ==> |pkt| >= IpLen(isV6) + 20 && IpLen(isV6) + 20 <= HeadersLen(pkt, isV6) < |pkt|
  {
    && Classify(pkt, false) == (if isV6 then Tcp6 else Tcp4)
    && |pkt| <= 0xFFFF
    && IpLengthExact(pkt, isV6)
    && 20 <= TcpHdrLen(pkt, isV6) <= 60
    && |pkt| > HeadersLen(pkt, isV6)
    && (!isV6 ==> !Fragmented(pkt))
    && (Flags(pkt, isV6) == TCP_FLAG_ACK || Flags(pkt, isV6) == TCP_FLAG_ACK + TCP_FLAG_PSH)
  }

  function SeqNo(pkt: seq<byte>, isV6: bool): u32
    requires TcpCandidate(pkt, isV6)
  {
    Be32(pkt, IpLen(isV6) + 4)
  }

  predicate Psh(pkt: seq<byte>, isV6: bool)
    requires TcpCandidate(pkt, isV6)
  {
    Flags(pkt, isV6) == TCP_FLAG_ACK + TCP_FLAG_PSH
  }

  function TcpPayload(pkt: seq<byte>, isV6: bool): (r: seq<byte>)
    requires TcpCandidate(pkt, isV6)
    ensures 1 <= |r| <= 0xFFFF
  {
    pkt[HeadersLen(pkt, isV6)..]
  }

  function Options(pkt: seq<byte>, isV6: bool): seq<byte>
    requires TcpCandidate(pkt, isV6)
  {
    pkt[IpLen(isV6) + 20..HeadersLen(pkt, isV6)]
  }

  // ----- Flows -----

  datatype TcpFlowKey = TcpFlowKey(srcAddr: seq<byte>, dstAddr: seq<byte>, srcPort: u16,
                                   dstPort: u16, rxAck: u32, isV6: bool)

  /** TcpFlowKey::new. */
  function KeyOf(pkt: seq<byte>, isV6: bool): (r: TcpFlowKey)
    requires |pkt| >= IpLen(isV6) + 14
  {
    var at := IpLen(isV6);
    TcpFlowKey(Pad16(SrcAddr(pkt, isV6)), Pad16(DstAddr(pkt, isV6)), Be16(pkt, at),
               Be16(pkt, at + 2), Be32(pkt, at + 8), isV6)
  }

  /** Same flow, same TCP options, same IP fields. */
  ghost predicate SameStream(a: seq<byte>, b: seq<byte>, isV6: bool)
    requires TcpCandidate(a, isV6) && TcpCandidate(b, isV6)
  {
    && KeyOf(a, isV6) == KeyOf(b, isV6)
    && TcpHdrLen(a, isV6) == TcpHdrLen(b, isV6)
    && Options(a, isV6) == Options(b, isV6)
    && IpHeadersCanCoalesce(a, b)
  }

  lemma SameStreamKey(a: seq<byte>, b: seq<byte>, isV6: bool)
    requires TcpCandidate(a, isV6) && TcpCandidate(b, isV6) && SameStream(a, b, isV6)
    ensures KeyOf(a, isV6) == KeyOf(b, isV6) && HeadersLen(a, isV6) == HeadersLen(b, isV6)
  {}

  // ----- Runs of segments -----

  /** The segments are candidates of one stream. */
  ghost predicate OneStream(ms: seq<seq<byte>>, isV6: bool) {
    && ms != []
    && (forall k :: 0 <= k < |ms| ==> TcpCandidate(ms[k], isV6))
    && (forall k :: 0 <= k < |ms| ==> SameStream(ms[0], ms[k], isV6))
  }

  /** Each segment starts where the one before it ends. */
  ghost predicate Contiguous(ms: seq<seq<byte>>, isV6: bool)
    requires forall k :: 0 <= k < |ms| ==> TcpCandidate(ms[k], isV6)
  {
    forall k :: 0 < k < |ms| ==>
      SeqNo(ms[k], isV6) == (SeqNo(ms[k - 1], isV6) + |TcpPayload(ms[k - 1], isV6)|) % 0x1_0000_0000
  }

  /** All segments but the last are of the first one's size and have PSH clear; the last is no larger. */
  ghost predicate Even(ms: seq<seq<byte>>, isV6: bool)
    requires ms != [] && forall k :: 0 <= k < |ms| ==> TcpCandidate(ms[k], isV6)
  {
    && (forall k :: 0 <= k < |ms| - 1 ==> |TcpPayload(ms[k], isV6)| == |TcpPayload(ms[0], isV6)| && !Psh(ms[k], isV6))
    && |TcpPayload(ms[|ms| - 1], isV6)| <= |TcpPayload(ms[0], isV6)|
  }

  /** The segments, in this order, are what segmentation of one larger segment yields. */
  ghost predicate WellGrouped(ms: seq<seq<byte>>, isV6: bool) {
    OneStream(ms, isV6) && Contiguous(ms, isV6) && Even(ms, isV6)
  }

  function TcpPayloads(ms: seq<seq<byte>>, isV6: bool): (r: seq<seq<byte>>)
    requires forall k :: 0 <= k < |ms| ==> TcpCandidate(ms[k], isV6)
    ensures |r| == |ms|
  {
    seq(|ms|, k requires 0 <= k < |ms| => TcpPayload(ms[k], isV6))
  }

  /** In a well-grouped run, segment k starts k whole segment sizes after the first. */
  lemma {:induction false} SeqNoAt(ms: seq<seq<byte>>, isV6: bool, k: nat)
    requires WellGrouped(ms, isV6) && k < |ms|
    ensures SeqNo(ms[k], isV6) == (SeqNo(ms[0], isV6) + k * |TcpPayload(ms[0], isV6)|) % 0x1_0000_0000
  {
    hide TcpCandidate, SameStream, SeqNo, TcpPayload;
    if k > 0 {
      var g := |TcpPayload(ms[0], isV6)|;
      SeqNoAt(ms, isV6, k - 1);
      Distribute(k - 1, g);
      ModAdd(SeqNo(ms[0], isV6) + (k - 1) * g, g);
    }
  }

  lemma ModAdd(x: nat, y: nat)
    ensures (x % 0x1_0000_0000 + y) % 0x1_0000_0000 == (x + y) % 0x1_0000_0000
  {
    var q := x / 0x1_0000_0000;
    assert x == q * 0x1_0000_0000 + x % 0x1_0000_0000;
  }

  /** The total length of a run, and where its pieces lie. */
  lemma RunIsUniform(ms: seq<seq<byte>>, isV6: bool)
    requires WellGrouped(ms, isV6)
    ensures Uniform(TcpPayloads(ms, isV6), |TcpPayload(ms[0], isV6)|)
  {
    hide TcpCandidate, SameStream, SeqNo;
  }

  /** Two candidates of one IP version have the same version nibble. */
  lemma SameStreamSymmetric(a: seq<byte>, b: seq<byte>, isV6: bool)
    requires TcpCandidate(a, isV6) && TcpCandidate(b, isV6)
    ensures SameStream(a, b, isV6) <==> SameStream(b, a, isV6)
    ensures SameStream(a, a, isV6)
  {
    hide KeyOf, Options, IpLengthExact, Fragmented;
  }

  lemma SameStreamTransitive(a: seq<byte>, b: seq<byte>, c: seq<byte>, isV6: bool)
    requires TcpCandidate(a, isV6) && TcpCandidate(b, isV6) && TcpCandidate(c, isV6)
    requires SameStream(a, b, isV6) && SameStream(b, c, isV6)
    ensures SameStream(a, c, isV6)
  {
    hide KeyOf, Options, IpLengthExact, Fragmented;
  }

  /**
   A run can be continued by p exactly when p starts at its end and the run's last segment is full and has PSH
   clear.
   */
  lemma AppendedRun(ms: seq<seq<byte>>, p: seq<byte>, isV6: bool)
    requires WellGrouped(ms, isV6) && TcpCandidate(p, isV6)
    ensures WellGrouped(ms + [p], isV6) <==>
            var last := ms[|ms| - 1];
            && SameStream(ms[0], p, isV6)
            && SeqNo(p, isV6) == (SeqNo(last, isV6) + |TcpPayload(last, isV6)|) % 0x1_0000_0000
            && |TcpPayload(last, isV6)| == |TcpPayload(ms[0], isV6)| && !Psh(last, isV6)
            && |TcpPayload(p, isV6)| <= |TcpPayload(ms[0], isV6)|
  {
    hide TcpCandidate, SameStream, SeqNo, TcpPayload, Psh;
    var r := ms + [p];
    assert r[0] == ms[0] && r[|r| - 1] == p && r[|r| - 2] == ms[|ms| - 1];
    assert forall k :: 0 <= k < |ms| ==> r[k] == ms[k];
  }

  /** p can go in front of a run exactly when it ends where the run starts, is full and has PSH clear. */
  lemma PrependedRun(p: seq<byte>, ms: seq<seq<byte>>, isV6: bool)
    requires WellGrouped(ms, isV6) && TcpCandidate(p, isV6)
    ensures WellGrouped([p] + ms, isV6) <==>
            && SameStream(ms[0], p, isV6)
            && SeqNo(ms[0], isV6) == (SeqNo(p, isV6) + |TcpPayload(p, isV6)|) % 0x1_0000_0000
            && !Psh(p, isV6)
            && (if |ms| == 1 then |TcpPayload(ms[0], isV6)| <= |TcpPayload(p, isV6)|
                else |TcpPayload(p, isV6)| == |TcpPayload(ms[0], isV6)|)
  {
    hide TcpCandidate, SameStream, SeqNo, TcpPayload, Psh, Contiguous, Even;
    PrependedStream(p, ms, isV6);
    if OneStream([p] + ms, isV6) {
      PrependedContiguous(p, ms, isV6);
      PrependedEven(p, ms, isV6);
    }
  }

  lemma PrependedStream(p: seq<byte>, ms: seq<seq<byte>>, isV6: bool)
    requires OneStream(ms, isV6) && TcpCandidate(p, isV6)
    ensures OneStream([p] + ms, isV6) <==> SameStream(ms[0], p, isV6)
  {
    hide TcpCandidate, SameStream;
    var r := [p] + ms;
    assert r[1] == ms[0];
    SameStreamSymmetric(ms[0], p, isV6);
    SameStreamSymmetric(p, p, isV6);
    if SameStream(ms[0], p, isV6) {
      forall k | 0 < k < |r| ensures SameStream(p, r[k], isV6) {
        SameStreamTransitive(p, ms[0], ms[k - 1], isV6);
      }
    }
  }

  lemma PrependedContiguous(p: seq<byte>, ms: seq<seq<byte>>, isV6: bool)
    requires TcpCandidate(p, isV6) && OneStream(ms, isV6) && Contiguous(ms, isV6) && OneStream([p] + ms, isV6)
    ensures Contiguous([p] + ms, isV6) <==>
            SeqNo(ms[0], isV6) == (SeqNo(p, isV6) + |TcpPayload(p, isV6)|) % 0x1_0000_0000
  {
    hide TcpCandidate, SameStream, SeqNo, TcpPayload, Psh;
    var r := [p] + ms;
    assert r[0] == p && r[1] == ms[0];
    assert forall k :: 0 < k < |r| ==> r[k] == ms[k - 1];
  }

  lemma PrependedEven(p: seq<byte>, ms: seq<seq<byte>>, isV6: bool)
    requires TcpCandidate(p, isV6) && OneStream(ms, isV6) && Even(ms, isV6) && OneStream([p] + ms, isV6)
    ensures Even([p] + ms, isV6) <==>
            && !Psh(p, isV6)
            && (if |ms| == 1 then |TcpPayload(ms[0], isV6)| <= |TcpPayload(p, isV6)|
                else |TcpPayload(p, isV6)| == |TcpPayload(ms[0], isV6)|)
  {
    hide TcpCandidate, SameStream, SeqNo, TcpPayload, Psh;
    var r := [p] + ms;
    assert r[0] == p && r[1] == ms[0] && r[|r| - 1] == ms[|ms| - 1];
    assert forall k :: 0 < k < |r| ==> r[k] == ms[k - 1];
  }
}
