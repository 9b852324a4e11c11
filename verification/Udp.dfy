/** UDP datagrams as GRO sees them: eligibility, flows, and runs of datagrams that form one larger one. */
module Udp {
  import opened Bytes
  import opened Packet

  /** The packets udp_gro goes on with; every other one is left alone (Noop). */
  predicate UdpCandidate(pkt: seq<byte>, isV6: bool): (r: bool)
    ensures r ==> |pkt| > IpLen(isV6) + UDP_H_LEN
  {
    && Classify(pkt, true) == (if isV6 then Udp6 else Udp4)
    && |pkt| <= 0xFFFF
    && IpLengthExact(pkt, isV6)
    && |pkt| > IpLen(isV6) + UDP_H_LEN
    && (!isV6 ==> !Fragmented(pkt))
  }

  function UdpHeaders(isV6: bool): nat { IpLen(isV6) + UDP_H_LEN }

  function UdpPayload(pkt: seq<byte>, isV6: bool): (r: seq<byte>)
    requires UdpCandidate(pkt, isV6)
    ensures 1 <= |r| <= 0xFFFF
  {
    pkt[UdpHeaders(isV6)..]
  }

  datatype UdpFlowKey = UdpFlowKey(srcAddr: seq<byte>, dstAddr: seq<byte>, srcPort: u16, dstPort: u16, isV6: bool)

  /** UdpFlowKey::new. */
  function UdpKeyOf(pkt: seq<byte>, isV6: bool): UdpFlowKey
    requires |pkt| >= UdpHeaders(isV6)
  {
    var at := IpLen(isV6);
    UdpFlowKey(Pad16(SrcAddr(pkt, isV6)), Pad16(DstAddr(pkt, isV6)), Be16(pkt, at), Be16(pkt, at + 2), isV6)
  }

  /** Same flow, same IP fields. */
  ghost predicate SameUdpStream(a: seq<byte>, b: seq<byte>, isV6: bool)
    requires UdpCandidate(a, isV6) && UdpCandidate(b, isV6)
  {
    UdpKeyOf(a, isV6) == UdpKeyOf(b, isV6) && IpHeadersCanCoalesce(a, b)
  }

  ghost predicate OneUdpStream(ms: seq<seq<byte>>, isV6: bool) {
    && ms != []
    && (forall k :: 0 <= k < |ms| ==> UdpCandidate(ms[k], isV6))
    && (forall k :: 0 <= k < |ms| ==> SameUdpStream(ms[0], ms[k], isV6))
  }

  /** All datagrams but the last are of the first one's size; the last is no larger. */
  ghost predicate EvenSized(ms: seq<seq<byte>>, isV6: bool)
    requires ms != [] && forall k :: 0 <= k < |ms| ==> UdpCandidate(ms[k], isV6)
  {
    && (forall k :: 0 <= k < |ms| - 1 ==> |UdpPayload(ms[k], isV6)| == |UdpPayload(ms[0], isV6)|)
    && |UdpPayload(ms[|ms| - 1], isV6)| <= |UdpPayload(ms[0], isV6)|
  }

  /** The datagrams, in this order, are what segmentation of one larger datagram yields. */
  ghost predicate UdpWellGrouped(ms: seq<seq<byte>>, isV6: bool) {
    OneUdpStream(ms, isV6) && EvenSized(ms, isV6)
  }

  function UdpPayloads(ms: seq<seq<byte>>, isV6: bool): (r: seq<seq<byte>>)
    requires forall k :: 0 <= k < |ms| ==> UdpCandidate(ms[k], isV6)
    ensures |r| == |ms|
  {
    seq(|ms|, k requires 0 <= k < |ms| => UdpPayload(ms[k], isV6))
  }

  lemma UdpRunIsUniform(ms: seq<seq<byte>>, isV6: bool)
    requires UdpWellGrouped(ms, isV6)
    ensures Uniform(UdpPayloads(ms, isV6), |UdpPayload(ms[0], isV6)|)
  {
    hide UdpCandidate, SameUdpStream;
  }

  /** A run can be continued by p exactly when p is of its stream, is no larger, and the run's last datagram is full. */
  lemma AppendedUdpRun(ms: seq<seq<byte>>, p: seq<byte>, isV6: bool)
    requires UdpWellGrouped(ms, isV6) && UdpCandidate(p, isV6)
    ensures UdpWellGrouped(ms + [p], isV6) <==>
            && SameUdpStream(ms[0], p, isV6)
            && |UdpPayload(ms[|ms| - 1], isV6)| == |UdpPayload(ms[0], isV6)|
            && |UdpPayload(p, isV6)| <= |UdpPayload(ms[0], isV6)|
  {
    hide UdpCandidate, SameUdpStream, UdpPayload;
    var r := ms + [p];
    assert r[0] == ms[0] && r[|r| - 1] == p && r[|r| - 2] == ms[|ms| - 1];
    assert forall k :: 0 <= k < |ms| ==> r[k] == ms[k];
  }

  lemma SameUdpStreamReflexive(a: seq<byte>, isV6: bool)
    requires UdpCandidate(a, isV6)
    ensures SameUdpStream(a, a, isV6)
  {}
}
