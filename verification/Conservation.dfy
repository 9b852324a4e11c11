/** Nothing is lost, doubled or altered: what a batch's frames deliver is what came in. */
module Conservation {
  import opened Bytes
  import opened Packet
  import opened Buffers
  import opened Tcp
  import opened Udp
  import opened TcpItem
  import opened Ledger
  import opened UdpTable
  import opened TcpBook
  import opened UdpBook
  import opened GroBatch
  import opened GroRun
  import opened Accounting
  import opened Gro
  import opened Frames
  import opened Rolls
  import opened DatagramOrder

  // ----- One frame -----

  /** The state of a batch that has been looked at to the end, and its frames after accounting. */
  ghost predicate Done(b: Batch, bufs': seq<Buf>, offset: nat, start: seq<Buf>, canUdpGro: bool, ledger: Ledger) {
    && Balanced(b, offset, Packets(start, offset), start, canUdpGro, |start|, ledger)
    && (forall j :: 0 <= j < |start| ==> OffsetOk(start, offset, j))
    && Accounted(b, bufs', offset)
  }

  /** The packets that frame j stands for. */
  ghost predicate FrameDelivers(bufs': seq<Buf>, offset: nat, pkts: seq<seq<byte>>, ledger: Ledger, j: nat) {
    && j in ledger && j < |bufs'| && (forall m :: m in ledger[j].members ==> m < |pkts|)
    && Delivers(bufs'[j], offset, Pick(pkts, ledger[j].members))
  }

  /** Frame j is the finished one of a TCP item. */
  ghost predicate FinishedTcp(b: Batch, bufs': seq<Buf>, offset: nat, j: nat)
    requires j < |b.bufs| == |bufs'|
  {
    exists key, k ::
      && key in b.tcp && 0 <= k < |b.tcp[key]| && b.tcp[key][k].bufsIndex == j
      && TcpFrameOk(b.bufs[j], b.tcp[key][k], offset) && bufs'[j] == TcpFrame(b.bufs[j], b.tcp[key][k], offset)
  }

  /** Frame j is the finished one of a UDP item. */
  ghost predicate FinishedUdp(b: Batch, bufs': seq<Buf>, offset: nat, j: nat)
    requires j < |b.bufs| == |bufs'|
  {
    exists key, k ::
      && key in b.udp && 0 <= k < |b.udp[key]| && b.udp[key][k].bufsIndex == j
      && UdpFrameOk(b.bufs[j], b.udp[key][k], offset) && bufs'[j] == UdpFrame(b.bufs[j], b.udp[key][k], offset)
  }

  /** A frame's owner decides what accounting does with it. */
  lemma FinishedFrame(b: Batch, bufs': seq<Buf>, offset: nat, pkts: seq<seq<byte>>, ledger: Ledger, j: nat)
    requires Core(b, offset, pkts, ledger) && Accounted(b, bufs', offset) && j in ledger && j < |b.bufs|
    ensures |bufs'| == |b.bufs|
    ensures ledger[j].owner.Loose? ==> bufs'[j] == b.bufs[j]
    ensures ledger[j].owner.TcpOwned? ==> FinishedTcp(b, bufs', offset, j)
    ensures ledger[j].owner.UdpOwned? ==> FinishedUdp(b, bufs', offset, j)
  {
    hide Core, TcpFrameOk, UdpFrameOk, TcpFrame, UdpFrame;
    TablesDisjoint(b, offset, pkts, ledger, j);
    var between :| TcpAccounted(b.tcp, b.bufs, between, offset) && UdpFramesOk(b.udp, between,
                                offset) && UdpAccounted(b.udp, between, bufs', offset);
    match ledger[j].owner {
      case Loose =>
      case TcpOwned(_) =>
        var key, k :| key in b.tcp && 0 <= k < |b.tcp[key]| && b.tcp[key][k].bufsIndex == j;
        assert between[b.tcp[key][k].bufsIndex] == TcpFrame(b.bufs[j], b.tcp[key][k], offset);
      case UdpOwned(_) =>
        var key, k :| key in b.udp && 0 <= k < |b.udp[key]| && b.udp[key][k].bufsIndex == j;
        assert bufs'[b.udp[key][k].bufsIndex] == UdpFrame(between[j], b.udp[key][k], offset);
    }
  }

  lemma LooseFrameDelivers(b: Batch, bufs': seq<Buf>, offset: nat, pkts: seq<seq<byte>>, ledger: Ledger, j: nat)
    requires Core(b, offset, pkts, ledger) && j in ledger && ledger[j].owner == Loose && |bufs'| == |b.bufs|
    requires j < |b.bufs| ==> bufs'[j] == b.bufs[j]
    requires forall k :: 0 <= k < |pkts| ==> pkts[k] != []
    ensures FrameDelivers(bufs', offset, pkts, ledger, j)
  {
    hide FlowBooked, UdpFlowBooked, Delivers, WithinCapacity, PktAt, HdrAt;
    assert OwnerKnown(b, offset, pkts, ledger, j);
    LooseDelivers(b.bufs, offset, pkts, ledger, j);
    assert Pick(pkts, [j]) == [pkts[j]];
  }

  lemma TcpItemDelivers(item: TcpItem, key: TcpFlowKey, bufs: seq<Buf>, bufs': seq<Buf>, offset: nat,
                        pkts: seq<seq<byte>>, ledger: Ledger)
    requires ItemBooked(item, key, bufs, offset, pkts, ledger) && |bufs'| == |bufs|
    requires TcpFrameOk(bufs[item.bufsIndex], item, offset)
    requires bufs'[item.bufsIndex] == TcpFrame(bufs[item.bufsIndex], item, offset)
    ensures FrameDelivers(bufs', offset, pkts, ledger, item.bufsIndex)
  {
    hide TcpGroup, Delivers, TcpFrame, TcpFrameOk;
    TcpFrameDelivers(bufs[item.bufsIndex], item, offset, Pick(pkts, ledger[item.bufsIndex].members));
  }

  lemma UdpItemDelivers(item: UdpItem, key: UdpFlowKey, bufs: seq<Buf>, bufs': seq<Buf>, offset: nat,
                        pkts: seq<seq<byte>>, ledger: Ledger)
    requires UdpItemBooked(item, key, bufs, offset, pkts, ledger) && |bufs'| == |bufs|
    requires UdpFrameOk(bufs[item.bufsIndex], item, offset)
    requires bufs'[item.bufsIndex] == UdpFrame(bufs[item.bufsIndex], item, offset)
    ensures FrameDelivers(bufs', offset, pkts, ledger, item.bufsIndex)
  {
    hide UdpGroup, Delivers, UdpFrame, UdpFrameOk;
    UdpFrameDelivers(bufs[item.bufsIndex], item, offset, Pick(pkts, ledger[item.bufsIndex].members));
  }

  lemma DoneShape(b: Batch, bufs': seq<Buf>, offset: nat, start: seq<Buf>, canUdpGro: bool, ledger: Ledger)
    requires Done(b, bufs', offset, start, canUdpGro, ledger)
    ensures Core(b, offset, Packets(start, offset), ledger) && Accounted(b, bufs', offset) && |b.bufs| == |start|
    ensures forall k :: 0 <= k < |start| ==> Packets(start, offset)[k] != []
    ensures forall j :: j in b.toWrite ==> j in ledger && j < |start|
    ensures multiset(Roll(b.toWrite, ledger)) == multiset(Upto(|start|))
  {
    hide FlowBooked, UdpFlowBooked, OwnerKnown, WithinCapacity, Accounted, Roll, Upto, Carried, Arrivals, Caps;
    forall k | 0 <= k < |start| ensures Packets(start, offset)[k] != [] {
      assert OffsetOk(start, offset, k);
    }
  }

  /** Every frame to write delivers the packets booked for it. */
  lemma EveryFrameDelivers(b: Batch, bufs': seq<Buf>, offset: nat, start: seq<Buf>, canUdpGro: bool, ledger: Ledger,
                           j: nat)
    requires Done(b, bufs', offset, start, canUdpGro, ledger) && j in b.toWrite
    ensures FrameDelivers(bufs', offset, Packets(start, offset), ledger, j)
  {
    hide Done, Core, Accounted, FrameDelivers, ItemBooked, UdpItemBooked, TcpFrame, UdpFrame, TcpFrameOk, UdpFrameOk;
    var pkts := Packets(start, offset);
    hide Packets;
    DoneShape(b, bufs', offset, start, canUdpGro, ledger);
    FinishedFrame(b, bufs', offset, pkts, ledger, j);
    BookedInCore(b, offset, pkts, ledger);
    match ledger[j].owner {
      case Loose => LooseFrameDelivers(b, bufs', offset, pkts, ledger, j);
      case TcpOwned(_) =>
        var key, k :| key in b.tcp && 0 <= k < |b.tcp[key]| && b.tcp[key][k].bufsIndex == j
          && TcpFrameOk(b.bufs[j], b.tcp[key][k], offset) && bufs'[j] == TcpFrame(b.bufs[j], b.tcp[key][k], offset);
        TcpItemDelivers(b.tcp[key][k], key, b.bufs, bufs', offset, pkts, ledger);
      case UdpOwned(_) =>
        var key, k :| key in b.udp && 0 <= k < |b.udp[key]| && b.udp[key][k].bufsIndex == j
          && UdpFrameOk(b.bufs[j], b.udp[key][k], offset) && bufs'[j] == UdpFrame(b.bufs[j], b.udp[key][k], offset);
        UdpItemDelivers(b.udp[key][k], key, b.bufs, bufs', offset, pkts, ledger);
    }
  }

  // ----- The whole batch -----

  /** The packets read back from the frames to write, in the order of writing. */
  ghost function ReadBack(bufs: seq<Buf>, offset: nat, toWrite: seq<nat>): seq<seq<byte>>
    requires forall k :: 0 <= k < |toWrite| ==> toWrite[k] < |bufs| && Readable(bufs[toWrite[k]], offset)
  {
    if toWrite == [] then []
    else
      var j := toWrite[|toWrite| - 1];
      ReadBack(bufs, offset, toWrite[..|toWrite| - 1]) + FramePackets(bufs[j], offset)
  }

  /** Packet by packet, got is what the roll says. */
  ghost predicate Matches(got: seq<seq<byte>>, pkts: seq<seq<byte>>, roll: seq<nat>) {
    |got| == |roll| && forall k :: 0 <= k < |got| ==> roll[k] < |pkts| && SamePacket(got[k], pkts[roll[k]])
  }

  lemma DeliveredMatches(bufs': seq<Buf>, offset: nat, pkts: seq<seq<byte>>, ledger: Ledger, j: nat)
    requires FrameDelivers(bufs', offset, pkts, ledger, j)
    ensures Readable(bufs'[j], offset) && Matches(FramePackets(bufs'[j], offset), pkts, ledger[j].members)
  {
    hide SamePacket, Readable, FramePackets;
    var ms := ledger[j].members;
    forall k | 0 <= k < |ms| ensures ms[k] < |pkts| && Pick(pkts, ms)[k] == pkts[ms[k]] {
      assert ms[k] in ms;
    }
  }

  lemma MatchesConcat(got: seq<seq<byte>>, more: seq<seq<byte>>, pkts: seq<seq<byte>>, roll: seq<nat>, rest: seq<nat>)
    requires Matches(got, pkts, roll) && Matches(more, pkts, rest)
    ensures Matches(got + more, pkts, roll + rest)
  {
    hide SamePacket;
  }

  /** The packets read back match the roll: it says which packet came from which position of the batch. */
  lemma {:induction false} ReadBackMatchesRoll(bufs': seq<Buf>, offset: nat, pkts: seq<seq<byte>>, ledger: Ledger,
                                               toWrite: seq<nat>)
    requires forall j :: j in toWrite ==> FrameDelivers(bufs', offset, pkts, ledger, j)
    ensures forall k :: 0 <= k < |toWrite| ==> toWrite[k] < |bufs'| && Readable(bufs'[toWrite[k]], offset)
    ensures Matches(ReadBack(bufs', offset, toWrite), pkts, Roll(toWrite, ledger))
  {
    hide Matches, FrameDelivers, Readable, FramePackets;
    forall k | 0 <= k < |toWrite| ensures toWrite[k] < |bufs'| && Readable(bufs'[toWrite[k]], offset) {
      FrameInRange(bufs', offset, pkts, ledger, toWrite[k]);
      DeliveredMatches(bufs', offset, pkts, ledger, toWrite[k]);
    }
    if toWrite == [] {
      assert Matches([], pkts, []) by { MatchesNothing(pkts); }
    } else {
      var n := |toWrite| - 1;
      ReadBackMatchesRoll(bufs', offset, pkts, ledger, toWrite[..n]);
      FrameInRange(bufs', offset, pkts, ledger, toWrite[n]);
      DeliveredMatches(bufs', offset, pkts, ledger, toWrite[n]);
      MatchesConcat(ReadBack(bufs', offset, toWrite[..n]), FramePackets(bufs'[toWrite[n]], offset), pkts,
                    Roll(toWrite[..n], ledger), ledger[toWrite[n]].members);
    }
  }

  lemma FrameInRange(bufs': seq<Buf>, offset: nat, pkts: seq<seq<byte>>, ledger: Ledger, j: nat)
    requires FrameDelivers(bufs', offset, pkts, ledger, j)
    ensures j in ledger && j < |bufs'|
  {}

  lemma MatchesNothing(pkts: seq<seq<byte>>)
    ensures Matches([], pkts, [])
  {}

  // ----- As multisets -----

  lemma MatchesGists(got: seq<seq<byte>>, pkts: seq<seq<byte>>, roll: seq<nat>)
    requires Matches(got, pkts, roll)
    ensures forall m :: m in roll ==> m < |pkts|
    ensures Gists(got) == At(Gists(pkts), roll)
  {
    hide SamePacket, GistOf;
    forall k | 0 <= k < |got| ensures GistOf(got[k]) == GistOf(pkts[roll[k]]) {
      SamePacketGist(got[k], pkts[roll[k]]);
    }
  }

  /** A roll of all positions reads every packet once. */
  lemma GistsConserved(got: seq<seq<byte>>, pkts: seq<seq<byte>>, roll: seq<nat>)
    requires Matches(got, pkts, roll) && multiset(roll) == multiset(Upto(|pkts|))
    ensures multiset(Gists(got)) == multiset(Gists(pkts))
  {
    hide Matches, GistOf;
    MatchesGists(got, pkts, roll);
    AtPermuted(Gists(pkts), roll, Upto(|pkts|));
    assert At(Gists(pkts), Upto(|pkts|)) == Gists(pkts);
  }

  // ----- Lone packets -----

  /** A frame that carries one packet carries the one it came with. */
  lemma AloneIsOwn(b: Batch, offset: nat, pkts: seq<seq<byte>>, ledger: Ledger, j: nat)
    requires Core(b, offset, pkts, ledger) && j in ledger
    ensures |ledger[j].members| == 1 ==> ledger[j].members == [j]
  {
    hide FlowBooked, UdpFlowBooked, TcpGroup, UdpGroup, WithinCapacity, PktAt, HdrAt;
    TablesDisjoint(b, offset, pkts, ledger, j);
    BookedInCore(b, offset, pkts, ledger);
    assert OwnerKnown(b, offset, pkts, ledger, j);
    match ledger[j].owner {
      case Loose =>
      case TcpOwned(_) =>
        var key, k :| key in b.tcp && 0 <= k < |b.tcp[key]| && b.tcp[key][k].bufsIndex == j;
        assert ItemBooked(b.tcp[key][k], key, b.bufs, offset, pkts, ledger);
      case UdpOwned(_) =>
        var key, k :| key in b.udp && 0 <= k < |b.udp[key]| && b.udp[key][k].bufsIndex == j;
        assert UdpItemBooked(b.udp[key][k], key, b.bufs, offset, pkts, ledger);
    }
  }

  /**
   A frame that yields one packet is, from its virtio header on, that of a plain packet, and the packet is the
   original.
   */
  ghost predicate Untouched(buf: Buf, offset: nat, pkts: seq<seq<byte>>, j: nat)
    requires Readable(buf, offset)
  {
    |FramePackets(buf, offset)| == 1 ==>
      j < |pkts| && FrameHdr(buf, offset) == DEFAULT_HDR && FramePkt(buf, offset) == pkts[j]
  }

  lemma LoneUntouched(b: Batch, bufs': seq<Buf>, offset: nat, start: seq<Buf>, canUdpGro: bool, ledger: Ledger, j: nat)
    requires Done(b, bufs', offset, start, canUdpGro, ledger) && j in b.toWrite
    ensures j < |bufs'| && Readable(bufs'[j], offset) && Untouched(bufs'[j], offset, Packets(start, offset), j)
  {
    hide Done, Core, Readable, FramePackets, FrameHdr, FramePkt, SamePacket, Accounted;
    var pkts := Packets(start, offset);
    hide Packets;
    DoneShape(b, bufs', offset, start, canUdpGro, ledger);
    EveryFrameDelivers(b, bufs', offset, start, canUdpGro, ledger, j);
    AloneIsOwn(b, offset, pkts, ledger, j);
    if |ledger[j].members| == 1 {
      assert j in ledger[j].members;
      assert Pick(pkts, ledger[j].members)[0] == pkts[j];
    }
  }

  // ----- Everything together -----

  lemma FlowListed(b: Batch, bufs': seq<Buf>, offset: nat, start: seq<Buf>, ledger: Ledger, key: UdpFlowKey)
    requires Done(b, bufs', offset, start, true, ledger)
    ensures Listed(UdpIndices(UdpItemsOf(b.udp, key)), key, b.toWrite, ledger)
    ensures forall j :: j in b.toWrite ==> Sorted(Packets(start, offset), ledger, key, j)
    ensures Carried(UdpItemsOf(b.udp, key), ledger) == Arrivals(Packets(start, offset), true, key, |start|)
  {
    hide Sorted, FlowBooked, OwnerKnown, UdpGroup, WithinCapacity, Accounted, Roll, Upto, Carried, Arrivals, Packets,
      Caps, PktAt, LooseQuiet, UdpItemsOf;
    UdpFlowOf(b, key, offset, Packets(start, offset), ledger);
    forall j | j in b.toWrite ensures Sorted(Packets(start, offset), ledger, key, j) {
      EveryFrameSorted(b, offset, Packets(start, offset), ledger, key, j);
    }
    FlowIsListed(UdpItemsOf(b.udp, key), key, b, offset, Packets(start, offset), ledger);
  }

  /** Everything a finished batch delivers, stated for its book. */
  lemma DoneDelivers(b: Batch, bufs': seq<Buf>, offset: nat, start: seq<Buf>, canUdpGro: bool, ledger: Ledger)
    requires Done(b, bufs', offset, start, canUdpGro, ledger)
    ensures forall k :: 0 <= k < |b.toWrite| ==> b.toWrite[k] < |bufs'| && Readable(bufs'[b.toWrite[k]], offset)
    ensures var got, pkts := ReadBack(bufs', offset, b.toWrite), Packets(start, offset);
            && Matches(got, pkts, Roll(b.toWrite, ledger))
            && multiset(Roll(b.toWrite, ledger)) == multiset(Upto(|pkts|))
            && multiset(Gists(got)) == multiset(Gists(pkts))
            && (canUdpGro ==> forall key :: DatagramsOf(Gists(got), key) == DatagramsOf(Gists(pkts), key))
  {
    hide Done, FrameDelivers, Matches, Readable, Roll, Packets, GistOf, DatagramsOf;
    var pkts, roll := Packets(start, offset), Roll(b.toWrite, ledger);
    DoneShape(b, bufs', offset, start, canUdpGro, ledger);
    forall j | j in b.toWrite ensures FrameDelivers(bufs', offset, pkts, ledger, j) {
      EveryFrameDelivers(b, bufs', offset, start, canUdpGro, ledger, j);
    }
    ReadBackMatchesRoll(bufs', offset, pkts, ledger, b.toWrite);
    var got := ReadBack(bufs', offset, b.toWrite);
    GistsConserved(got, pkts, roll);
    if canUdpGro {
      forall key ensures DatagramsOf(Gists(got), key) == DatagramsOf(Gists(pkts), key) {
        MatchesGists(got, pkts, roll);
        FlowListed(b, bufs', offset, start, ledger, key);
        RollByFlow(UdpItemsOf(b.udp, key), key, b.toWrite, ledger, pkts);
        ArrivalsInOrder(pkts, key, |pkts|);
        assert Gists(pkts)[..|pkts|] == Gists(pkts);
      }
    }
  }

  /**
   Reading bufs back in the order of toWrite gives the packets of start: all of them, once each, lone ones
   untouched, and UDP flows in order.
   */
  ghost predicate Conserved(bufs: seq<Buf>, toWrite: seq<nat>, start: seq<Buf>, offset: nat, canUdpGro: bool) {
    && (forall k :: 0 <= k < |toWrite| ==> toWrite[k] < |bufs| && Readable(bufs[toWrite[k]], offset))
    && var got, pkts := ReadBack(bufs, offset, toWrite), Packets(start, offset);
    && (exists roll: seq<nat> :: multiset(roll) == multiset(Upto(|pkts|)) && Matches(got, pkts, roll))
    && multiset(Gists(got)) == multiset(Gists(pkts))
    && (canUdpGro ==> forall key :: DatagramsOf(Gists(got), key) == DatagramsOf(Gists(pkts), key))
    && (forall k :: 0 <= k < |toWrite| ==> Untouched(bufs[toWrite[k]], offset, pkts, toWrite[k]))
  }

  /**
   Conservation. When handle_gro succeeds, reading back the frames to write, in order, gives every packet
   of the batch exactly once: a frame of one packet is the original byte for byte, behind an empty virtio
   header; a packet of a larger frame carries the same bytes of the same stream, or the same datagram, as
   its original; and the datagrams of a UDP flow come in the order they were handed over.
   */
  lemma BatchIsConserved(start: seq<Buf>, offset: nat, canUdpGro: bool, after: Batch)
    requires WithinCapacity(start)
    requires GroOutcome(Ok(()), start, offset, canUdpGro, after)
    ensures Conserved(after.bufs, after.toWrite, start, offset, canUdpGro)
  {
    hide Balanced, Accounted, Run, Readable, Matches, Conserved, Startable, WithinCapacity;
    if start == [] {
      NothingConserved(after.bufs, offset, canUdpGro);
    } else {
      var b := Run(start, offset, canUdpGro, |start|);
      var ledger :| Balanced(b, offset, Packets(start, offset), start, canUdpGro, |start|, ledger);
      assert Startable(start, offset, |start|);
      StartableOffsets(start, offset);
      FinishedIsConserved(b, after.bufs, offset, start, canUdpGro, ledger);
    }
  }

  lemma StartableOffsets(start: seq<Buf>, offset: nat)
    requires Startable(start, offset, |start|)
    ensures forall j :: 0 <= j < |start| ==> OffsetOk(start, offset, j)
  {}

  lemma FinishedIsConserved(b: Batch, bufs': seq<Buf>, offset: nat, start: seq<Buf>, canUdpGro: bool, ledger: Ledger)
    requires Done(b, bufs', offset, start, canUdpGro, ledger)
    ensures Conserved(bufs', b.toWrite, start, offset, canUdpGro)
  {
    hide Done, Matches, Readable, Roll, Packets, GistOf, DatagramsOf, ReadBack, Untouched;
    DoneDelivers(b, bufs', offset, start, canUdpGro, ledger);
    forall k | 0 <= k < |b.toWrite|
      ensures Untouched(bufs'[b.toWrite[k]], offset, Packets(start, offset), b.toWrite[k])
    {
      LoneUntouched(b, bufs', offset, start, canUdpGro, ledger, b.toWrite[k]);
    }
  }

  lemma NothingConserved(bufs: seq<Buf>, offset: nat, canUdpGro: bool)
    ensures Conserved(bufs, [], [], offset, canUdpGro)
  {
    assert Matches([], [], []);
    assert Gists([]) == [];
    assert Packets([], offset) == [] && ReadBack(bufs, offset, []) == [];
    assert Upto(0) == [];
  }
}
