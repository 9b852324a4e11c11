/** The datagrams of a UDP flow leave in the order they came. */
module DatagramOrder {
  import opened Bytes
  import opened Packet
  import opened Buffers
  import opened Tcp
  import opened Udp
  import opened TcpItem
  import opened Ledger
  import opened UdpTable
  import opened TcpBook
  import opened UdpBook
  import opened GroBatch
  import opened GroRun
  import opened Gro
  import opened Frames
  import opened Rolls

  /** The datagrams of a flow, in order. */
  function DatagramsOf(gs: seq<Gist>, key: UdpFlowKey): seq<Gist> {
    if gs == [] then []
    else
      var last := gs[|gs| - 1];
      DatagramsOf(gs[..|gs| - 1], key) + if last.UdpData? && last.udpKey == key then [last] else []
  }

  lemma {:induction false} DatagramsConcat(a: seq<Gist>, b: seq<Gist>, key: UdpFlowKey)
    ensures DatagramsOf(a + b, key) == DatagramsOf(a, key) + DatagramsOf(b, key)
  {
    if b == [] {
      assert a + b == a;
    } else {
      var n := |b| - 1;
      assert (a + b)[..|a + b| - 1] == a + b[..n];
      DatagramsConcat(a, b[..n], key);
    }
  }

  lemma {:induction false} AllOfFlow(gs: seq<Gist>, key: UdpFlowKey)
    requires forall k :: 0 <= k < |gs| ==> gs[k].UdpData? && gs[k].udpKey == key
    ensures DatagramsOf(gs, key) == gs
  {
    if gs != [] { AllOfFlow(gs[..|gs| - 1], key); }
  }

  lemma {:induction false} NoneOfFlow(gs: seq<Gist>, key: UdpFlowKey)
    requires forall k :: 0 <= k < |gs| ==> !(gs[k].UdpData? && gs[k].udpKey == key)
    ensures DatagramsOf(gs, key) == []
  {
    if gs != [] { NoneOfFlow(gs[..|gs| - 1], key); }
  }

  lemma GistKind(pkt: seq<byte>, isV6: bool)
    ensures TcpCandidate(pkt, isV6) ==> GistOf(pkt).TcpData?
    ensures UdpCandidate(pkt, isV6) ==> GistOf(pkt).UdpData?
                                         && GistOf(pkt).udpKey == UdpKeyOf(pkt, isV6)
                                         && GistOf(pkt).udpKey.isV6 == isV6
    ensures GistOf(pkt).UdpData? ==> !NoDatagram(pkt, true) && UdpCandidate(pkt, GistOf(pkt).udpKey.isV6)
  {
    OneKind(pkt, isV6);
    hide TcpCandidate, UdpCandidate, KeyOf, SeqNo, TcpPayload, Options, UdpPayload;
    assert forall v6 :: UdpCandidate(pkt, v6) ==> UdpKeyOf(pkt, v6).isV6 == v6;
  }

  /** A frame holds datagrams of one flow only, and only if that flow owns it. */
  ghost predicate Sorted(pkts: seq<seq<byte>>, ledger: Ledger, key: UdpFlowKey, j: nat) {
    && j in ledger && (forall m :: m in ledger[j].members ==> m < |pkts|)
    && DatagramsOf(At(Gists(pkts), ledger[j].members), key) ==
       if ledger[j].owner == UdpOwned(key) then At(Gists(pkts), ledger[j].members) else []
  }

  lemma BookedIsUdp(item: UdpItem, key: UdpFlowKey, bufs: seq<Buf>, offset: nat, pkts: seq<seq<byte>>, ledger: Ledger)
    requires UdpItemBooked(item, key, bufs, offset, pkts, ledger)
    ensures var ms := ledger[item.bufsIndex].members;
            forall k :: 0 <= k < |ms| ==>
              && ms[k] < |pkts|
              && UdpCandidate(pkts[ms[k]], key.isV6)
              && UdpKeyOf(pkts[ms[k]], key.isV6) == key
  {
    var ms := ledger[item.bufsIndex].members;
    hide ChecksumValid, EvenSized, UdpCandidate, UdpPayloads, UdpKeyOf;
    assert |Pick(pkts, ms)| == |ms|;
    forall k | 0 <= k < |ms|
      ensures ms[k] < |pkts| && UdpCandidate(pkts[ms[k]], key.isV6)
              && UdpKeyOf(pkts[ms[k]], key.isV6) == key
    {
      assert ms[k] in ms;
      assert Pick(pkts, ms)[k] == pkts[ms[k]];
    }
  }

  lemma TcpSorted(item: TcpItem, owner: TcpFlowKey, bufs: seq<Buf>, offset: nat, pkts: seq<seq<byte>>, ledger: Ledger,
                  key: UdpFlowKey)
    requires ItemBooked(item, owner, bufs, offset, pkts, ledger)
    ensures Sorted(pkts, ledger, key, item.bufsIndex)
  {
    BookedIsTcp(item, owner, bufs, offset, pkts, ledger);
    hide TcpGroup, TcpCandidate, GistOf, DatagramsOf;
    var gs := At(Gists(pkts), ledger[item.bufsIndex].members);
    forall k | 0 <= k < |gs| ensures gs[k].TcpData? { GistKind(pkts[ledger[item.bufsIndex].members[k]], owner.isV6); }
    NoneOfFlow(gs, key);
  }

  lemma UdpSorted(item: UdpItem, owner: UdpFlowKey, bufs: seq<Buf>, offset: nat, pkts: seq<seq<byte>>, ledger: Ledger,
                  key: UdpFlowKey)
    requires UdpItemBooked(item, owner, bufs, offset, pkts, ledger)
    ensures Sorted(pkts, ledger, key, item.bufsIndex)
  {
    BookedIsUdp(item, owner, bufs, offset, pkts, ledger);
    hide UdpGroup, UdpCandidate, GistOf, DatagramsOf, UdpKeyOf;
    var gs := At(Gists(pkts), ledger[item.bufsIndex].members);
    forall k | 0 <= k < |gs| ensures gs[k].UdpData? && gs[k].udpKey == owner {
      GistKind(pkts[ledger[item.bufsIndex].members[k]], owner.isV6);
    }
    if owner == key { AllOfFlow(gs, key); } else { NoneOfFlow(gs, key); }
  }

  lemma LooseSorted(pkts: seq<seq<byte>>, ledger: Ledger, key: UdpFlowKey, j: nat)
    requires LooseQuiet(pkts, true, ledger) && j in ledger && ledger[j].owner == Loose && ledger[j].members == [j]
    ensures Sorted(pkts, ledger, key, j)
  {
    hide GistOf, DatagramsOf, NoDatagram;
    GistKind(pkts[j], key.isV6);
    NoneOfFlow(At(Gists(pkts), [j]), key);
  }

  lemma EveryFrameSorted(b: Batch, offset: nat, pkts: seq<seq<byte>>, ledger: Ledger, key: UdpFlowKey, j: nat)
    requires Core(b, offset, pkts, ledger) && LooseQuiet(pkts, true, ledger) && j in ledger
    ensures Sorted(pkts, ledger, key, j)
  {
    hide Sorted, ItemBooked, UdpItemBooked, FlowBooked, UdpFlowBooked, LooseQuiet, WithinCapacity, PktAt, HdrAt;
    TablesDisjoint(b, offset, pkts, ledger, j);
    BookedInCore(b, offset, pkts, ledger);
    assert OwnerKnown(b, offset, pkts, ledger, j);
    match ledger[j].owner {
      case Loose => LooseSorted(pkts, ledger, key, j);
      case TcpOwned(_) =>
        var owner, k :| owner in b.tcp && 0 <= k < |b.tcp[owner]| && b.tcp[owner][k].bufsIndex == j;
        TcpSorted(b.tcp[owner][k], owner, b.bufs, offset, pkts, ledger, key);
      case UdpOwned(_) =>
        var owner, k :| owner in b.udp && 0 <= k < |b.udp[owner]| && b.udp[owner][k].bufsIndex == j;
        UdpSorted(b.udp[owner][k], owner, b.bufs, offset, pkts, ledger, key);
    }
  }

  ghost predicate Increasing(ids: seq<nat>) {
    forall j, k :: 0 <= j < k < |ids| ==> ids[j] < ids[k]
  }

  ghost predicate Owns(key: UdpFlowKey, ledger: Ledger, j: nat) {
    j in ledger && ledger[j].owner == UdpOwned(key)
  }

  /** The frames of a flow's items are those of the frames to write that it owns, in the same order. */
  ghost predicate Listed(ids: seq<nat>, key: UdpFlowKey, toWrite: seq<nat>, ledger: Ledger) {
    && Increasing(toWrite) && Increasing(ids)
    && (forall j :: j in ids <==> j in toWrite && Owns(key, ledger, j))
  }

  lemma InitOf(ids: seq<nat>)
    requires Increasing(ids) && ids != []
    ensures var n := |ids| - 1;
            Increasing(ids[..n]) && forall j :: j in ids[..n] <==> j in ids && j != ids[n]
  {
    var n := |ids| - 1;
    forall j | j in ids && j != ids[n] ensures j in ids[..n] {
      var k :| 0 <= k < |ids| && ids[k] == j;
      assert ids[..n][k] == j;
    }
  }

  /** Of the last frame and the rest: the last item is the last frame's if the flow owns it. */
  lemma ListedInit(ids: seq<nat>, key: UdpFlowKey, toWrite: seq<nat>, ledger: Ledger)
    requires Listed(ids, key, toWrite, ledger) && toWrite != []
    ensures var n := |toWrite| - 1;
            if Owns(key, ledger, toWrite[n])
            then ids != [] && ids[|ids| - 1] == toWrite[n] && Listed(ids[..|ids| - 1], key, toWrite[..n], ledger)
            else Listed(ids, key, toWrite[..n], ledger)
  {
    hide Owns;
    var n := |toWrite| - 1;
    assert toWrite[n] in toWrite;
    InitOf(toWrite);
    if Owns(key, ledger, toWrite[n]) {
      assert toWrite[n] in ids;
      InitOf(ids);
      SameLast(ids, toWrite);
    }
  }

  lemma SameLast(ids: seq<nat>, toWrite: seq<nat>)
    requires Increasing(ids) && Increasing(toWrite) && toWrite != []
    requires toWrite[|toWrite| - 1] in ids && forall j :: j in ids ==> j in toWrite
    ensures ids != [] && ids[|ids| - 1] == toWrite[|toWrite| - 1]
  {
    assert ids[|ids| - 1] in ids;
  }

  /** Of everything the frames carry, the flow's datagrams are those its items carry, in their order. */
  lemma {:induction false} RollByFlow(items: seq<UdpItem>, key: UdpFlowKey, toWrite: seq<nat>, ledger: Ledger,
                                      pkts: seq<seq<byte>>)
    requires Listed(UdpIndices(items), key, toWrite, ledger)
    requires forall j :: j in toWrite ==> Sorted(pkts, ledger, key, j)
    ensures forall m :: m in Roll(toWrite, ledger) ==> m < |pkts|
    ensures forall m :: m in Carried(items, ledger) ==> m < |pkts|
    ensures DatagramsOf(At(Gists(pkts), Roll(toWrite, ledger)), key) == At(Gists(pkts), Carried(items, ledger))
    decreases |toWrite|
  {
    hide Listed, GistOf, DatagramsOf, Gists, At;
    if toWrite == [] {
      NothingListed(items, key, ledger);
      NoDatagramsOf(key);
    } else {
      var n := |toWrite| - 1;
      var j, gs := toWrite[n], Gists(pkts);
      ListedInit(UdpIndices(items), key, toWrite, ledger);
      assert Sorted(pkts, ledger, key, j);
      var own := ledger[j].owner == UdpOwned(key);
      var items' := if own then items[..|items| - 1] else items;
      if own { assert UdpIndices(items') == UdpIndices(items)[..|items| - 1]; }
      RollByFlow(items', key, toWrite[..n], ledger, pkts);
      var before := Roll(toWrite[..n], ledger);
      assert Roll(toWrite, ledger) == before + ledger[j].members;
      AtParts(gs, before, ledger[j].members);
      DatagramsConcat(At(gs, before), At(gs, ledger[j].members), key);
      if own {
        assert Carried(items, ledger) == Carried(items', ledger) + ledger[j].members;
        AtParts(gs, Carried(items', ledger), ledger[j].members);
      }
    }
  }

  lemma NoDatagramsOf(key: UdpFlowKey)
    ensures DatagramsOf([], key) == []
    ensures At<Gist>([], []) == []
  {}

  lemma SomeIndex(ids: seq<nat>)
    ensures ids != [] ==> exists j :: j in ids
  {
    if ids != [] { assert ids[0] in ids; }
  }

  lemma NothingListed(items: seq<UdpItem>, key: UdpFlowKey, ledger: Ledger)
    requires Listed(UdpIndices(items), key, [], ledger)
    ensures items == []
  {
    SomeIndex(UdpIndices(items));
  }

  /** What arrives for a flow is its datagrams in the batch. */
  lemma {:induction false} ArrivalsInOrder(pkts: seq<seq<byte>>, key: UdpFlowKey, n: nat)
    requires n <= |pkts|
    ensures forall m :: m in Arrivals(pkts, true, key, n) ==> m < |pkts|
    ensures At(Gists(pkts), Arrivals(pkts, true, key, n)) == DatagramsOf(Gists(pkts)[..n], key)
  {
    hide GistOf, UdpCandidate, UdpKeyOf;
    if n > 0 {
      ArrivalsInOrder(pkts, key, n - 1);
      assert Gists(pkts)[..n][..n - 1] == Gists(pkts)[..n - 1];
      GistKind(pkts[n - 1], key.isV6);
    }
  }

  lemma FlowIsListed(items: seq<UdpItem>, key: UdpFlowKey, b: Batch, offset: nat, pkts: seq<seq<byte>>, ledger: Ledger)
    requires Core(b, offset, pkts, ledger) && UdpFlowBooked(items, key, b.bufs, offset, pkts, ledger)
    ensures Listed(UdpIndices(items), key, b.toWrite, ledger)
  {
    hide FlowBooked, OwnerKnown, UdpGroup, WithinCapacity, PktAt;
    forall j | j in UdpIndices(items) ensures j in b.toWrite && Owns(key, ledger, j) {
      var k :| 0 <= k < |items| && UdpIndices(items)[k] == j;
      assert UdpItemBooked(items[k], key, b.bufs, offset, pkts, ledger);
    }
  }
}
