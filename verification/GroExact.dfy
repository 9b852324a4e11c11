/** In every reachable state handle_gro merges a packet exactly when it can. */
module GroExact {
  import opened Bytes
  import opened Packet
  import opened Buffers
  import opened Tcp
  import opened Udp
  import opened TcpItem
  import opened TcpCoalesce
  import opened Ledger
  import opened TcpTable
  import opened TcpBook
  import opened UdpTable
  import opened UdpBook
  import opened GroBatch
  import opened GroRun
  import opened GroChoice
  import opened GroReachable

  // ----- TCP -----

  /** Packet n is welcome among the original packets that the item stands for. */
  ghost predicate WelcomeAt(item: TcpItem, b: Batch, offset: nat, pkts: seq<seq<byte>>, n: nat, isV6: bool) {
    && n < |pkts| && TcpCandidate(pkts[n], isV6) && n < |b.bufs| && item.bufsIndex < |b.bufs|
    && offset <= |b.bufs[item.bufsIndex].bytes|
    && exists members ::
         && TcpStandsFor(item, PktAt(b.bufs, offset, item.bufsIndex), pkts, n, members, isV6)
         && Welcome(pkts[n], Pick(pkts, members), b.bufs[item.bufsIndex], b.bufs[n],
                    PktAt(b.bufs, offset, item.bufsIndex), offset, isV6)
  }

  /** An item of the packet's flow takes it exactly when it is welcome there. */
  lemma TakesIffWelcomeAt(item: TcpItem, key: TcpFlowKey, b: Batch, offset: nat, pkts: seq<seq<byte>>, start: seq<Buf>,
                          canUdpGro: bool, n: nat, ledger: Ledger)
    requires Balanced(b, offset, pkts, start, canUdpGro, n, ledger)
    requires ItemBooked(item, key, b.bufs, offset, pkts, ledger)
    requires n < |pkts| && n < |b.bufs| && offset <= |b.bufs[n].bytes| && PktAt(b.bufs, offset, n) == pkts[n]
    requires TcpCandidate(pkts[n], key.isV6) && KeyOf(pkts[n], key.isV6) == key
    requires ItemReady(item, n, b.bufs, offset, key.isV6)
    ensures Takes(item, pkts[n], n, b.bufs, offset, key.isV6) <==> WelcomeAt(item, b, offset, pkts, n, key.isV6)
  {
    hide Balanced, TcpGroup, Welcome, Takes, TcpCandidate, PktAt, KeyOf, ItemBooked;
    var isV6, target := key.isV6, PktAt(b.bufs, offset, item.bufsIndex);
    BookedStandsFor(item, key, b, offset, pkts, start, canUdpGro, n, ledger);
    forall members | TcpStandsFor(item, target, pkts, n, members, isV6)
      ensures Takes(item, pkts[n], n, b.bufs, offset, isV6) <==>
              Welcome(pkts[n], Pick(pkts, members), b.bufs[item.bufsIndex], b.bufs[n], target, offset, isV6)
    {
      TakesIff(item, Pick(pkts, members), pkts[n], n, b.bufs, offset, isV6);
    }
  }

  /** What a step does with a TCP candidate: it writes nothing new exactly when the search merges. */
  lemma TcpStepShape(b: Batch, offset: nat, canUdpGro: bool, n: nat, isV6: bool)
    requires StepReady(b, offset, canUdpGro, n) && TcpCandidate(PktAt(b.bufs, offset, n), isV6)
    ensures var p := PktAt(b.bufs, offset, n);
            var items := ItemsOf(b.tcp, KeyOf(p, isV6));
            && Searchable(items, p, n, b.bufs, offset, isV6)
            && var found := SearchFlow(items, |items|, p, n, b.bufs, offset, isV6);
            && var b' := GroStep(b, offset, canUdpGro, n);
            && (b'.toWrite == b.toWrite <==> found.ending == Merged)
            && (found.ending == Merged ==> b'.bufs == found.bufs)
  {
    hide SearchFlow, Searchable, UdpSearchable, KeyOf, NewItem, WithHdr, ItemsOf, StepUdp;
    ClassifyAsTcp(PktAt(b.bufs, offset, n), canUdpGro, isV6);
    hide TcpCandidate;
  }

  lemma ClassifyAsTcp(pkt: seq<byte>, canUdpGro: bool, isV6: bool)
    requires TcpCandidate(pkt, isV6)
    ensures Classify(pkt, canUdpGro) == if isV6 then Tcp6 else Tcp4
  {}

  lemma NextReady(start: seq<Buf>, offset: nat, canUdpGro: bool, n: nat) returns (ledger: Ledger)
    requires Startable(start, offset, n) && n < |start| && OffsetOk(start, offset, n)
    ensures var b, pkts := Run(start, offset, canUdpGro, n), Packets(start, offset);
            && Balanced(b, offset, pkts, start, canUdpGro, n, ledger) && StepReady(b, offset, canUdpGro, n)
            && n < |b.bufs| && offset <= |b.bufs[n].bytes| && PktAt(b.bufs, offset, n) == pkts[n]
            && Core(b, offset, pkts, ledger)
  {
    hide Run, Balanced, StepReady, Core;
    var b, pkts := Run(start, offset, canUdpGro, n), Packets(start, offset);
    ledger := RunBook(start, offset, canUdpGro, n);
    BalancedIsReady(b, offset, pkts, start, canUdpGro, n, ledger);
    BalancedPkt(b, offset, pkts, start, canUdpGro, n, ledger);
    BalancedCore(b, offset, pkts, start, canUdpGro, n, ledger);
  }

  /** In the state before packet n, its flow's items take it exactly where it is welcome. */
  lemma FlowTakesIffWelcome(b: Batch, offset: nat, pkts: seq<seq<byte>>, start: seq<Buf>, canUdpGro: bool, n: nat,
                            ledger: Ledger, isV6: bool)
    requires Balanced(b, offset, pkts, start, canUdpGro, n, ledger) && Core(b, offset, pkts, ledger)
    requires n < |pkts| && n < |b.bufs| && offset <= |b.bufs[n].bytes| && PktAt(b.bufs, offset, n) == pkts[n]
    requires TcpCandidate(pkts[n], isV6)
    requires Searchable(ItemsOf(b.tcp, KeyOf(pkts[n], isV6)), pkts[n], n, b.bufs, offset, isV6)
    ensures var items := ItemsOf(b.tcp, KeyOf(pkts[n], isV6));
            forall k :: 0 <= k < |items| ==>
              (Takes(items[k], pkts[n], n, b.bufs, offset, isV6) <==> WelcomeAt(items[k], b, offset, pkts, n, isV6))
  {
    hide Balanced, Core, Takes, WelcomeAt, TcpCandidate, PktAt, ItemReady, ItemBooked, ItemsOf;
    var key := KeyOf(pkts[n], isV6);
    assert key.isV6 == isV6;
    hide KeyOf;
    var items := ItemsOf(b.tcp, key);
    TcpFlowOf(b, key, offset, pkts, ledger);
    forall k | 0 <= k < |items|
      ensures Takes(items[k], pkts[n], n, b.bufs, offset, isV6) <==> WelcomeAt(items[k], b, offset, pkts, n, isV6)
    {
      assert ItemBooked(items[k], key, b.bufs, offset, pkts, ledger) && ItemReady(items[k], n, b.bufs, offset, isV6);
      TakesIffWelcomeAt(items[k], key, b, offset, pkts, start, canUdpGro, n, ledger);
    }
  }

  /** Item k is the last of the flow among whose packets packet n is welcome. */
  ghost predicate LastWelcome(items: seq<TcpItem>, b: Batch, offset: nat, pkts: seq<seq<byte>>, n: nat, isV6: bool,
                              k: nat) {
    && k < |items| && WelcomeAt(items[k], b, offset, pkts, n, isV6)
    && forall j :: k < j < |items| ==> !WelcomeAt(items[j], b, offset, pkts, n, isV6)
  }

  /**
   From b to b', TCP candidate n is merged if and only if some item of its flow stands for packets among which it
   is welcome, and it is merged into the last such item's frame.
   */
  ghost predicate MergedIffWelcome(b: Batch, b': Batch, offset: nat, pkts: seq<seq<byte>>, n: nat, isV6: bool)
    requires n < |pkts| && TcpCandidate(pkts[n], isV6)
  {
    var items := ItemsOf(b.tcp, KeyOf(pkts[n], isV6));
    && (b'.toWrite == b.toWrite <==> exists k :: 0 <= k < |items| && WelcomeAt(items[k], b, offset, pkts, n, isV6))
    && (forall k: nat :: LastWelcome(items, b, offset, pkts, n, isV6, k) ==>
          GrownBy(items[k], b, b', offset, pkts[n], isV6))
  }

  /** Exactness: after any number of packets, the next TCP candidate is merged if and only if it is welcome. */
  lemma TcpMergesIffWelcome(start: seq<Buf>, offset: nat, canUdpGro: bool, n: nat, isV6: bool)
    requires Startable(start, offset, n) && n < |start| && OffsetOk(start, offset, n)
    requires TcpCandidate(Packets(start, offset)[n], isV6)
    ensures StepReady(Run(start, offset, canUdpGro, n), offset, canUdpGro, n)
    ensures var b := Run(start, offset, canUdpGro, n);
            MergedIffWelcome(b, GroStep(b, offset, canUdpGro, n), offset, Packets(start, offset), n, isV6)
  {
    hide Run, Balanced, Core, StepReady, GroStep, TcpCandidate, Takes, WelcomeAt, SearchFlow, Searchable, Packets,
      KeyOf, PktAt, ItemReady, GrownBy;
    var b, pkts := Run(start, offset, canUdpGro, n), Packets(start, offset);
    var ledger := NextReady(start, offset, canUdpGro, n);
    var items := ItemsOf(b.tcp, KeyOf(pkts[n], isV6));
    TcpStepShape(b, offset, canUdpGro, n, isV6);
    FlowTakesIffWelcome(b, offset, pkts, start, canUdpGro, n, ledger, isV6);
    SearchFindsTaker(items, |items|, pkts[n], n, b.bufs, offset, isV6);
    forall k: nat | LastWelcome(items, b, offset, pkts, n, isV6, k)
      ensures GrownBy(items[k], b, GroStep(b, offset, canUdpGro, n), offset, pkts[n], isV6)
    {
      LastTakerTakes(items, |items|, k, pkts[n], n, b.bufs, offset, isV6);
      GrowthIs(items[k], b, GroStep(b, offset, canUdpGro, n), n, offset, pkts[n], isV6);
    }
  }

  /** The item's frame holds the packet merged with what it held, behind or in front as the decision says. */
  ghost predicate GrownBy(item: TcpItem, b: Batch, b': Batch, offset: nat, p: seq<byte>, isV6: bool) {
    && TcpCandidate(p, isV6) && item.bufsIndex < |b.bufs| && item.bufsIndex < |b'.bufs|
    && offset <= |b.bufs[item.bufsIndex].bytes| && offset <= |b'.bufs[item.bufsIndex].bytes|
    && var target := PktAt(b.bufs, offset, item.bufsIndex);
    && Usable(item, target, isV6) && |target| >= HeadersLen(p, isV6)
    && PktAt(b'.bufs, offset, item.bufsIndex) ==
       MergedPkt(TcpPacketsCanCoalesce(p, isV6, item, target), p, target, isV6)
  }

  lemma GrowthIs(item: TcpItem, b: Batch, b': Batch, n: nat, offset: nat, p: seq<byte>, isV6: bool)
    requires TcpCandidate(p, isV6) && ItemReady(item, n, b.bufs, offset, isV6) && |b'.bufs| == |b.bufs|
    requires offset <= |b'.bufs[item.bufsIndex].bytes| && |PktAt(b.bufs, offset, item.bufsIndex)| >= HeadersLen(p, isV6)
    requires PktAt(b'.bufs, offset, item.bufsIndex) ==
             MergedPkt(Mode(item, p, n, b.bufs, offset, isV6), p, PktAt(b.bufs, offset, item.bufsIndex), isV6)
    ensures GrownBy(item, b, b', offset, p, isV6)
  {
    hide TcpCandidate, MergedPkt, TcpPacketsCanCoalesce, PktAt;
  }

  // ----- Everything else -----

  /** A packet that is no candidate, or a datagram when datagrams are not merged, is written as it is. */
  lemma OthersLeftAlone(b: Batch, offset: nat, canUdpGro: bool, n: nat)
    requires StepReady(b, offset, canUdpGro, n)
    requires var p := PktAt(b.bufs, offset, n);
             && !TcpCandidate(p, false) && !TcpCandidate(p, true)
             && (canUdpGro ==> !UdpCandidate(p, false) && !UdpCandidate(p, true))
    ensures GroStep(b, offset, canUdpGro, n) ==
            Batch(WithHdr(b.bufs, offset, n, DEFAULT_HDR), b.tcp, b.udp, b.toWrite + [n])
  {
    hide SearchFlow, Searchable, UdpSearchable, KeyOf, UdpKeyOf, NewItem, NewUdpItem, WithHdr, MergesUdp, FoundInvalid;
  }

  /**
   tcp_gro goes past its gates with a candidate and with nothing else: it leaves anything else alone, merges exactly
   when some item of the flow takes the packet, and stores it otherwise, unless its checksum has been found wrong.
   */
  lemma TcpGates(flows: TcpFlows, i: nat, bufs: seq<Buf>, offset: nat, isV6: bool)
    requires i < |bufs| && i <= 0xFFFF && offset <= |bufs[i].bytes|
    requires var pkt := PktAt(bufs, offset, i);
             TcpCandidate(pkt, isV6) ==> Searchable(ItemsOf(flows, KeyOf(pkt, isV6)), pkt, i, bufs, offset, isV6)
    ensures var pkt, step := PktAt(bufs, offset, i), StepTcp(flows, i, bufs, offset, isV6);
            if !TcpCandidate(pkt, isV6) then step == TcpStep(Noop, bufs, flows)
            else
              var items := ItemsOf(flows, KeyOf(pkt, isV6));
              && (step.result == Coalesced <==> SomeTakes(items, |items|, pkt, i, bufs, offset, isV6))
              && (step.result == Noop ==> !ChecksumValid(pkt, IpLen(isV6), IPPROTO_TCP, isV6))
  {
    var pkt := PktAt(bufs, offset, i);
    hide TcpCandidate, SearchFlow, SomeTakes, ChecksumValid, KeyOf, NewItem, ItemsOf, Searchable, PktAt;
    if TcpCandidate(pkt, isV6) {
      var items := ItemsOf(flows, KeyOf(pkt, isV6));
      SearchFindsTaker(items, |items|, pkt, i, bufs, offset, isV6);
    }
  }

  /** udp_gro goes past its gates with a candidate and with nothing else. */
  lemma UdpGates(flows: UdpFlows, i: nat, bufs: seq<Buf>, offset: nat, isV6: bool)
    requires i < |bufs| && i <= 0xFFFF && offset <= |bufs[i].bytes|
    requires UdpCandidate(PktAt(bufs, offset, i), isV6) ==>
               UdpSearchable(flows, PktAt(bufs, offset, i), i, bufs, offset, isV6)
    ensures StepUdp(flows, i, bufs, offset, isV6).result == Noop <==> !UdpCandidate(PktAt(bufs, offset, i), isV6)
  {
    hide UdpCandidate, MergesUdp, FoundInvalid, NewUdpItem, UdpKeyOf;
  }

  // ----- UDP -----

  /** Datagram n is welcome among the original datagrams that the item stands for. */
  ghost predicate UdpWelcomeAt(item: UdpItem, b: Batch, offset: nat, pkts: seq<seq<byte>>, n: nat, isV6: bool) {
    && n < |pkts| && UdpCandidate(pkts[n], isV6)
    && item.bufsIndex < |b.bufs| && offset <= |b.bufs[item.bufsIndex].bytes|
    && exists members ::
         && UdpStandsFor(item, PktAt(b.bufs, offset, item.bufsIndex), pkts, n, members, isV6)
         && UdpWelcome(pkts[n], Pick(pkts, members), b.bufs[item.bufsIndex],
                       PktAt(b.bufs, offset, item.bufsIndex), offset, isV6)
  }

  lemma UdpMergesIffWelcomeAt(items: seq<UdpItem>, key: UdpFlowKey, b: Batch, offset: nat, pkts: seq<seq<byte>>,
                              start: seq<Buf>, n: nat, ledger: Ledger)
    requires Balanced(b, offset, pkts, start, true, n, ledger)
    requires UdpFlowBooked(items, key, b.bufs, offset, pkts, ledger)
    requires items != [] && n < |pkts| && UdpReady(items[|items| - 1], pkts[n], n, b.bufs, offset, key.isV6)
    requires UdpKeyOf(pkts[n], key.isV6) == key
    ensures MergesUdp(items, pkts[n], n, b.bufs, offset, key.isV6) <==>
            UdpWelcomeAt(items[|items| - 1], b, offset, pkts, n, key.isV6)
  {
    hide Balanced, UdpGroup, UdpWelcome, MergesUdp, UdpCandidate, PktAt, UdpKeyOf, UsableUdp;
    var item, isV6 := items[|items| - 1], key.isV6;
    var target := PktAt(b.bufs, offset, item.bufsIndex);
    assert UdpItemBooked(item, key, b.bufs, offset, pkts, ledger);
    UdpBookedStandsFor(item, key, b, offset, pkts, start, true, n, ledger);
    hide UdpItemBooked, UdpFlowBooked;
    forall members | UdpStandsFor(item, target, pkts, n, members, isV6)
      ensures MergesUdp(items, pkts[n], n, b.bufs, offset, isV6) <==>
              UdpWelcome(pkts[n], Pick(pkts, members), b.bufs[item.bufsIndex], target, offset, isV6)
    {
      MergesUdpIff(items, Pick(pkts, members), pkts[n], n, b.bufs, offset, isV6);
    }
  }

  lemma UdpStepShape(b: Batch, offset: nat, n: nat, isV6: bool)
    requires StepReady(b, offset, true, n) && UdpCandidate(PktAt(b.bufs, offset, n), isV6)
    ensures var p := PktAt(b.bufs, offset, n);
            var items := UdpItemsOf(b.udp, UdpKeyOf(p, isV6));
            && (items != [] ==> UdpReady(items[|items| - 1], p, n, b.bufs, offset, isV6))
            && (GroStep(b, offset, true, n).toWrite == b.toWrite <==> MergesUdp(items, p, n, b.bufs, offset, isV6))
  {
    hide Searchable, UdpKeyOf, NewUdpItem, StepTcp, MergesUdp, FoundInvalid, Appended, UdpReady;
    ClassifyAsUdp(PktAt(b.bufs, offset, n), isV6);
    hide UdpCandidate;
  }

  lemma ClassifyAsUdp(pkt: seq<byte>, isV6: bool)
    requires UdpCandidate(pkt, isV6)
    ensures Classify(pkt, true) == if isV6 then Udp6 else Udp4
  {}

  /** The same for datagrams: only the last item of the flow is asked. */
  lemma UdpMergesIffWelcome(start: seq<Buf>, offset: nat, n: nat, isV6: bool)
    requires Startable(start, offset, n) && n < |start| && OffsetOk(start, offset, n)
    requires UdpCandidate(Packets(start, offset)[n], isV6)
    ensures StepReady(Run(start, offset, true, n), offset, true, n)
    ensures var b, pkts := Run(start, offset, true, n), Packets(start, offset);
            var items := UdpItemsOf(b.udp, UdpKeyOf(pkts[n], isV6));
            GroStep(b, offset, true, n).toWrite == b.toWrite <==>
            items != [] && UdpWelcomeAt(items[|items| - 1], b, offset, pkts, n, isV6)
  {
    hide Run, Balanced, Core, StepReady, GroStep, UdpCandidate, MergesUdp, UdpWelcomeAt, Packets, UdpKeyOf, PktAt,
      UdpReady, UdpFlowBooked, UdpItemsOf;
    var b, pkts := Run(start, offset, true, n), Packets(start, offset);
    var ledger := NextReady(start, offset, true, n);
    var key := UdpKeyOf(pkts[n], isV6);
    UdpKeyVersion(pkts[n], isV6);
    var items := UdpItemsOf(b.udp, key);
    UdpStepShape(b, offset, n, isV6);
    UdpFlowOf(b, key, offset, pkts, ledger);
    if items != [] {
      UdpMergesIffWelcomeAt(items, key, b, offset, pkts, start, n, ledger);
    } else {
      assert !MergesUdp(items, pkts[n], n, b.bufs, offset, isV6) by {
        NobodyToMergeWith(pkts[n], n, b.bufs, offset, isV6);
      }
    }
  }

  lemma NobodyToMergeWith(pkt: seq<byte>, i: nat, bufs: seq<Buf>, offset: nat, isV6: bool)
    ensures !MergesUdp([], pkt, i, bufs, offset, isV6)
  {}
}
