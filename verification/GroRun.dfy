/** Every step of handle_gro's loop keeps the book balanced, and so does every run of it. */
module GroRun {
  import opened Bytes
  import opened Packet
  import opened Buffers
  import opened Tcp
  import opened Udp
  import opened TcpItem
  import opened Ledger
  import opened TcpTable
  import opened TcpBook
  import opened UdpTable
  import opened UdpBook
  import opened GroBatch

  // ----- One step -----

  /** What a step relies on. */
  ghost predicate StepReady(b: Batch, offset: nat, canUdpGro: bool, i: nat) {
    && i < |b.bufs| <= 0xFFFF && VIRTIO_NET_HDR_LEN <= offset <= |b.bufs[i].bytes|
    && var pkt := PktAt(b.bufs, offset, i);
    && (forall isV6 :: TcpCandidate(pkt, isV6) ==>
          Searchable(ItemsOf(b.tcp, KeyOf(pkt, isV6)), pkt, i, b.bufs, offset, isV6))
    && (forall isV6 :: UdpCandidate(pkt, isV6) ==> UdpSearchable(b.udp, pkt, i, b.bufs, offset, isV6))
  }

  /** A batch with frame i written off as it is, behind an empty virtio header. */
  ghost function LeftAlone(b: Batch, offset: nat, i: nat): Batch
    requires i < |b.bufs| && VIRTIO_NET_HDR_LEN <= offset <= |b.bufs[i].bytes|
  {
    Batch(WithHdr(b.bufs, offset, i, DEFAULT_HDR), b.tcp, b.udp, b.toWrite + [i])
  }

  /** The frame to write, if any, that follows from a result. */
  ghost function Noted(result: GroResult, b: Batch, offset: nat, i: nat): Batch
    requires result == Noop ==> i < |b.bufs| && VIRTIO_NET_HDR_LEN <= offset <= |b.bufs[i].bytes|
  {
    match result
    case Noop => LeftAlone(b, offset, i)
    case TableInsert => b.(toWrite := b.toWrite + [i])
    case Coalesced => b
  }

  ghost function AfterTcp(b: Batch, offset: nat, canUdpGro: bool, i: nat, isV6: bool): Batch
    requires StepReady(b, offset, canUdpGro, i)
    requires Classify(PktAt(b.bufs, offset, i), canUdpGro) == if isV6 then Tcp6 else Tcp4
  {
    var step := StepTcp(b.tcp, i, b.bufs, offset, isV6);
    Noted(step.result, Batch(step.bufs, step.flows, b.udp, b.toWrite), offset, i)
  }

  ghost function AfterUdp(b: Batch, offset: nat, canUdpGro: bool, i: nat, isV6: bool): Batch
    requires StepReady(b, offset, canUdpGro, i)
    requires Classify(PktAt(b.bufs, offset, i), canUdpGro) == if isV6 then Udp6 else Udp4
  {
    var step := StepUdp(b.udp, i, b.bufs, offset, isV6);
    Noted(step.result, Batch(step.bufs, b.tcp, step.flows, b.toWrite), offset, i)
  }

  /** One turn of handle_gro's loop. */
  ghost function GroStep(b: Batch, offset: nat, canUdpGro: bool, i: nat): Batch
    requires StepReady(b, offset, canUdpGro, i)
  {
    match Classify(PktAt(b.bufs, offset, i), canUdpGro)
    case Tcp4 => AfterTcp(b, offset, canUdpGro, i, false)
    case Tcp6 => AfterTcp(b, offset, canUdpGro, i, true)
    case Udp4 => AfterUdp(b, offset, canUdpGro, i, false)
    case Udp6 => AfterUdp(b, offset, canUdpGro, i, true)
    case NotGro => LeftAlone(b, offset, i)
  }

  // ----- A balanced book makes a step possible -----

  lemma {:induction false} RollHolds(toWrite: seq<nat>, ledger: Ledger, j: nat)
    requires j in toWrite && j in ledger
    ensures |ledger[j].members| <= |Roll(toWrite, ledger)|
  {
    var n := |toWrite| - 1;
    if toWrite[n] != j {
      assert j in toWrite[..n];
      RollHolds(toWrite[..n], ledger, j);
    }
  }

  /** No frame carries more packets than have been looked at. */
  lemma MembersBounded(b: Batch, offset: nat, pkts: seq<seq<byte>>, start: seq<Buf>, canUdpGro: bool, i: nat,
                       ledger: Ledger, j: nat)
    requires Balanced(b, offset, pkts, start, canUdpGro, i, ledger) && j in ledger
    ensures |ledger[j].members| <= i
  {
    hide FlowBooked, UdpFlowBooked, OwnerKnown, PktAt, Carried, WithinCapacity;
    RollHolds(b.toWrite, ledger, j);
    assert |multiset(Roll(b.toWrite, ledger))| == |multiset(Upto(i))|;
  }

  lemma BalancedPkt(b: Batch, offset: nat, pkts: seq<seq<byte>>, start: seq<Buf>, canUdpGro: bool, i: nat,
                    ledger: Ledger)
    requires Balanced(b, offset, pkts, start, canUdpGro, i, ledger) && i < |pkts| && offset <= |start[i].bytes|
    ensures i < |b.bufs| && VIRTIO_NET_HDR_LEN <= offset <= |b.bufs[i].bytes| && PktAt(b.bufs, offset, i) == pkts[i]
  {
    hide FlowBooked, UdpFlowBooked, OwnerKnown;
  }

  lemma TcpReady(b: Batch, offset: nat, pkts: seq<seq<byte>>, start: seq<Buf>, canUdpGro: bool, i: nat,
                 ledger: Ledger, isV6: bool)
    requires Balanced(b, offset, pkts, start, canUdpGro, i, ledger) && i < |pkts| && offset <= |start[i].bytes|
    requires TcpCandidate(pkts[i], isV6)
    ensures Ready(ItemsOf(b.tcp, KeyOf(pkts[i], isV6)), KeyOf(pkts[i], isV6), i, b.bufs, offset, pkts, ledger)
    ensures KeyOf(pkts[i], isV6).isV6 == isV6
  {
    BalancedPkt(b, offset, pkts, start, canUdpGro, i, ledger);
    hide UdpFlowBooked, OwnerKnown, PktAt, Carried, WithinCapacity, TcpCandidate, Usable, TcpGroup, Roll, Upto, ItemsOf;
    var key := KeyOf(pkts[i], isV6);
    hide KeyOf;
    var items := ItemsOf(b.tcp, key);
    TcpFlowOf(b, key, offset, pkts, ledger);
    forall k | 0 <= k < |items| ensures ItemReady(items[k], i, b.bufs, offset, isV6) {
      assert ItemBooked(items[k], key, b.bufs, offset, pkts, ledger);
      MembersBounded(b, offset, pkts, start, canUdpGro, i, ledger, items[k].bufsIndex);
      GroupIsUsable(items[k], PktAt(b.bufs, offset, items[k].bufsIndex),
                    Pick(pkts, ledger[items[k].bufsIndex].members), isV6);
      GroupSize(items[k], PktAt(b.bufs, offset, items[k].bufsIndex), Pick(pkts, ledger[items[k].bufsIndex].members),
                isV6);
    }
  }

  lemma GroupSize(item: TcpItem, target: seq<byte>, ms: seq<seq<byte>>, isV6: bool)
    requires TcpGroup(item, target, ms, isV6)
    ensures |ms| == item.numMerged + 1
  {}

  lemma UdpGroupUsable(item: UdpItem, target: seq<byte>, ms: seq<seq<byte>>, isV6: bool)
    requires UdpGroup(item, target, ms, isV6)
    ensures |ms| == item.numMerged + 1 && UsableUdp(item, target, isV6)
  {}

  lemma UdpLastReady(b: Batch, key: UdpFlowKey, offset: nat, pkts: seq<seq<byte>>, start: seq<Buf>, canUdpGro: bool,
                     i: nat, ledger: Ledger)
    requires Balanced(b, offset, pkts, start, canUdpGro, i, ledger) && i < |pkts| && offset <= |start[i].bytes|
    requires UdpCandidate(pkts[i], key.isV6)
    requires UdpItemsOf(b.udp, key) != []
    ensures var items := UdpItemsOf(b.udp, key); UdpReady(items[|items| - 1], pkts[i], i, b.bufs, offset, key.isV6)
  {
    hide FlowBooked, OwnerKnown, PktAt, Carried, WithinCapacity, UdpCandidate, UsableUdp, UdpGroup, Roll, Upto,
      Arrivals;
    BalancedPkt(b, offset, pkts, start, canUdpGro, i, ledger);
    var items := UdpItemsOf(b.udp, key);
    UdpFlowOf(b, key, offset, pkts, ledger);
    var item := items[|items| - 1];
    assert UdpItemBooked(item, key, b.bufs, offset, pkts, ledger);
    MembersBounded(b, offset, pkts, start, canUdpGro, i, ledger, item.bufsIndex);
    UdpGroupUsable(item, PktAt(b.bufs, offset, item.bufsIndex), Pick(pkts, ledger[item.bufsIndex].members), key.isV6);
  }

  lemma BalancedCore(b: Batch, offset: nat, pkts: seq<seq<byte>>, start: seq<Buf>, canUdpGro: bool, i: nat,
                     ledger: Ledger)
    requires Balanced(b, offset, pkts, start, canUdpGro, i, ledger)
    ensures Core(b, offset, pkts, ledger) && i !in ledger
  {
    hide FlowBooked, UdpFlowBooked, OwnerKnown, WithinCapacity, Carried, Roll, Arrivals;
  }

  lemma UdpReadyNow(b: Batch, key: UdpFlowKey, offset: nat, pkts: seq<seq<byte>>, start: seq<Buf>, canUdpGro: bool,
                    i: nat, ledger: Ledger)
    requires Balanced(b, offset, pkts, start, canUdpGro, i, ledger) && i < |pkts| && offset <= |start[i].bytes|
    requires UdpCandidate(pkts[i], key.isV6) && key == UdpKeyOf(pkts[i], key.isV6)
    ensures UdpAtHand(UdpItemsOf(b.udp, key), key, i, b.bufs, offset, pkts, ledger)
  {
    hide Balanced, Core, UdpFlowBooked, UdpReady, UdpCandidate, UdpKeyOf, UdpItemsOf;
    BalancedCore(b, offset, pkts, start, canUdpGro, i, ledger);
    UdpFlowOf(b, key, offset, pkts, ledger);
    if UdpItemsOf(b.udp, key) != [] {
      UdpLastReady(b, key, offset, pkts, start, canUdpGro, i, ledger);
    }
  }

  lemma UdpSearchableNow(b: Batch, offset: nat, pkts: seq<seq<byte>>, start: seq<Buf>, canUdpGro: bool, i: nat,
                         ledger: Ledger, isV6: bool)
    requires Balanced(b, offset, pkts, start, canUdpGro, i, ledger) && i < |pkts| && offset <= |start[i].bytes|
    requires UdpCandidate(pkts[i], isV6)
    ensures UdpSearchable(b.udp, pkts[i], i, b.bufs, offset, isV6)
  {
    hide Balanced, UdpFlowBooked, FlowBooked, OwnerKnown, UdpReady, UdpCandidate, UdpKeyOf;
    var key := UdpKeyOf(pkts[i], isV6);
    UdpKeyVersion(pkts[i], isV6);
    if key in b.udp {
      BalancedCore(b, offset, pkts, start, canUdpGro, i, ledger);
      UdpLastReady(b, key, offset, pkts, start, canUdpGro, i, ledger);
    }
  }

  lemma BalancedIsReady(b: Batch, offset: nat, pkts: seq<seq<byte>>, start: seq<Buf>, canUdpGro: bool, i: nat,
                        ledger: Ledger)
    requires Balanced(b, offset, pkts, start, canUdpGro, i, ledger) && i < |pkts| && offset <= |start[i].bytes|
    ensures StepReady(b, offset, canUdpGro, i)
  {
    hide Searchable, UdpSearchable, TcpCandidate, UdpCandidate, Balanced, Ready, KeyOf, UdpKeyOf, PktAt;
    BalancedPkt(b, offset, pkts, start, canUdpGro, i, ledger);
    assert |b.bufs| <= 0xFFFF by { BalancedShort(b, offset, pkts, start, canUdpGro, i, ledger); }
    forall isV6 | TcpCandidate(pkts[i], isV6)
      ensures Searchable(ItemsOf(b.tcp, KeyOf(pkts[i], isV6)), pkts[i], i, b.bufs, offset, isV6)
    {
      TcpReady(b, offset, pkts, start, canUdpGro, i, ledger, isV6);
      ReadySearchable(ItemsOf(b.tcp, KeyOf(pkts[i], isV6)), KeyOf(pkts[i], isV6), i, b.bufs, offset, pkts, ledger);
    }
    forall isV6 | UdpCandidate(pkts[i], isV6) ensures UdpSearchable(b.udp, pkts[i], i, b.bufs, offset, isV6) {
      UdpSearchableNow(b, offset, pkts, start, canUdpGro, i, ledger, isV6);
    }
  }

  lemma BalancedShort(b: Batch, offset: nat, pkts: seq<seq<byte>>, start: seq<Buf>, canUdpGro: bool, i: nat,
                      ledger: Ledger)
    requires Balanced(b, offset, pkts, start, canUdpGro, i, ledger)
    ensures |b.bufs| <= 0xFFFF
  {
    hide FlowBooked, UdpFlowBooked, OwnerKnown, Carried, WithinCapacity;
  }

  lemma ReadySearchable(items: seq<TcpItem>, key: TcpFlowKey, i: nat, bufs: seq<Buf>, offset: nat,
                        pkts: seq<seq<byte>>, ledger: Ledger)
    requires Ready(items, key, i, bufs, offset, pkts, ledger)
    ensures Searchable(items, pkts[i], i, bufs, offset, key.isV6)
  {}

  // ----- The roll -----

  lemma {:induction false} RollElsewhere(toWrite: seq<nat>, ledger: Ledger, ledger': Ledger)
    requires forall j :: j in toWrite ==>
              (j in ledger' <==> j in ledger)
              && (j in ledger ==> ledger'[j].members == ledger[j].members)
    ensures Roll(toWrite, ledger') == Roll(toWrite, ledger)
  {
    if toWrite != [] { RollElsewhere(toWrite[..|toWrite| - 1], ledger, ledger'); }
  }

  /** Entering frame i adds its position to the roll. */
  lemma RollEntered(toWrite: seq<nat>, ledger: Ledger, i: nat, owner: Owner)
    requires i !in toWrite
    ensures multiset(Roll(toWrite + [i], ledger[i := Entry(owner, [i])])) ==
            multiset(Roll(toWrite, ledger)) + multiset{i}
  {
    RollElsewhere(toWrite, ledger, ledger[i := Entry(owner, [i])]);
    assert (toWrite + [i])[..|toWrite|] == toWrite;
  }

  lemma RollLast(toWrite: seq<nat>, ledger: Ledger)
    requires toWrite != [] && toWrite[|toWrite| - 1] in ledger
    ensures var n := |toWrite| - 1;
            multiset(Roll(toWrite, ledger)) ==
            multiset(Roll(toWrite[..n], ledger)) + multiset(ledger[toWrite[n]].members)
  {}

  lemma MembersJoined(ledger: Ledger, ledger': Ledger, b: nat, i: nat)
    requires MembersKept(ledger, ledger', true, b, i)
    ensures b in ledger && ledger'.Keys == ledger.Keys
    ensures multiset(ledger'[b].members) == multiset(ledger[b].members) + multiset{i}
    ensures forall j :: j in ledger && j != b ==> ledger'[j].members == ledger[j].members
  {
    var ms := ledger[b].members;
    assert multiset(ms + [i]) == multiset(ms) + multiset{i} && multiset([i] + ms) == multiset(ms) + multiset{i};
  }

  /** Joining packet i to frame b adds its position to the roll. */
  lemma {:induction false} RollJoined(toWrite: seq<nat>, ledger: Ledger, ledger': Ledger, b: nat, i: nat)
    requires b in toWrite && (forall j, k :: 0 <= j < k < |toWrite| ==> toWrite[j] < toWrite[k])
    requires (forall j :: j in toWrite ==> j in ledger) && MembersKept(ledger, ledger', true, b, i)
    ensures multiset(Roll(toWrite, ledger')) == multiset(Roll(toWrite, ledger)) + multiset{i}
  {
    hide Roll, MembersKept;
    var n := |toWrite| - 1;
    MembersJoined(ledger, ledger', b, i);
    assert toWrite[n] in toWrite;
    RollLast(toWrite, ledger);
    RollLast(toWrite, ledger');
    if toWrite[n] == b {
      RollElsewhere(toWrite[..n], ledger, ledger');
    } else {
      assert b in toWrite[..n];
      RollJoined(toWrite[..n], ledger, ledger', b, i);
    }
  }

  lemma UptoNext(i: nat)
    ensures multiset(Upto(i + 1)) == multiset(Upto(i)) + multiset{i}
  {
    assert Upto(i + 1) == Upto(i) + [i];
  }

  // ----- Balance after entering a frame -----

  lemma NoArrival(pkts: seq<seq<byte>>, canUdpGro: bool, i: nat)
    requires i < |pkts| && NoDatagram(pkts[i], canUdpGro)
    ensures forall key :: Arrivals(pkts, canUdpGro, key, i + 1) == Arrivals(pkts, canUdpGro, key, i)
  {
    hide UdpCandidate;
  }

  lemma BalancedEnterable(b: Batch, offset: nat, pkts: seq<seq<byte>>, start: seq<Buf>, canUdpGro: bool, i: nat,
                          ledger: Ledger)
    requires Balanced(b, offset, pkts, start, canUdpGro, i, ledger) && i < |pkts| && offset <= |start[i].bytes|
    ensures Enterable(b, i, offset, pkts, ledger) && i !in b.toWrite
  {
    hide FlowBooked, UdpFlowBooked, OwnerKnown, PktAt, WithinCapacity, Roll, Carried;
    BalancedPkt(b, offset, pkts, start, canUdpGro, i, ledger);
  }

  lemma LooseKeepsBalance(b: Batch, offset: nat, pkts: seq<seq<byte>>, start: seq<Buf>, canUdpGro: bool, i: nat,
                          ledger: Ledger)
    requires Balanced(b, offset, pkts, start, canUdpGro, i, ledger) && i < |pkts| && offset <= |start[i].bytes|
    requires NoDatagram(pkts[i], canUdpGro)
    ensures Balanced(LeftAlone(b, offset, i), offset, pkts, start, canUdpGro, i + 1, ledger[i := Entry(Loose, [i])])
  {
    hide FlowBooked, UdpFlowBooked, OwnerKnown, WithinCapacity, Roll, Carried, UdpItemsOf, NoDatagram, Arrivals;
    BalancedEnterable(b, offset, pkts, start, canUdpGro, i, ledger);
    LooseKeepsCore(b, i, offset, pkts, ledger);
    HdrKeepsCaps(b.bufs, offset, i);
    hide Core, Caps;
    RollEntered(b.toWrite, ledger, i, Loose);
    UptoNext(i);
    NoArrival(pkts, canUdpGro, i);
  }

  lemma TcpEntryKeepsBalance(b: Batch, offset: nat, pkts: seq<seq<byte>>, start: seq<Buf>, canUdpGro: bool, i: nat,
                             ledger: Ledger, isV6: bool)
    requires Balanced(b, offset, pkts, start, canUdpGro, i, ledger) && i < |pkts| && offset <= |start[i].bytes|
    requires NoDatagram(pkts[i], canUdpGro) && TcpCandidate(pkts[i], isV6)
    ensures var key := KeyOf(pkts[i], isV6);
            Balanced(Batch(b.bufs, b.tcp[key := ItemsOf(b.tcp, key) + [NewItem(pkts[i], isV6, i)]], b.udp,
                           b.toWrite + [i]),
                     offset, pkts, start, canUdpGro, i + 1, ledger[i := Entry(TcpOwned(key), [i])])
  {
    hide FlowBooked, UdpFlowBooked, OwnerKnown, WithinCapacity, Roll, Carried, UdpItemsOf, NoDatagram, Arrivals,
      TcpCandidate, KeyOf, NewItem, PktAt;
    BalancedEnterable(b, offset, pkts, start, canUdpGro, i, ledger);
    TcpEntryKeepsCore(b, i, isV6, offset, pkts, ledger);
    hide Core;
    RollEntered(b.toWrite, ledger, i, TcpOwned(KeyOf(pkts[i], isV6)));
    UptoNext(i);
    NoArrival(pkts, canUdpGro, i);
  }

  lemma ArrivalOf(pkts: seq<seq<byte>>, key: UdpFlowKey, i: nat)
    requires i < |pkts| && UdpCandidate(pkts[i], key.isV6) && UdpKeyOf(pkts[i], key.isV6) == key
    ensures Arrivals(pkts, true, key, i + 1) == Arrivals(pkts, true, key, i) + [i]
    ensures forall k :: k != key ==> Arrivals(pkts, true, k, i + 1) == Arrivals(pkts, true, k, i)
  {
    forall k: UdpFlowKey | k != key ensures Arrivals(pkts, true, k, i + 1) == Arrivals(pkts, true, k, i) {
      if UdpCandidate(pkts[i], k.isV6) {
        assert k.isV6 == key.isV6;
      }
    }
  }

  /** When one flow carries packet i more, and no other flow differs, all flows carry what has arrived. */
  lemma CarriedFollows(udp: UdpFlows, udp': UdpFlows, key: UdpFlowKey, items': seq<UdpItem>, ledger: Ledger,
                       ledger': Ledger, pkts: seq<seq<byte>>, i: nat)
    requires i < |pkts| && UdpCandidate(pkts[i], key.isV6) && UdpKeyOf(pkts[i], key.isV6) == key
    requires udp' == udp[key := items']
    requires forall k :: Carried(UdpItemsOf(udp, k), ledger) == Arrivals(pkts, true, k, i)
    requires Carried(items', ledger') == Carried(UdpItemsOf(udp, key), ledger) + [i]
    requires forall k :: k != key ==> Carried(UdpItemsOf(udp, k), ledger') == Carried(UdpItemsOf(udp, k), ledger)
    ensures forall k :: Carried(UdpItemsOf(udp', k), ledger') == Arrivals(pkts, true, k, i + 1)
  {
    hide UdpCandidate, UdpKeyOf, Carried, Arrivals;
    ArrivalOf(pkts, key, i);
    forall k ensures Carried(UdpItemsOf(udp', k), ledger') == Arrivals(pkts, true, k, i + 1) {
      if k != key {
        assert UdpItemsOf(udp', k) == UdpItemsOf(udp, k);
      }
    }
  }

  lemma UdpEntryKeepsBalance(b: Batch, offset: nat, pkts: seq<seq<byte>>, start: seq<Buf>, i: nat, ledger: Ledger,
                             isV6: bool, known: bool)
    requires Balanced(b, offset, pkts, start, true, i, ledger) && i < |pkts| && offset <= |start[i].bytes|
    requires UdpCandidate(pkts[i], isV6)
    requires known ==> !ChecksumValid(pkts[i], IpLen(isV6), IPPROTO_UDP, isV6)
    ensures var key := UdpKeyOf(pkts[i], isV6);
            Balanced(Batch(b.bufs, b.tcp, b.udp[key := UdpItemsOf(b.udp, key) + [NewUdpItem(pkts[i], isV6, i, known)]],
                           b.toWrite + [i]),
                     offset, pkts, start, true, i + 1, ledger[i := Entry(UdpOwned(key), [i])])
  {
    hide FlowBooked, UdpFlowBooked, OwnerKnown, WithinCapacity, Roll, Carried, Arrivals, UdpCandidate, NewUdpItem,
      PktAt, ChecksumValid;
    var key := UdpKeyOf(pkts[i], isV6);
    assert key.isV6 == isV6;
    hide UdpKeyOf;
    BalancedEnterable(b, offset, pkts, start, true, i, ledger);
    UdpEntryKeepsCore(b, i, isV6, known, offset, pkts, ledger);
    hide Core;
    RollEntered(b.toWrite, ledger, i, UdpOwned(key));
    UptoNext(i);
    var items' := UdpItemsOf(b.udp, key) + [NewUdpItem(pkts[i], isV6, i, known)];
    CarriedFollows(b.udp, b.udp[key := items'], key, items', ledger, ledger[i := Entry(UdpOwned(key), [i])], pkts, i);
  }

  // ----- Balance after a search or a merge -----

  lemma SearchKeepsBalance(b: Batch, offset: nat, pkts: seq<seq<byte>>, start: seq<Buf>, canUdpGro: bool, i: nat,
                           ledger: Ledger, isV6: bool)
    returns (ledger': Ledger)
    requires Balanced(b, offset, pkts, start, canUdpGro, i, ledger) && i < |pkts| && offset <= |start[i].bytes|
    requires NoDatagram(pkts[i], canUdpGro) && TcpCandidate(pkts[i], isV6)
    ensures var key := KeyOf(pkts[i], isV6);
            var items := ItemsOf(b.tcp, key);
            && Searchable(items, pkts[i], i, b.bufs, offset, isV6)
            && var found := SearchFlow(items, |items|, pkts[i], i, b.bufs, offset, isV6);
            Balanced(Batch(found.bufs, b.tcp[key := found.items], b.udp, b.toWrite), offset, pkts, start, canUdpGro,
                     if found.ending == Merged then i + 1 else i, ledger')
  {
    hide FlowBooked, UdpFlowBooked, OwnerKnown, WithinCapacity, Roll, Carried, UdpItemsOf, ItemsOf, NoDatagram,
      Arrivals, TcpCandidate, KeyOf, SearchFlow;
    var key := KeyOf(pkts[i], isV6);
    var items := ItemsOf(b.tcp, key);
    TcpReady(b, offset, pkts, start, canUdpGro, i, ledger, isV6);
    var found, frame := SearchFlow(items, |items|, pkts[i], i, b.bufs, offset, isV6), 0;
    ledger', frame := SearchKeepsBook(items, |items|, key, i, b.bufs, offset, pkts, ledger);
    TcpWorkKeepsCore(b, key, found.items, i, found.bufs, offset, pkts, ledger, ledger');
    PacketsStay(TcpOwned(key), i, offset, pkts, b.bufs, found.bufs, ledger, ledger');
    BalancedEnterable(b, offset, pkts, start, canUdpGro, i, ledger);
    RollAfterSearch(b, offset, pkts, start, canUdpGro, i, ledger, ledger', found.ending == Merged, frame);
    TcpFlowOf(b, key, offset, pkts, ledger);
    DroppedIsTcp(items, key, i, b.bufs, found.bufs, offset, pkts, canUdpGro, ledger, ledger', found.ending == Merged,
                 frame);
    ConfinedCaps(TcpOwned(key), i, offset, pkts, b.bufs, found.bufs, ledger, ledger');
    hide Core, Settled, Confined;
    NoArrival(pkts, canUdpGro, i);
  }

  /** A frame that a search lets go of holds a TCP segment. */
  lemma DroppedIsTcp(items: seq<TcpItem>, key: TcpFlowKey, i: nat, bufs: seq<Buf>, bufs': seq<Buf>, offset: nat,
                     pkts: seq<seq<byte>>, canUdpGro: bool, ledger: Ledger, ledger': Ledger, merged: bool, frame: nat)
    requires offset >= VIRTIO_NET_HDR_LEN && FlowBooked(items, key, bufs, offset, pkts, ledger)
    requires LooseQuiet(pkts, canUdpGro, ledger)
    requires Confined(TcpOwned(key), i, offset, pkts, bufs, bufs', ledger, ledger')
    requires MembersKept(ledger, ledger', merged, frame, i)
    ensures LooseQuiet(pkts, canUdpGro, ledger')
  {
    hide Caps, WithinCapacity, TcpGroup, NoDatagram, PktAt, HdrAt, TcpCandidate;
    forall j | j in ledger' && ledger'[j].owner == Loose ensures j < |pkts| && NoDatagram(pkts[j], canUdpGro) {
      if ledger[j].owner == TcpOwned(key) {
        assert LooseOk(bufs', offset, pkts, ledger', j);
        var k :| 0 <= k < |items| && Indices(items)[k] == j;
        assert ItemBooked(items[k], key, bufs, offset, pkts, ledger);
        BookedIsTcp(items[k], key, bufs, offset, pkts, ledger);
        assert |ledger[j].members| > 0;
        assert ledger'[j].members == [j];
        assert ledger[j].members == [j] && ledger[j].members[0] == j;
        TcpIsNoDatagram(pkts[j], key.isV6, canUdpGro);
      } else {
        assert ledger[j] == ledger'[j];
      }
    }
  }

  /** The members of a booked TCP item are TCP segments. */
  lemma BookedIsTcp(item: TcpItem, key: TcpFlowKey, bufs: seq<Buf>, offset: nat, pkts: seq<seq<byte>>, ledger: Ledger)
    requires ItemBooked(item, key, bufs, offset, pkts, ledger)
    ensures var ms := ledger[item.bufsIndex].members;
            ms != [] && forall k :: 0 <= k < |ms| ==> ms[k] < |pkts| && TcpCandidate(pkts[ms[k]], key.isV6)
  {
    var ms := ledger[item.bufsIndex].members;
    hide ChecksumValid, HeadersFrom, SameStream, Contiguous, Even, TcpCandidate, TcpPayloads;
    assert |Pick(pkts, ms)| == |ms|;
    forall k | 0 <= k < |ms| ensures ms[k] < |pkts| && TcpCandidate(pkts[ms[k]], key.isV6) {
      assert ms[k] in ms;
      assert Pick(pkts, ms)[k] == pkts[ms[k]];
    }
  }

  lemma TcpIsNoDatagram(pkt: seq<byte>, isV6: bool, canUdpGro: bool)
    requires TcpCandidate(pkt, isV6)
    ensures NoDatagram(pkt, canUdpGro)
  {}

  lemma HdrKeepsCaps(bufs: seq<Buf>, offset: nat, j: nat)
    requires j < |bufs| && VIRTIO_NET_HDR_LEN <= offset <= |bufs[j].bytes|
    ensures Caps(WithHdr(bufs, offset, j, DEFAULT_HDR)) == Caps(bufs)
  {}

  lemma PacketsStay(owner: Owner, i: nat, offset: nat, pkts: seq<seq<byte>>, bufs: seq<Buf>, bufs': seq<Buf>,
                    ledger: Ledger, ledger': Ledger)
    requires offset >= VIRTIO_NET_HDR_LEN && Confined(owner, i, offset, pkts, bufs, bufs', ledger, ledger')
    requires forall j :: j in ledger ==> j < i
    ensures |bufs'| == |bufs|
    ensures forall j :: i < j < |bufs| ==> bufs'[j] == bufs[j]
  {
    hide Caps, WithinCapacity, LooseOk;
  }

  lemma ConfinedCaps(owner: Owner, i: nat, offset: nat, pkts: seq<seq<byte>>, bufs: seq<Buf>, bufs': seq<Buf>,
                     ledger: Ledger, ledger': Ledger)
    requires offset >= VIRTIO_NET_HDR_LEN && Confined(owner, i, offset, pkts, bufs, bufs', ledger, ledger')
    ensures multiset(Caps(bufs')) == multiset(Caps(bufs))
  {
    hide Caps, WithinCapacity, LooseOk;
  }

  lemma RollAfterSearch(b: Batch, offset: nat, pkts: seq<seq<byte>>, start: seq<Buf>, canUdpGro: bool, i: nat,
                        ledger: Ledger, ledger': Ledger, merged: bool, frame: nat)
    requires Balanced(b, offset, pkts, start, canUdpGro, i, ledger) && MembersKept(ledger, ledger', merged, frame, i)
    ensures multiset(Roll(b.toWrite, ledger')) == multiset(Upto(if merged then i + 1 else i))
  {
    hide FlowBooked, UdpFlowBooked, OwnerKnown, WithinCapacity, Carried, PktAt, Roll, Upto;
    if merged {
      RollJoined(b.toWrite, ledger, ledger', frame, i);
      UptoNext(i);
    } else {
      RollElsewhere(b.toWrite, ledger, ledger');
    }
  }

  /** The batch with pkt behind the last item of its flow, if there is one that can count it. */
  ghost function UdpMergedBatch(b: Batch, key: UdpFlowKey, pkt: seq<byte>): Batch
    requires UdpCandidate(pkt, key.isV6)
  {
    var items := UdpItemsOf(b.udp, key);
    if items == [] || items[|items| - 1].bufsIndex >= |b.bufs| || items[|items| - 1].numMerged == 0xFFFF then b
    else
      var last := items[|items| - 1];
      Batch(Appended(b.bufs, last.bufsIndex, UdpPayload(pkt, key.isV6)), b.tcp,
            b.udp[key := items[|items| - 1 := last.(numMerged := last.numMerged + 1)]], b.toWrite)
  }

  lemma UdpMergeKeepsBalance(b: Batch, key: UdpFlowKey, offset: nat, pkts: seq<seq<byte>>, start: seq<Buf>, i: nat,
                             ledger: Ledger)
    returns (ledger': Ledger)
    requires i < |pkts| && UdpCandidate(pkts[i], key.isV6) && key == UdpKeyOf(pkts[i], key.isV6)
    requires var items := UdpItemsOf(b.udp, key);
             items != [] && UdpReady(items[|items| - 1], pkts[i], i, b.bufs, offset, key.isV6)
             && MergesUdp(items, pkts[i], i, b.bufs, offset, key.isV6)
    requires Balanced(b, offset, pkts, start, true, i, ledger) && offset <= |start[i].bytes|
    ensures Balanced(UdpMergedBatch(b, key, pkts[i]), offset, pkts, start, true, i + 1, ledger')
  {
    hide FlowBooked, UdpFlowBooked, OwnerKnown, WithinCapacity, Roll, Carried, Arrivals, UdpCandidate, Appended,
      PktAt, UdpKeyOf, MergesUdp, LooseQuiet, MembersKept, Core, Confined, UdpAtHand, Caps;
    BalancedPkt(b, offset, pkts, start, true, i, ledger);
    UdpReadyNow(b, key, offset, pkts, start, true, i, ledger);
    var items := UdpItemsOf(b.udp, key);
    var last := items[|items| - 1];
    var frame := last.bufsIndex;
    UdpMergeStep(items, key, i, b.bufs, offset, pkts, ledger);
    ledger' := ledger[frame := Entry(UdpOwned(key), ledger[frame].members + [i])];
    var bufs' := Appended(b.bufs, frame, UdpPayload(pkts[i], key.isV6));
    var items' := items[|items| - 1 := last.(numMerged := last.numMerged + 1)];
    UdpWorkKeepsCore(b, key, items', i, bufs', offset, pkts, ledger, ledger');
    CarriedFollows(b.udp, b.udp[key := items'], key, items', ledger, ledger', pkts, i);
    OwnedGrows(ledger, frame, UdpOwned(key), i, pkts, true);
    WorkKeepsBalance(b, UdpMergedBatch(b, key, pkts[i]), UdpOwned(key), offset, pkts, start, true, i, ledger, ledger',
                     frame);
  }

  lemma OwnedGrows(ledger: Ledger, frame: nat, owner: Owner, i: nat, pkts: seq<seq<byte>>, canUdpGro: bool)
    requires frame in ledger && owner != Loose && LooseQuiet(pkts, canUdpGro, ledger)
    ensures var ledger' := ledger[frame := Entry(owner, ledger[frame].members + [i])];
            MembersKept(ledger, ledger', true, frame, i) && LooseQuiet(pkts, canUdpGro, ledger')
  {
    hide NoDatagram;
  }

  /** A merge confined to one owner's frames balances the book at the next position. */
  lemma WorkKeepsBalance(b: Batch, b': Batch, owner: Owner, offset: nat, pkts: seq<seq<byte>>, start: seq<Buf>,
                         canUdpGro: bool, i: nat, ledger: Ledger, ledger': Ledger, frame: nat)
    requires Balanced(b, offset, pkts, start, canUdpGro, i, ledger) && i < |pkts| && offset <= |start[i].bytes|
    requires Core(b', offset, pkts, ledger') && b'.toWrite == b.toWrite
    requires Confined(owner, i, offset, pkts, b.bufs, b'.bufs, ledger, ledger')
    requires MembersKept(ledger, ledger', true, frame, i)
    requires forall key :: Carried(UdpItemsOf(b'.udp, key), ledger') == Arrivals(pkts, canUdpGro, key, i + 1)
    requires LooseQuiet(pkts, canUdpGro, ledger')
    ensures Balanced(b', offset, pkts, start, canUdpGro, i + 1, ledger')
  {
    hide FlowBooked, UdpFlowBooked, OwnerKnown, WithinCapacity, Roll, Upto, Carried, UdpItemsOf, Arrivals, Confined;
    PacketsStay(owner, i, offset, pkts, b.bufs, b'.bufs, ledger, ledger');
    ConfinedCaps(owner, i, offset, pkts, b.bufs, b'.bufs, ledger, ledger');
    RollAfterSearch(b, offset, pkts, start, canUdpGro, i, ledger, ledger', true, frame);
  }

  // ----- Every step, and every run -----

  lemma TcpStepKeepsBalance(b: Batch, offset: nat, pkts: seq<seq<byte>>, start: seq<Buf>, canUdpGro: bool, i: nat,
                            ledger: Ledger, isV6: bool)
    returns (ledger': Ledger)
    requires Balanced(b, offset, pkts, start, canUdpGro, i, ledger) && i < |pkts| && offset <= |start[i].bytes|
    requires StepReady(b, offset, canUdpGro, i)
    requires Classify(pkts[i], canUdpGro) == if isV6 then Tcp6 else Tcp4
    ensures Balanced(AfterTcp(b, offset, canUdpGro, i, isV6), offset, pkts, start, canUdpGro, i + 1, ledger')
  {
    hide Core, Balanced, KeyOf, NewItem, SearchFlow, Searchable, Carried, ChecksumValid;
    assert pkts[i] == PktAt(b.bufs, offset, i) by { BalancedPkt(b, offset, pkts, start, canUdpGro, i, ledger); }
    assert NoDatagram(pkts[i], canUdpGro);
    hide NoDatagram;
    if !TcpCandidate(pkts[i], isV6) {
      LooseKeepsBalance(b, offset, pkts, start, canUdpGro, i, ledger);
      ledger' := ledger[i := Entry(Loose, [i])];
    } else {
      hide TcpCandidate;
      var key := KeyOf(pkts[i], isV6);
      var items := ItemsOf(b.tcp, key);
      var ledger1 := SearchKeepsBalance(b, offset, pkts, start, canUdpGro, i, ledger, isV6);
      var found := SearchFlow(items, |items|, pkts[i], i, b.bufs, offset, isV6);
      var b1 := Batch(found.bufs, b.tcp[key := found.items], b.udp, b.toWrite);
      match found.ending {
        case Merged => ledger' := ledger1;
        case Refused =>
          LooseKeepsBalance(b1, offset, pkts, start, canUdpGro, i, ledger1);
          ledger' := ledger1[i := Entry(Loose, [i])];
        case Missed =>
          TcpEntryKeepsBalance(b1, offset, pkts, start, canUdpGro, i, ledger1, isV6);
          ledger' := ledger1[i := Entry(TcpOwned(key), [i])];
          assert b1.tcp[key := found.items + [NewItem(pkts[i], isV6, i)]] ==
             b.tcp[key := found.items + [NewItem(pkts[i], isV6, i)]];
      }
    }
  }

  lemma FoundInvalidMeans(items: seq<UdpItem>, pkt: seq<byte>, i: nat, bufs: seq<Buf>, offset: nat, isV6: bool)
    requires UdpCandidate(pkt, isV6)
    requires items != [] ==> UdpReady(items[|items| - 1], pkt, i, bufs, offset, isV6)
    ensures FoundInvalid(items, pkt, i, bufs, offset, isV6) ==> !ChecksumValid(pkt, IpLen(isV6), IPPROTO_UDP, isV6)
  {
    hide ChecksumValid, UdpPacketsCanCoalesce, UdpCandidate;
  }

  /** The batch after udp_gro has looked at a packet. */
  ghost function UdpNoted(b: Batch, offset: nat, i: nat, isV6: bool): Batch
    requires StepReady(b, offset, true, i)
  {
    var step := StepUdp(b.udp, i, b.bufs, offset, isV6);
    Noted(step.result, Batch(step.bufs, b.tcp, step.flows, b.toWrite), offset, i)
  }

  lemma DatagramMerged(b: Batch, offset: nat, pkt: seq<byte>, i: nat, isV6: bool)
    requires StepReady(b, offset, true, i) && pkt == PktAt(b.bufs, offset, i) && UdpCandidate(pkt, isV6)
    requires var items := UdpItemsOf(b.udp, UdpKeyOf(pkt, isV6));
             && (items != [] ==> UdpReady(items[|items| - 1], pkt, i, b.bufs, offset, isV6))
             && MergesUdp(items, pkt, i, b.bufs, offset, isV6)
    ensures var items := UdpItemsOf(b.udp, UdpKeyOf(pkt, isV6));
            items != [] && items[|items| - 1].bufsIndex < |b.bufs| && items[|items| - 1].numMerged < 0xFFFF
    ensures UdpKeyOf(pkt, isV6).isV6 == isV6
    ensures UdpNoted(b, offset, i, isV6) == UdpMergedBatch(b, UdpKeyOf(pkt, isV6), pkt)
  {
    hide UdpCandidate, UdpPacketsCanCoalesce, UdpVerdict, ChecksumValid, Searchable;
  }

  lemma DatagramStored(b: Batch, offset: nat, pkt: seq<byte>, i: nat, isV6: bool)
    requires StepReady(b, offset, true, i) && pkt == PktAt(b.bufs, offset, i) && UdpCandidate(pkt, isV6)
    requires var items := UdpItemsOf(b.udp, UdpKeyOf(pkt, isV6));
             && (items != [] ==> UdpReady(items[|items| - 1], pkt, i, b.bufs, offset, isV6))
             && !MergesUdp(items, pkt, i, b.bufs, offset, isV6)
    ensures var key := UdpKeyOf(pkt, isV6);
            var items := UdpItemsOf(b.udp, key);
            var known := FoundInvalid(items, pkt, i, b.bufs, offset, isV6);
            UdpNoted(b, offset, i, isV6) ==
            Batch(b.bufs, b.tcp, b.udp[key := items + [NewUdpItem(pkt, isV6, i, known)]], b.toWrite + [i])
  {
    hide UdpCandidate, MergesUdp, FoundInvalid, UdpKeyOf, Searchable, NewUdpItem;
  }

  /** What udp_gro does with a candidate keeps the book balanced. */
  lemma DatagramKeepsBalance(b: Batch, offset: nat, pkts: seq<seq<byte>>, start: seq<Buf>, i: nat, ledger: Ledger,
                             isV6: bool)
    returns (ledger': Ledger)
    requires Balanced(b, offset, pkts, start, true, i, ledger) && i < |pkts| && offset <= |start[i].bytes|
    requires StepReady(b, offset, true, i) && pkts[i] == PktAt(b.bufs, offset, i) && UdpCandidate(pkts[i], isV6)
    ensures Balanced(UdpNoted(b, offset, i, isV6), offset, pkts, start, true, i + 1, ledger')
  {
    var key := UdpKeyOf(pkts[i], isV6);
    hide *;
    UdpKeyVersion(pkts[i], isV6);
    var items := UdpItemsOf(b.udp, key);
    if items != [] { UdpLastReady(b, key, offset, pkts, start, true, i, ledger); }
    if MergesUdp(items, pkts[i], i, b.bufs, offset, isV6) {
      DatagramMerged(b, offset, pkts[i], i, isV6);
      ledger' := UdpMergeKeepsBalance(b, key, offset, pkts, start, i, ledger);
    } else {
      DatagramStored(b, offset, pkts[i], i, isV6);
      FoundInvalidMeans(items, pkts[i], i, b.bufs, offset, isV6);
      UdpEntryKeepsBalance(b, offset, pkts, start, i, ledger, isV6,
                           FoundInvalid(items, pkts[i], i, b.bufs, offset, isV6));
      ledger' := ledger[i := Entry(UdpOwned(key), [i])];
    }
  }

  lemma UdpKeyVersion(pkt: seq<byte>, isV6: bool)
    requires UdpCandidate(pkt, isV6)
    ensures UdpKeyOf(pkt, isV6).isV6 == isV6
  {}

  lemma UdpStepKeepsBalance(b: Batch, offset: nat, pkts: seq<seq<byte>>, start: seq<Buf>, i: nat, ledger: Ledger,
                            isV6: bool)
    returns (ledger': Ledger)
    requires Balanced(b, offset, pkts, start, true, i, ledger) && i < |pkts| && offset <= |start[i].bytes|
    requires StepReady(b, offset, true, i) && Classify(pkts[i], true) == if isV6 then Udp6 else Udp4
    ensures Balanced(AfterUdp(b, offset, true, i, isV6), offset, pkts, start, true, i + 1, ledger')
  {
    assert pkts[i] == PktAt(b.bufs, offset, i) by { BalancedPkt(b, offset, pkts, start, true, i, ledger); }
    hide Core, Balanced, MergesUdp, FoundInvalid, WithHdr, Appended;
    if !UdpCandidate(pkts[i], isV6) {
      assert NoDatagram(pkts[i], true);
      LooseKeepsBalance(b, offset, pkts, start, true, i, ledger);
      ledger' := ledger[i := Entry(Loose, [i])];
    } else {
      hide UdpCandidate, StepUdp, StepReady;
      ledger' := DatagramKeepsBalance(b, offset, pkts, start, i, ledger, isV6);
    }
  }

  /** Every step of the loop keeps the book balanced. */
  lemma StepKeepsBalance(b: Batch, offset: nat, pkts: seq<seq<byte>>, start: seq<Buf>, canUdpGro: bool, i: nat,
                         ledger: Ledger) returns (ledger': Ledger)
    requires Balanced(b, offset, pkts, start, canUdpGro, i, ledger) && i < |pkts| && offset <= |start[i].bytes|
    ensures StepReady(b, offset, canUdpGro, i)
    ensures Balanced(GroStep(b, offset, canUdpGro, i), offset, pkts, start, canUdpGro, i + 1, ledger')
  {
    BalancedIsReady(b, offset, pkts, start, canUdpGro, i, ledger);
    BalancedPkt(b, offset, pkts, start, canUdpGro, i, ledger);
    hide Balanced, AfterTcp, AfterUdp, StepReady, LeftAlone, TcpCandidate;
    match Classify(pkts[i], canUdpGro) {
      case Tcp4 => ledger' := TcpStepKeepsBalance(b, offset, pkts, start, canUdpGro, i, ledger, false);
      case Tcp6 => ledger' := TcpStepKeepsBalance(b, offset, pkts, start, canUdpGro, i, ledger, true);
      case Udp4 => ledger' := UdpStepKeepsBalance(b, offset, pkts, start, i, ledger, false);
      case Udp6 => ledger' := UdpStepKeepsBalance(b, offset, pkts, start, i, ledger, true);
      case NotGro =>
        assert NoDatagram(pkts[i], canUdpGro);
        LooseKeepsBalance(b, offset, pkts, start, canUdpGro, i, ledger);
        ledger' := ledger[i := Entry(Loose, [i])];
    }
  }

  // ----- Runs -----

  /** What handle_gro checks of each packet it looks at. */
  predicate OffsetOk(start: seq<Buf>, offset: nat, j: nat)
    requires j < |start|
  {
    VIRTIO_NET_HDR_LEN <= offset < |start[j].bytes|
  }

  /** The first n packets of a batch can be looked at. */
  ghost predicate Startable(start: seq<Buf>, offset: nat, n: nat) {
    n <= |start| <= 0xFFFF && offset >= VIRTIO_NET_HDR_LEN && WithinCapacity(start)
    && forall j :: 0 <= j < n ==> OffsetOk(start, offset, j)
  }

  ghost predicate SomeLedger(b: Batch, offset: nat, start: seq<Buf>, canUdpGro: bool, n: nat) {
    exists ledger :: Balanced(b, offset, Packets(start, offset), start, canUdpGro, n, ledger)
  }

  /** Nothing has been looked at yet: empty tables, nothing to write. */
  lemma StartIsBalanced(start: seq<Buf>, offset: nat, canUdpGro: bool)
    requires Startable(start, offset, 0)
    ensures Balanced(Batch(start, map[], map[], []), offset, Packets(start, offset), start, canUdpGro, 0, map[])
  {
    hide FlowBooked, UdpFlowBooked, OwnerKnown;
    assert Upto(0) == [];
  }

  lemma NextIsBalanced(b: Batch, start: seq<Buf>, offset: nat, canUdpGro: bool, i: nat)
    requires i < |start| && SomeLedger(b, offset, start, canUdpGro, i) && OffsetOk(start, offset, i)
    ensures StepReady(b, offset, canUdpGro, i)
    ensures SomeLedger(GroStep(b, offset, canUdpGro, i), offset, start, canUdpGro, i + 1)
  {
    hide Balanced, StepReady, GroStep, Packets;
    var pkts := Packets(start, offset);
    var ledger :| Balanced(b, offset, pkts, start, canUdpGro, i, ledger);
    var ledger' := StepKeepsBalance(b, offset, pkts, start, canUdpGro, i, ledger);
  }

  /** The batch after the first n packets. */
  ghost function Run(start: seq<Buf>, offset: nat, canUdpGro: bool, n: nat): (b: Batch)
    requires Startable(start, offset, n)
    ensures SomeLedger(b, offset, start, canUdpGro, n)
  {
    hide Balanced, StepReady, GroStep, SomeLedger;
    if n == 0 then
      StartIsBalanced(start, offset, canUdpGro);
      StartHasLedger(start, offset, canUdpGro);
      Batch(start, map[], map[], [])
    else
      var b := Run(start, offset, canUdpGro, n - 1);
      NextIsBalanced(b, start, offset, canUdpGro, n - 1);
      GroStep(b, offset, canUdpGro, n - 1)
  }

  lemma StartHasLedger(start: seq<Buf>, offset: nat, canUdpGro: bool)
    requires Startable(start, offset, 0)
    ensures SomeLedger(Batch(start, map[], map[], []), offset, start, canUdpGro, 0)
  {
    hide Balanced;
    StartIsBalanced(start, offset, canUdpGro);
  }
}
