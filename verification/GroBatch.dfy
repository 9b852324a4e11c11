/** The loop of handle_gro over a batch, and the book it keeps balanced. */
module GroBatch {
  import opened Bytes
  import opened Packet
  import opened Buffers
  import opened Tcp
  import opened Udp
  import opened TcpItem
  import opened Ledger
  import opened TcpTable
  import opened TcpBook
  import opened UdpTable
  import opened UdpBook

  /** The state of a batch: buffers, both tables, and the frames to write. */
  datatype Batch = Batch(bufs: seq<Buf>, tcp: TcpFlows, udp: UdpFlows, toWrite: seq<nat>)

  // ----- The book -----

  /** Flows and frames agree: every frame to write is booked once, with its flow if it has an owner. */
  ghost predicate Core(b: Batch, offset: nat, pkts: seq<seq<byte>>, ledger: Ledger) {
    && offset >= VIRTIO_NET_HDR_LEN && |b.bufs| == |pkts| <= 0xFFFF && WithinCapacity(b.bufs)
    && (forall j :: j in ledger <==> j in b.toWrite)
    && (forall j, k :: 0 <= j < k < |b.toWrite| ==> b.toWrite[j] < b.toWrite[k])
    && (forall key :: key in b.tcp ==> FlowBooked(b.tcp[key], key, b.bufs, offset, pkts, ledger))
    && (forall key :: key in b.udp ==> b.udp[key] != [] && UdpFlowBooked(b.udp[key], key, b.bufs, offset, pkts, ledger))
    && (forall j :: j in ledger ==> OwnerKnown(b, offset, pkts, ledger, j))
  }

  ghost predicate OwnerKnown(b: Batch, offset: nat, pkts: seq<seq<byte>>, ledger: Ledger, j: nat)
    requires j in ledger && offset >= VIRTIO_NET_HDR_LEN
  {
    match ledger[j].owner
    case Loose => LooseOk(b.bufs, offset, pkts, ledger, j)
    case TcpOwned(key) => key in b.tcp
    case UdpOwned(key) => key in b.udp
  }

  /** The positions carried by the frames, in the order of writing. */
  ghost function Roll(toWrite: seq<nat>, ledger: Ledger): seq<nat> {
    if toWrite == [] then []
    else
      var j := toWrite[|toWrite| - 1];
      Roll(toWrite[..|toWrite| - 1], ledger) + (if j in ledger then ledger[j].members else [])
  }

  ghost function Upto(n: nat): (r: seq<nat>)
    ensures |r| == n && forall k :: 0 <= k < n ==> r[k] == k
  {
    seq(n, k => k)
  }

  /** The packets of a batch; a buffer that ends before offset has none. */
  function Packets(start: seq<Buf>, offset: nat): (r: seq<seq<byte>>)
    ensures |r| == |start|
  {
    seq(|start|, j requires 0 <= j < |start| => if offset <= |start[j].bytes| then start[j].bytes[offset..] else [])
  }

  /** Not a datagram that reaches the table. */
  predicate NoDatagram(pkt: seq<byte>, canUdpGro: bool) {
    canUdpGro ==> !UdpCandidate(pkt, false) && !UdpCandidate(pkt, true)
  }

  /** No frame without an owner holds a datagram that has reached the table. */
  ghost predicate LooseQuiet(pkts: seq<seq<byte>>, canUdpGro: bool, ledger: Ledger) {
    forall j :: j in ledger && ledger[j].owner == Loose ==> j < |pkts| && NoDatagram(pkts[j], canUdpGro)
  }

  /**
   After n packets of a batch: the rest are still where they were, the frames to write carry each of the first
   n positions exactly once, each UDP flow carries its datagrams in order of arrival, and the capacities
   have at most changed places.
   */
  ghost predicate Balanced(b: Batch, offset: nat, pkts: seq<seq<byte>>, start: seq<Buf>, canUdpGro: bool, n: nat,
                           ledger: Ledger) {
    && Core(b, offset, pkts, ledger) && pkts == Packets(start, offset) && n <= |pkts|
    && (forall j :: n <= j < |start| ==> b.bufs[j] == start[j])
    && (forall j :: j in b.toWrite ==> j < n)
    && multiset(Roll(b.toWrite, ledger)) == multiset(Upto(n))
    && (forall key :: Carried(UdpItemsOf(b.udp, key), ledger) == Arrivals(pkts, canUdpGro, key, n))
    && LooseQuiet(pkts, canUdpGro, ledger)
    && multiset(Caps(b.bufs)) == multiset(Caps(start))
  }

  // ----- Flows a step does not touch -----

  /** The frames of one owner, and their entries, are the same before and after. */
  ghost predicate Undisturbed(owner: Owner, bufs: seq<Buf>, bufs': seq<Buf>, ledger: Ledger, ledger': Ledger) {
    && |bufs'| == |bufs|
    && (forall b :: b in ledger && ledger[b].owner == owner ==>
          b in ledger' && ledger'[b] == ledger[b] && (b < |bufs| ==> bufs'[b] == bufs[b]))
    && (forall b :: b in ledger' && ledger'[b].owner == owner ==> b in ledger && ledger[b].owner == owner)
  }

  lemma TcpFlowUndisturbed(items: seq<TcpItem>, key: TcpFlowKey, offset: nat, pkts: seq<seq<byte>>,
                           bufs: seq<Buf>, bufs': seq<Buf>, ledger: Ledger, ledger': Ledger)
    requires FlowBooked(items, key, bufs, offset, pkts, ledger)
    requires Undisturbed(TcpOwned(key), bufs, bufs', ledger, ledger')
    ensures FlowBooked(items, key, bufs', offset, pkts, ledger')
  {
    hide TcpGroup, PktAt;
    forall k | 0 <= k < |items| ensures ItemBooked(items[k], key, bufs', offset, pkts, ledger') {
      ItemStaysBooked(items[k], key, offset, pkts, bufs, bufs', ledger, ledger');
    }
  }

  lemma UdpFlowUndisturbed(items: seq<UdpItem>, key: UdpFlowKey, offset: nat, pkts: seq<seq<byte>>,
                           bufs: seq<Buf>, bufs': seq<Buf>, ledger: Ledger, ledger': Ledger)
    requires UdpFlowBooked(items, key, bufs, offset, pkts, ledger)
    requires Undisturbed(UdpOwned(key), bufs, bufs', ledger, ledger')
    ensures UdpFlowBooked(items, key, bufs', offset, pkts, ledger')
    ensures Carried(items, ledger') == Carried(items, ledger)
  {
    hide UdpGroup, PktAt;
    forall k | 0 <= k < |items| ensures UdpItemBooked(items[k], key, bufs', offset, pkts, ledger') {
      UdpItemStaysBooked(items[k], key, offset, pkts, bufs, bufs', ledger, ledger');
    }
    CarriedElsewhere(items, ledger, ledger');
  }

  lemma ConfinedLeavesOthers(owner: Owner, other: Owner, i: nat, offset: nat, pkts: seq<seq<byte>>,
                             bufs: seq<Buf>, bufs': seq<Buf>, ledger: Ledger, ledger': Ledger)
    requires offset >= VIRTIO_NET_HDR_LEN && Confined(owner, i, offset, pkts, bufs, bufs', ledger, ledger')
    requires other != owner && other != Loose
    ensures Undisturbed(other, bufs, bufs', ledger, ledger')
  {
    hide Caps, WithinCapacity, LooseOk;
    forall b | b in ledger' && ledger'[b].owner == other ensures b in ledger && ledger[b].owner == other {
      assert b in ledger;
    }
  }

  lemma ConfinedShape(owner: Owner, i: nat, offset: nat, pkts: seq<seq<byte>>,
                      bufs: seq<Buf>, bufs': seq<Buf>, ledger: Ledger, ledger': Ledger)
    requires offset >= VIRTIO_NET_HDR_LEN && Confined(owner, i, offset, pkts, bufs, bufs', ledger, ledger')
    requires WithinCapacity(bufs)
    ensures |bufs'| == |bufs| && ledger'.Keys == ledger.Keys && WithinCapacity(bufs')
  {}

  lemma OtherTcpFlows(b: Batch, owner: Owner, i: nat, bufs': seq<Buf>, offset: nat, pkts: seq<seq<byte>>,
                      ledger: Ledger, ledger': Ledger)
    requires Core(b, offset, pkts, ledger) && Confined(owner, i, offset, pkts, b.bufs, bufs', ledger, ledger')
    ensures forall k :: k in b.tcp && TcpOwned(k) != owner ==> FlowBooked(b.tcp[k], k, bufs', offset, pkts, ledger')
  {
    hide OwnerKnown, UdpFlowBooked, FlowBooked, Confined, Undisturbed, WithinCapacity;
    forall k | k in b.tcp && TcpOwned(k) != owner ensures FlowBooked(b.tcp[k], k, bufs', offset, pkts, ledger') {
      ConfinedLeavesOthers(owner, TcpOwned(k), i, offset, pkts, b.bufs, bufs', ledger, ledger');
      TcpFlowUndisturbed(b.tcp[k], k, offset, pkts, b.bufs, bufs', ledger, ledger');
    }
  }

  lemma OtherUdpFlows(b: Batch, owner: Owner, i: nat, bufs': seq<Buf>, offset: nat, pkts: seq<seq<byte>>,
                      ledger: Ledger, ledger': Ledger)
    requires Core(b, offset, pkts, ledger) && Confined(owner, i, offset, pkts, b.bufs, bufs', ledger, ledger')
    ensures forall k :: k in b.udp && UdpOwned(k) != owner ==> UdpFlowBooked(b.udp[k], k, bufs', offset, pkts, ledger')
    ensures forall k :: UdpOwned(k) != owner ==>
              Carried(UdpItemsOf(b.udp, k), ledger') == Carried(UdpItemsOf(b.udp, k), ledger)
  {
    hide OwnerKnown, UdpFlowBooked, FlowBooked, Confined, Undisturbed, WithinCapacity;
    forall k | k in b.udp && UdpOwned(k) != owner
      ensures UdpFlowBooked(b.udp[k], k, bufs', offset, pkts, ledger')
      ensures Carried(b.udp[k], ledger') == Carried(b.udp[k], ledger)
    {
      ConfinedLeavesOthers(owner, UdpOwned(k), i, offset, pkts, b.bufs, bufs', ledger, ledger');
      UdpFlowUndisturbed(b.udp[k], k, offset, pkts, b.bufs, bufs', ledger, ledger');
    }
  }

  // ----- Core is kept by work confined to one flow -----

  lemma TcpWorkKeepsCore(b: Batch, key: TcpFlowKey, items': seq<TcpItem>, i: nat, bufs': seq<Buf>, offset: nat,
                         pkts: seq<seq<byte>>, ledger: Ledger, ledger': Ledger)
    requires Core(b, offset, pkts, ledger) && Confined(TcpOwned(key), i, offset, pkts, b.bufs, bufs', ledger, ledger')
    requires FlowBooked(items', key, bufs', offset, pkts, ledger')
    ensures Core(Batch(bufs', b.tcp[key := items'], b.udp, b.toWrite), offset, pkts, ledger')
    ensures forall k :: Carried(UdpItemsOf(b.udp, k), ledger') == Carried(UdpItemsOf(b.udp, k), ledger)
  {
    hide OwnerKnown, UdpFlowBooked, FlowBooked, WithinCapacity, UdpItemsOf, Confined;
    ConfinedShape(TcpOwned(key), i, offset, pkts, b.bufs, bufs', ledger, ledger');
    OwnersAfterWork(b, Batch(bufs', b.tcp[key := items'], b.udp, b.toWrite), TcpOwned(key), i, offset, pkts, ledger,
                    ledger');
    OtherTcpFlows(b, TcpOwned(key), i, bufs', offset, pkts, ledger, ledger');
    OtherUdpFlows(b, TcpOwned(key), i, bufs', offset, pkts, ledger, ledger');
  }

  lemma UdpWorkKeepsCore(b: Batch, key: UdpFlowKey, items': seq<UdpItem>, i: nat, bufs': seq<Buf>, offset: nat,
                         pkts: seq<seq<byte>>, ledger: Ledger, ledger': Ledger)
    requires Core(b, offset, pkts, ledger) && Confined(UdpOwned(key), i, offset, pkts, b.bufs, bufs', ledger, ledger')
    requires items' != [] && UdpFlowBooked(items', key, bufs', offset, pkts, ledger')
    ensures Core(Batch(bufs', b.tcp, b.udp[key := items'], b.toWrite), offset, pkts, ledger')
    ensures forall k :: k != key ==> Carried(UdpItemsOf(b.udp, k), ledger') == Carried(UdpItemsOf(b.udp, k), ledger)
  {
    hide OwnerKnown, UdpFlowBooked, FlowBooked, WithinCapacity, UdpItemsOf, Confined;
    ConfinedShape(UdpOwned(key), i, offset, pkts, b.bufs, bufs', ledger, ledger');
    OwnersAfterWork(b, Batch(bufs', b.tcp, b.udp[key := items'], b.toWrite), UdpOwned(key), i, offset, pkts, ledger,
                    ledger');
    OtherTcpFlows(b, UdpOwned(key), i, bufs', offset, pkts, ledger, ledger');
    OtherUdpFlows(b, UdpOwned(key), i, bufs', offset, pkts, ledger, ledger');
  }

  lemma OwnersAfterWork(b: Batch, b': Batch, owner: Owner, i: nat, offset: nat, pkts: seq<seq<byte>>, ledger: Ledger,
                        ledger': Ledger)
    requires Core(b, offset, pkts, ledger) && Confined(owner, i, offset, pkts, b.bufs, b'.bufs, ledger, ledger')
    requires b.tcp.Keys <= b'.tcp.Keys && b.udp.Keys <= b'.udp.Keys
    requires owner.TcpOwned? || owner.UdpOwned?
    ensures forall j :: j in ledger' ==> OwnerKnown(b', offset, pkts, ledger', j)
  {
    hide FlowBooked, UdpFlowBooked, Caps, WithinCapacity;
    forall j | j in ledger' ensures OwnerKnown(b', offset, pkts, ledger', j) {
      assert j in ledger && OwnerKnown(b, offset, pkts, ledger, j);
    }
  }

  // ----- Core is kept by booking a new frame -----

  /** Every flow is booked, also one the table does not have yet. */
  lemma TcpFlowOf(b: Batch, key: TcpFlowKey, offset: nat, pkts: seq<seq<byte>>, ledger: Ledger)
    requires Core(b, offset, pkts, ledger)
    ensures FlowBooked(ItemsOf(b.tcp, key), key, b.bufs, offset, pkts, ledger)
  {
    hide ItemBooked, UdpFlowBooked, WithinCapacity;
    if key !in b.tcp {
      forall j | j in ledger ensures ledger[j].owner != TcpOwned(key) { assert OwnerKnown(b, offset, pkts, ledger, j); }
    }
  }

  lemma UdpFlowOf(b: Batch, key: UdpFlowKey, offset: nat, pkts: seq<seq<byte>>, ledger: Ledger)
    requires Core(b, offset, pkts, ledger)
    ensures UdpFlowBooked(UdpItemsOf(b.udp, key), key, b.bufs, offset, pkts, ledger)
  {
    hide UdpItemBooked, FlowBooked, WithinCapacity;
    if key !in b.udp {
      forall j | j in ledger ensures ledger[j].owner != UdpOwned(key) { assert OwnerKnown(b, offset, pkts, ledger, j); }
    }
  }

  /** Frame i can be entered: it holds its original packet and lies behind all frames so far. */
  ghost predicate Enterable(b: Batch, i: nat, offset: nat, pkts: seq<seq<byte>>, ledger: Ledger) {
    && Core(b, offset, pkts, ledger) && i < |pkts| && i !in ledger
    && offset <= |b.bufs[i].bytes| && PktAt(b.bufs, offset, i) == pkts[i]
    && forall j :: j in b.toWrite ==> j < i
  }

  /** Only buffer i, if any, differs, and its packet and room do not. */
  ghost predicate OnlyHdr(i: nat, bufs: seq<Buf>, bufs': seq<Buf>, offset: nat) {
    && i < |bufs| == |bufs'| && (forall j :: 0 <= j < |bufs| && j != i ==> bufs'[j] == bufs[j])
    && |bufs'[i].bytes| == |bufs[i].bytes| && bufs'[i].cap == bufs[i].cap
  }

  lemma EntryLeavesOthers(b: Batch, other: Owner, i: nat, bufs': seq<Buf>, offset: nat, pkts: seq<seq<byte>>,
                          ledger: Ledger, entry: Entry)
    requires Enterable(b, i, offset, pkts, ledger) && OnlyHdr(i, b.bufs, bufs', offset) && other != entry.owner
    ensures Undisturbed(other, b.bufs, bufs', ledger, ledger[i := entry])
  {
    hide FlowBooked, UdpFlowBooked, OwnerKnown, WithinCapacity, PktAt;
  }

  lemma FlowsBesideEntry(b: Batch, i: nat, bufs': seq<Buf>, offset: nat, pkts: seq<seq<byte>>, ledger: Ledger,
                         entry: Entry)
    requires Enterable(b, i, offset, pkts, ledger) && OnlyHdr(i, b.bufs, bufs', offset)
    ensures forall k :: k in b.tcp && TcpOwned(k) != entry.owner ==>
              FlowBooked(b.tcp[k], k, bufs', offset, pkts, ledger[i := entry])
    ensures forall k :: k in b.udp && UdpOwned(k) != entry.owner ==>
              UdpFlowBooked(b.udp[k], k, bufs', offset, pkts, ledger[i := entry])
    ensures forall k :: UdpOwned(k) != entry.owner ==>
              Carried(UdpItemsOf(b.udp, k), ledger[i := entry]) == Carried(UdpItemsOf(b.udp, k), ledger)
  {
    hide FlowBooked, UdpFlowBooked, OwnerKnown, WithinCapacity, PktAt, Undisturbed, OnlyHdr;
    forall k | k in b.tcp && TcpOwned(k) != entry.owner
      ensures FlowBooked(b.tcp[k], k, bufs', offset, pkts, ledger[i := entry])
    {
      EntryLeavesOthers(b, TcpOwned(k), i, bufs', offset, pkts, ledger, entry);
      TcpFlowUndisturbed(b.tcp[k], k, offset, pkts, b.bufs, bufs', ledger, ledger[i := entry]);
    }
    forall k | k in b.udp && UdpOwned(k) != entry.owner
      ensures UdpFlowBooked(b.udp[k], k, bufs', offset, pkts, ledger[i := entry])
              && Carried(b.udp[k], ledger[i := entry]) == Carried(b.udp[k], ledger)
    {
      EntryLeavesOthers(b, UdpOwned(k), i, bufs', offset, pkts, ledger, entry);
      UdpFlowUndisturbed(b.udp[k], k, offset, pkts, b.bufs, bufs', ledger, ledger[i := entry]);
    }
  }

  lemma OwnersBesideEntry(b: Batch, b': Batch, i: nat, offset: nat, pkts: seq<seq<byte>>,
                          ledger: Ledger, ledger': Ledger)
    requires Enterable(b, i, offset, pkts, ledger) && OnlyHdr(i, b.bufs, b'.bufs, offset)
    requires b.tcp.Keys <= b'.tcp.Keys && b.udp.Keys <= b'.udp.Keys
    requires i in ledger' && ledger' == ledger[i := ledger'[i]] && OwnerKnown(b', offset, pkts, ledger', i)
    ensures forall j :: j in ledger' ==> OwnerKnown(b', offset, pkts, ledger', j)
  {
    hide FlowBooked, UdpFlowBooked, WithinCapacity;
    forall j | j in ledger' && j != i ensures OwnerKnown(b', offset, pkts, ledger', j) {
      assert OwnerKnown(b, offset, pkts, ledger, j);
    }
  }

  lemma EnteredShape(b: Batch, b': Batch, i: nat, offset: nat, pkts: seq<seq<byte>>, ledger: Ledger, entry: Entry)
    requires Enterable(b, i, offset, pkts, ledger) && OnlyHdr(i, b.bufs, b'.bufs, offset)
    requires b'.toWrite == b.toWrite + [i]
    ensures |b'.bufs| == |pkts| <= 0xFFFF && WithinCapacity(b'.bufs)
    ensures forall j :: j in ledger[i := entry] <==> j in b'.toWrite
    ensures forall j, k :: 0 <= j < k < |b'.toWrite| ==> b'.toWrite[j] < b'.toWrite[k]
  {
    hide FlowBooked, UdpFlowBooked, OwnerKnown, PktAt;
    assert forall j :: 0 <= j < |b.toWrite| ==> b.toWrite[j] in b.toWrite;
  }

  lemma LooseKeepsCore(b: Batch, i: nat, offset: nat, pkts: seq<seq<byte>>, ledger: Ledger)
    requires Enterable(b, i, offset, pkts, ledger)
    ensures Core(Batch(WithHdr(b.bufs, offset, i, DEFAULT_HDR), b.tcp, b.udp, b.toWrite + [i]), offset, pkts,
                 ledger[i := Entry(Loose, [i])])
    ensures forall k ::
              Carried(UdpItemsOf(b.udp, k), ledger[i := Entry(Loose, [i])]) == Carried(UdpItemsOf(b.udp, k), ledger)
  {
    hide FlowBooked, UdpFlowBooked, WithinCapacity, UdpItemsOf, PktAt, HdrAt;
    var b' := Batch(WithHdr(b.bufs, offset, i, DEFAULT_HDR), b.tcp, b.udp, b.toWrite + [i]);
    assert LooseOk(b'.bufs, offset, pkts, ledger[i := Entry(Loose, [i])], i);
    FlowsBesideEntry(b, i, b'.bufs, offset, pkts, ledger, Entry(Loose, [i]));
    OwnersBesideEntry(b, b', i, offset, pkts, ledger, ledger[i := Entry(Loose, [i])]);
    EnteredShape(b, b', i, offset, pkts, ledger, Entry(Loose, [i]));
    hide OwnerKnown;
  }

  lemma TcpEntryBooked(b: Batch, i: nat, isV6: bool, offset: nat, pkts: seq<seq<byte>>, ledger: Ledger)
    requires Enterable(b, i, offset, pkts, ledger) && TcpCandidate(pkts[i], isV6)
    ensures var key := KeyOf(pkts[i], isV6);
            FlowBooked(ItemsOf(b.tcp, key) + [NewItem(pkts[i], isV6, i)], key, b.bufs, offset, pkts,
                       ledger[i := Entry(TcpOwned(key), [i])])
  {
    hide TcpCandidate, TcpGroup, KeyOf, NewItem, UdpFlowBooked, PktAt, WithinCapacity;
    var key := KeyOf(pkts[i], isV6);
    var items, ledger' := ItemsOf(b.tcp, key), ledger[i := Entry(TcpOwned(key), [i])];
    TcpFlowOf(b, key, offset, pkts, ledger);
    NewGroup(pkts[i], isV6, i);
    var item := NewItem(pkts[i], isV6, i);
    NewItemFields(pkts[i], isV6, i);
    assert Pick(pkts, [i]) == [pkts[i]];
    assert ItemBooked(item, key, b.bufs, offset, pkts, ledger');
    FlowExtended(items, item, key, b.bufs, offset, pkts, ledger, ledger');
  }

  lemma NewItemFields(pkt: seq<byte>, isV6: bool, i: u16)
    requires TcpCandidate(pkt, isV6)
    ensures var item := NewItem(pkt, isV6, i);
            item.bufsIndex == i && item.key == KeyOf(pkt, isV6) && item.key.isV6 == isV6 && item.numMerged == 0
  {}

  lemma FlowExtended(items: seq<TcpItem>, item: TcpItem, key: TcpFlowKey, bufs: seq<Buf>, offset: nat,
                     pkts: seq<seq<byte>>, ledger: Ledger, ledger': Ledger)
    requires FlowBooked(items, key, bufs, offset, pkts, ledger) && ItemBooked(item, key, bufs, offset, pkts, ledger')
    requires item.bufsIndex !in ledger && ledger' == ledger[item.bufsIndex := ledger'[item.bufsIndex]]
    requires forall j :: j in ledger ==> j < item.bufsIndex
    ensures FlowBooked(items + [item], key, bufs, offset, pkts, ledger')
  {
    hide TcpGroup, PktAt;
    var r := items + [item];
    forall k | 0 <= k < |r| ensures ItemBooked(r[k], key, bufs, offset, pkts, ledger') {
      if k < |items| { ItemStaysBooked(items[k], key, offset, pkts, bufs, bufs, ledger, ledger'); }
    }
    assert Indices(r) == Indices(items) + [item.bufsIndex as nat];
  }

  lemma TcpEntryKeepsCore(b: Batch, i: nat, isV6: bool, offset: nat, pkts: seq<seq<byte>>, ledger: Ledger)
    requires Enterable(b, i, offset, pkts, ledger) && TcpCandidate(pkts[i], isV6)
    ensures var key := KeyOf(pkts[i], isV6);
            var items' := ItemsOf(b.tcp, key) + [NewItem(pkts[i], isV6, i)];
            var ledger' := ledger[i := Entry(TcpOwned(key), [i])];
            && Core(Batch(b.bufs, b.tcp[key := items'], b.udp, b.toWrite + [i]), offset, pkts, ledger')
            && forall k :: Carried(UdpItemsOf(b.udp, k), ledger') == Carried(UdpItemsOf(b.udp, k), ledger)
  {
    hide FlowBooked, UdpFlowBooked, WithinCapacity, UdpItemsOf, PktAt, TcpCandidate, KeyOf, NewItem;
    var key := KeyOf(pkts[i], isV6);
    var b' := Batch(b.bufs, b.tcp[key := ItemsOf(b.tcp, key) + [NewItem(pkts[i], isV6, i)]], b.udp, b.toWrite + [i]);
    TcpEntryBooked(b, i, isV6, offset, pkts, ledger);
    FlowsBesideEntry(b, i, b.bufs, offset, pkts, ledger, Entry(TcpOwned(key), [i]));
    OwnersBesideEntry(b, b', i, offset, pkts, ledger, ledger[i := Entry(TcpOwned(key), [i])]);
    EnteredShape(b, b', i, offset, pkts, ledger, Entry(TcpOwned(key), [i]));
    hide OwnerKnown;
  }

  lemma UdpEntryBooked(b: Batch, i: nat, isV6: bool, known: bool, offset: nat, pkts: seq<seq<byte>>, ledger: Ledger)
    requires Enterable(b, i, offset, pkts, ledger) && UdpCandidate(pkts[i], isV6)
    requires known ==> !ChecksumValid(pkts[i], IpLen(isV6), IPPROTO_UDP, isV6)
    ensures var key := UdpKeyOf(pkts[i], isV6);
            var items, ledger' := UdpItemsOf(b.udp, key), ledger[i := Entry(UdpOwned(key), [i])];
            && UdpFlowBooked(items + [NewUdpItem(pkts[i], isV6, i, known)], key, b.bufs, offset, pkts, ledger')
            && Carried(items + [NewUdpItem(pkts[i], isV6, i, known)], ledger') == Carried(items, ledger) + [i]
  {
    hide UdpCandidate, UdpGroup, UdpKeyOf, NewUdpItem, FlowBooked, PktAt, WithinCapacity, ChecksumValid, Carried;
    var key := UdpKeyOf(pkts[i], isV6);
    var items, ledger' := UdpItemsOf(b.udp, key), ledger[i := Entry(UdpOwned(key), [i])];
    UdpFlowOf(b, key, offset, pkts, ledger);
    NewUdpGroup(pkts[i], isV6, i, known);
    var item := NewUdpItem(pkts[i], isV6, i, known);
    NewUdpItemFields(pkts[i], isV6, i, known);
    assert Pick(pkts, [i]) == [pkts[i]];
    assert UdpItemBooked(item, key, b.bufs, offset, pkts, ledger');
    UdpFlowExtended(items, item, key, b.bufs, offset, pkts, ledger, ledger');
  }

  lemma NewUdpItemFields(pkt: seq<byte>, isV6: bool, i: u16, known: bool)
    requires UdpCandidate(pkt, isV6)
    ensures var item := NewUdpItem(pkt, isV6, i, known);
            item.bufsIndex == i && item.key == UdpKeyOf(pkt, isV6) && item.key.isV6 == isV6 && item.numMerged == 0
  {}

  lemma UdpFlowExtended(items: seq<UdpItem>, item: UdpItem, key: UdpFlowKey, bufs: seq<Buf>, offset: nat,
                        pkts: seq<seq<byte>>, ledger: Ledger, ledger': Ledger)
    requires UdpFlowBooked(items, key, bufs, offset, pkts, ledger)
    requires UdpItemBooked(item, key, bufs, offset, pkts, ledger')
    requires item.bufsIndex !in ledger && ledger' == ledger[item.bufsIndex := ledger'[item.bufsIndex]]
    requires forall j :: j in ledger ==> j < item.bufsIndex
    ensures UdpFlowBooked(items + [item], key, bufs, offset, pkts, ledger')
    ensures Carried(items + [item], ledger') == Carried(items, ledger) + ledger'[item.bufsIndex].members
  {
    hide UdpItemBooked;
    UdpItemsStay(items, item, key, bufs, offset, pkts, ledger, ledger');
    assert UdpIndices(items + [item]) == UdpIndices(items) + [item.bufsIndex as nat];
    hide UdpIndices;
    CarriedExtended(items, item, ledger, ledger');
  }

  lemma UdpItemsStay(items: seq<UdpItem>, item: UdpItem, key: UdpFlowKey, bufs: seq<Buf>, offset: nat,
                     pkts: seq<seq<byte>>, ledger: Ledger, ledger': Ledger)
    requires UdpFlowBooked(items, key, bufs, offset, pkts, ledger)
    requires item.bufsIndex !in ledger && item.bufsIndex in ledger'
    requires ledger' == ledger[item.bufsIndex := ledger'[item.bufsIndex]]
    ensures forall k :: 0 <= k < |items| ==> UdpItemBooked(items[k], key, bufs, offset, pkts, ledger')
    ensures forall k :: 0 <= k < |items| ==> items[k].bufsIndex in ledger
  {
    hide UdpGroup, PktAt;
    forall k | 0 <= k < |items| ensures UdpItemBooked(items[k], key, bufs, offset, pkts, ledger') {
      UdpItemStaysBooked(items[k], key, offset, pkts, bufs, bufs, ledger, ledger');
    }
  }

  lemma CarriedExtended(items: seq<UdpItem>, item: UdpItem, ledger: Ledger, ledger': Ledger)
    requires forall k :: 0 <= k < |items| ==> items[k].bufsIndex in ledger
    requires item.bufsIndex !in ledger && item.bufsIndex in ledger'
    requires ledger' == ledger[item.bufsIndex := ledger'[item.bufsIndex]]
    ensures Carried(items + [item], ledger') == Carried(items, ledger) + ledger'[item.bufsIndex].members
  {
    assert (items + [item])[..|items|] == items;
    CarriedElsewhere(items, ledger, ledger');
  }

  lemma UdpEntryKeepsCore(b: Batch, i: nat, isV6: bool, known: bool, offset: nat, pkts: seq<seq<byte>>, ledger: Ledger)
    requires Enterable(b, i, offset, pkts, ledger) && UdpCandidate(pkts[i], isV6)
    requires known ==> !ChecksumValid(pkts[i], IpLen(isV6), IPPROTO_UDP, isV6)
    ensures var key := UdpKeyOf(pkts[i], isV6);
            var items' := UdpItemsOf(b.udp, key) + [NewUdpItem(pkts[i], isV6, i, known)];
            var ledger' := ledger[i := Entry(UdpOwned(key), [i])];
            && Core(Batch(b.bufs, b.tcp, b.udp[key := items'], b.toWrite + [i]), offset, pkts, ledger')
            && Carried(items', ledger') == Carried(UdpItemsOf(b.udp, key), ledger) + [i]
            && forall k :: k != key ==> Carried(UdpItemsOf(b.udp, k), ledger') == Carried(UdpItemsOf(b.udp, k), ledger)
  {
    hide FlowBooked, UdpFlowBooked, WithinCapacity, UdpItemsOf, PktAt, UdpCandidate, UdpKeyOf, NewUdpItem,
      ChecksumValid, Carried;
    var key := UdpKeyOf(pkts[i], isV6);
    var b' := Batch(b.bufs, b.tcp, b.udp[key := UdpItemsOf(b.udp, key) + [NewUdpItem(pkts[i], isV6, i, known)]],
                    b.toWrite + [i]);
    UdpEntryBooked(b, i, isV6, known, offset, pkts, ledger);
    FlowsBesideEntry(b, i, b.bufs, offset, pkts, ledger, Entry(UdpOwned(key), [i]));
    OwnersBesideEntry(b, b', i, offset, pkts, ledger, ledger[i := Entry(UdpOwned(key), [i])]);
    EnteredShape(b, b', i, offset, pkts, ledger, Entry(UdpOwned(key), [i]));
    hide OwnerKnown;
  }

  // ----- Reading the book -----

  lemma BookedInCore(b: Batch, offset: nat, pkts: seq<seq<byte>>, ledger: Ledger)
    requires Core(b, offset, pkts, ledger)
    ensures forall key, k :: key in b.tcp && 0 <= k < |b.tcp[key]| ==>
              ItemBooked(b.tcp[key][k], key, b.bufs, offset, pkts, ledger)
    ensures forall key, k :: key in b.udp && 0 <= k < |b.udp[key]| ==>
              UdpItemBooked(b.udp[key][k], key, b.bufs, offset, pkts, ledger)
  {
    hide ItemBooked, UdpItemBooked, OwnerKnown, WithinCapacity;
  }
}
