/** What holds of every state handle_gro passes through, said without the book. */
module GroReachable {
  import opened Bytes
  import opened Packet
  import opened Buffers
  import opened Tcp
  import opened Udp
  import opened TcpItem
  import opened Ledger
  import opened UdpTable
  import opened TcpBook
  import opened UdpBook
  import opened GroBatch
  import opened GroRun
  import opened Accounting
  import opened Gro
  import opened DatagramOrder

  // ----- Capacities bound merged lengths -----

  /** No buffer can take more than a 65535-byte packet beside header space at both ends. */
  predicate CapsBounded(start: seq<Buf>, offset: nat) {
    forall j :: 0 <= j < |start| ==> start[j].cap <= 0xFFFF + 2 * offset
  }

  lemma CapAmong(start: seq<Buf>, bufs: seq<Buf>, offset: nat, j: nat)
    requires multiset(Caps(bufs)) == multiset(Caps(start)) && CapsBounded(start, offset) && j < |bufs|
    ensures bufs[j].cap <= 0xFFFF + 2 * offset
  {
    assert Caps(bufs)[j] in multiset(Caps(bufs));
    assert bufs[j].cap in Caps(start);
    var k :| 0 <= k < |start| && Caps(start)[k] == bufs[j].cap;
    assert start[k].cap <= 0xFFFF + 2 * offset;
  }

  // ----- Reachable states -----

  /** A book for the batch after n packets. */
  lemma RunBook(start: seq<Buf>, offset: nat, canUdpGro: bool, n: nat) returns (ledger: Ledger)
    requires Startable(start, offset, n)
    ensures Balanced(Run(start, offset, canUdpGro, n), offset, Packets(start, offset), start, canUdpGro, n, ledger)
  {
    hide Run, Balanced;
    var b := Run(start, offset, canUdpGro, n);
    ledger :| Balanced(b, offset, Packets(start, offset), start, canUdpGro, n, ledger);
  }

  /** Frames to write are in increasing order; every item has a frame of its own among them, over both tables. */
  lemma TablesAgreeWithList(start: seq<Buf>, offset: nat, canUdpGro: bool, n: nat)
    requires Startable(start, offset, n)
    ensures var b := Run(start, offset, canUdpGro, n);
            && Increasing(b.toWrite) && (forall j :: j in b.toWrite ==> j < n)
            && TcpFramesOk(b.tcp, b.bufs, offset) && UdpFramesOk(b.udp, b.bufs, offset)
            && (forall j :: HasTcpItem(b.tcp, j) ==> j in b.toWrite && !HasUdpItem(b.udp, j))
            && (forall j :: HasUdpItem(b.udp, j) ==> j in b.toWrite)
  {
    hide Run, TcpFramesOk, UdpFramesOk, HasTcpItem, HasUdpItem, Core;
    var b, pkts := Run(start, offset, canUdpGro, n), Packets(start, offset);
    var ledger := RunBook(start, offset, canUdpGro, n);
    TcpFramesReady(b, offset, pkts, ledger);
    UdpFramesReady(b, offset, pkts, ledger);
    CoreList(b, offset, pkts, ledger);
    forall j ensures HasTcpItem(b.tcp, j) ==> j in b.toWrite && !HasUdpItem(b.udp, j) {
      TablesDisjoint(b, offset, pkts, ledger, j);
    }
    forall j ensures HasUdpItem(b.udp, j) ==> j in b.toWrite {
      TablesDisjoint(b, offset, pkts, ledger, j);
    }
  }

  lemma CoreList(b: Batch, offset: nat, pkts: seq<seq<byte>>, ledger: Ledger)
    requires Core(b, offset, pkts, ledger)
    ensures Increasing(b.toWrite) && forall j :: j in ledger <==> j in b.toWrite
  {
    hide FlowBooked, UdpFlowBooked, OwnerKnown, WithinCapacity;
  }

  /**
   The original packets that an item stands for: some of the first n, each with a valid checksum once there are
   several.
   */
  ghost predicate TcpStandsFor(item: TcpItem, target: seq<byte>, pkts: seq<seq<byte>>, n: nat, members: seq<nat>,
                               isV6: bool) {
    && n <= |pkts| && (forall m :: m in members ==> m < n)
    && TcpGroup(item, target, Pick(pkts, members), isV6)
    && (item.numMerged > 0 ==> forall m :: m in members ==>
          |pkts[m]| >= IpLen(isV6) && ChecksumValid(pkts[m], IpLen(isV6), IPPROTO_TCP, isV6))
  }

  ghost predicate UdpStandsFor(item: UdpItem, target: seq<byte>, pkts: seq<seq<byte>>, n: nat, members: seq<nat>,
                               isV6: bool) {
    && n <= |pkts| && (forall m :: m in members ==> m < n)
    && UdpGroup(item, target, Pick(pkts, members), isV6)
    && (item.numMerged > 0 ==> forall m :: m in members ==>
          |pkts[m]| >= IpLen(isV6) && ChecksumValid(pkts[m], IpLen(isV6), IPPROTO_UDP, isV6))
  }

  lemma {:induction false} RollCovers(toWrite: seq<nat>, ledger: Ledger, j: nat, m: nat)
    requires j in toWrite && j in ledger && m in ledger[j].members
    ensures m in Roll(toWrite, ledger)
  {
    var n := |toWrite| - 1;
    if toWrite[n] != j {
      assert j in toWrite[..n];
      RollCovers(toWrite[..n], ledger, j, m);
    }
  }

  lemma MembersSeen(b: Batch, offset: nat, pkts: seq<seq<byte>>, start: seq<Buf>, canUdpGro: bool, n: nat,
                    ledger: Ledger, j: nat)
    requires Balanced(b, offset, pkts, start, canUdpGro, n, ledger) && j in ledger
    ensures n <= |pkts| && forall m :: m in ledger[j].members ==> m < n
  {
    hide FlowBooked, UdpFlowBooked, OwnerKnown, WithinCapacity, Roll, Carried, Arrivals, LooseQuiet, Caps;
    forall m | m in ledger[j].members ensures m < n {
      RollCovers(b.toWrite, ledger, j, m);
      assert m in multiset(Roll(b.toWrite, ledger));
      assert m in multiset(Upto(n));
    }
  }

  /** No corrupt segment is ever merged, and every item stands for original packets, whole and in sequence. */
  lemma TcpItemsStandForPackets(start: seq<Buf>, offset: nat, canUdpGro: bool, n: nat, key: TcpFlowKey, k: nat)
    requires Startable(start, offset, n)
    requires var b := Run(start, offset, canUdpGro, n); key in b.tcp && k < |b.tcp[key]|
    ensures var b := Run(start, offset, canUdpGro, n);
            var item := b.tcp[key][k];
            && item.key == key && item.bufsIndex < |b.bufs| && offset <= |b.bufs[item.bufsIndex].bytes|
            && exists members ::
                 TcpStandsFor(item, PktAt(b.bufs, offset, item.bufsIndex), Packets(start, offset), n, members, key.isV6)
  {
    hide Run, Core, TcpStandsFor, ItemBooked;
    var b, pkts := Run(start, offset, canUdpGro, n), Packets(start, offset);
    var ledger := RunBook(start, offset, canUdpGro, n);
    BookedInCore(b, offset, pkts, ledger);
    var item := b.tcp[key][k];
    BookedStandsFor(item, key, b, offset, pkts, start, canUdpGro, n, ledger);
  }

  lemma BookedStandsFor(item: TcpItem, key: TcpFlowKey, b: Batch, offset: nat, pkts: seq<seq<byte>>, start: seq<Buf>,
                        canUdpGro: bool, n: nat, ledger: Ledger)
    requires Balanced(b, offset, pkts, start, canUdpGro, n, ledger)
    requires ItemBooked(item, key, b.bufs, offset, pkts, ledger)
    ensures item.key == key && item.bufsIndex < |b.bufs| && offset <= |b.bufs[item.bufsIndex].bytes|
    ensures item.bufsIndex in ledger
    ensures TcpStandsFor(item, PktAt(b.bufs, offset, item.bufsIndex), pkts, n, ledger[item.bufsIndex].members, key.isV6)
  {
    hide Balanced, ChecksumValid, WellGrouped, HeadersFrom, TcpPayloads, KeyOf;
    MembersSeen(b, offset, pkts, start, canUdpGro, n, ledger, item.bufsIndex);
    BookedIsTcp(item, key, b.bufs, offset, pkts, ledger);
    var ms := ledger[item.bufsIndex].members;
    forall m | item.numMerged > 0 && m in ms
      ensures |pkts[m]| >= IpLen(key.isV6) && ChecksumValid(pkts[m], IpLen(key.isV6), IPPROTO_TCP, key.isV6)
    {
      var i :| 0 <= i < |ms| && ms[i] == m;
      assert Pick(pkts, ms)[i] == pkts[m];
    }
  }

  /** No corrupt datagram is ever merged. */
  lemma UdpItemsStandForPackets(start: seq<Buf>, offset: nat, canUdpGro: bool, n: nat, key: UdpFlowKey, k: nat)
    requires Startable(start, offset, n)
    requires var b := Run(start, offset, canUdpGro, n); key in b.udp && k < |b.udp[key]|
    ensures var b := Run(start, offset, canUdpGro, n);
            var item := b.udp[key][k];
            && item.key == key && item.bufsIndex < |b.bufs| && offset <= |b.bufs[item.bufsIndex].bytes|
            && exists members ::
                 UdpStandsFor(item, PktAt(b.bufs, offset, item.bufsIndex), Packets(start, offset), n, members, key.isV6)
  {
    hide Run, Core, UdpStandsFor, UdpItemBooked;
    var b, pkts := Run(start, offset, canUdpGro, n), Packets(start, offset);
    var ledger := RunBook(start, offset, canUdpGro, n);
    BookedInCore(b, offset, pkts, ledger);
    var item := b.udp[key][k];
    UdpBookedStandsFor(item, key, b, offset, pkts, start, canUdpGro, n, ledger);
  }

  lemma UdpBookedStandsFor(item: UdpItem, key: UdpFlowKey, b: Batch, offset: nat, pkts: seq<seq<byte>>,
                           start: seq<Buf>, canUdpGro: bool, n: nat, ledger: Ledger)
    requires Balanced(b, offset, pkts, start, canUdpGro, n, ledger)
    requires UdpItemBooked(item, key, b.bufs, offset, pkts, ledger)
    ensures item.key == key && item.bufsIndex < |b.bufs| && offset <= |b.bufs[item.bufsIndex].bytes|
    ensures item.bufsIndex in ledger
    ensures UdpStandsFor(item, PktAt(b.bufs, offset, item.bufsIndex), pkts, n, ledger[item.bufsIndex].members, key.isV6)
  {
    hide Balanced, ChecksumValid, UdpWellGrouped, UdpPayloads, UdpKeyOf;
    MembersSeen(b, offset, pkts, start, canUdpGro, n, ledger, item.bufsIndex);
    BookedIsUdp(item, key, b.bufs, offset, pkts, ledger);
    var ms := ledger[item.bufsIndex].members;
    forall m | item.numMerged > 0 && m in ms
      ensures |pkts[m]| >= IpLen(key.isV6) && ChecksumValid(pkts[m], IpLen(key.isV6), IPPROTO_UDP, key.isV6)
    {
      var i :| 0 <= i < |ms| && ms[i] == m;
      assert Pick(pkts, ms)[i] == pkts[m];
    }
  }

  /**
   Merging never outgrows a buffer: capacities only change places, and a merged frame leaves header space at both
   ends.
   */
  lemma MergesFit(start: seq<Buf>, offset: nat, canUdpGro: bool, n: nat)
    requires Startable(start, offset, n)
    ensures var b := Run(start, offset, canUdpGro, n);
            && |b.bufs| == |start| && multiset(Caps(b.bufs)) == multiset(Caps(start)) && WithinCapacity(b.bufs)
            && (forall key, k :: key in b.tcp && 0 <= k < |b.tcp[key]| && b.tcp[key][k].numMerged > 0 ==>
                  FrameFits(b.bufs, offset, b.tcp[key][k].bufsIndex))
            && (forall key, k :: key in b.udp && 0 <= k < |b.udp[key]| && b.udp[key][k].numMerged > 0 ==>
                  FrameFits(b.bufs, offset, b.udp[key][k].bufsIndex))
            && (CapsBounded(start, offset) ==>
                  forall j :: 0 <= j < |b.bufs| && FrameFits(b.bufs, offset, j) ==>
                    |b.bufs[j].bytes| - offset <= 0xFFFF)
  {
    hide Run, FlowBooked, UdpFlowBooked, TcpGroup, UdpGroup, OwnerKnown, Caps, WithinCapacity, Roll, Carried,
      Arrivals, LooseQuiet, PktAt, CapsBounded;
    var b, pkts := Run(start, offset, canUdpGro, n), Packets(start, offset);
    var ledger := RunBook(start, offset, canUdpGro, n);
    BookedInCore(b, offset, pkts, ledger);
    if CapsBounded(start, offset) {
      forall j | 0 <= j < |b.bufs| && FrameFits(b.bufs, offset, j) ensures |b.bufs[j].bytes| - offset <= 0xFFFF {
        CapAmong(start, b.bufs, offset, j);
      }
    }
  }

  predicate FrameFits(bufs: seq<Buf>, offset: nat, j: nat) {
    j < |bufs| && |bufs[j].bytes| + offset <= bufs[j].cap
  }
}
