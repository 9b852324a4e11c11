/** handle_gro: the loop over a batch, then accounting over both tables. */
module Gro {
  import opened Bytes
  import opened Packet
  import opened Buffers
  import opened Tcp
  import opened Udp
  import opened TcpItem
  import opened Ledger
  import opened TcpTable
  import opened UdpTable
  import opened TcpBook
  import opened UdpBook
  import opened GroBatch
  import opened GroRun
  import opened Accounting

  // ----- A balanced book makes accounting possible -----

  lemma TcpFramesReady(b: Batch, offset: nat, pkts: seq<seq<byte>>, ledger: Ledger)
    requires Core(b, offset, pkts, ledger)
    ensures TcpFramesOk(b.tcp, b.bufs, offset)
  {
    hide UdpFlowBooked, OwnerKnown, WithinCapacity, Usable, TcpGroup, PktAt;
    forall key, k | key in b.tcp && 0 <= k < |b.tcp[key]|
      ensures b.tcp[key][k].bufsIndex < |b.bufs| && TcpFrameOk(b.bufs[b.tcp[key][k].bufsIndex], b.tcp[key][k], offset)
    {
      BookedTcpFrame(b.tcp[key][k], key, b.bufs, offset, pkts, ledger);
    }
    forall key, key', k, k' | key in b.tcp && key' in b.tcp && 0 <= k < |b.tcp[key]| && 0 <= k' < |b.tcp[key']|
      && b.tcp[key][k].bufsIndex == b.tcp[key'][k'].bufsIndex
      ensures key == key' && k == k'
    {
      assert ItemBooked(b.tcp[key][k], key, b.bufs, offset, pkts, ledger);
      assert ItemBooked(b.tcp[key'][k'], key', b.bufs, offset, pkts, ledger);
    }
  }

  lemma BookedTcpFrame(item: TcpItem, key: TcpFlowKey, bufs: seq<Buf>, offset: nat, pkts: seq<seq<byte>>,
                       ledger: Ledger)
    requires ItemBooked(item, key, bufs, offset, pkts, ledger) && offset >= VIRTIO_NET_HDR_LEN
    ensures item.bufsIndex < |bufs| && TcpFrameOk(bufs[item.bufsIndex], item, offset)
  {
    hide TcpGroup, Usable;
    GroupIsUsable(item, PktAt(bufs, offset, item.bufsIndex), Pick(pkts, ledger[item.bufsIndex].members), key.isV6);
  }

  lemma UdpFramesReady(b: Batch, offset: nat, pkts: seq<seq<byte>>, ledger: Ledger)
    requires Core(b, offset, pkts, ledger)
    ensures UdpFramesOk(b.udp, b.bufs, offset)
  {
    hide FlowBooked, OwnerKnown, WithinCapacity, UsableUdp, UdpGroup, PktAt;
    forall key, k | key in b.udp && 0 <= k < |b.udp[key]|
      ensures b.udp[key][k].bufsIndex < |b.bufs| && UdpFrameOk(b.bufs[b.udp[key][k].bufsIndex], b.udp[key][k], offset)
    {
      BookedUdpFrame(b.udp[key][k], key, b.bufs, offset, pkts, ledger);
    }
    forall key, key', k, k' | key in b.udp && key' in b.udp && 0 <= k < |b.udp[key]| && 0 <= k' < |b.udp[key']|
      && b.udp[key][k].bufsIndex == b.udp[key'][k'].bufsIndex
      ensures key == key' && k == k'
    {
      assert UdpItemBooked(b.udp[key][k], key, b.bufs, offset, pkts, ledger);
      assert UdpItemBooked(b.udp[key'][k'], key', b.bufs, offset, pkts, ledger);
    }
  }

  lemma BookedUdpFrame(item: UdpItem, key: UdpFlowKey, bufs: seq<Buf>, offset: nat, pkts: seq<seq<byte>>,
                       ledger: Ledger)
    requires UdpItemBooked(item, key, bufs, offset, pkts, ledger) && offset >= VIRTIO_NET_HDR_LEN
    ensures item.bufsIndex < |bufs| && UdpFrameOk(bufs[item.bufsIndex], item, offset)
  {
    hide UdpGroup, UsableUdp;
    UdpGroupUsable(item, PktAt(bufs, offset, item.bufsIndex), Pick(pkts, ledger[item.bufsIndex].members), key.isV6);
  }

  /** Every frame with an owner is that of an item of its flow. */
  lemma OwnedIsListed(b: Batch, offset: nat, pkts: seq<seq<byte>>, ledger: Ledger, j: nat)
    requires Core(b, offset, pkts, ledger) && j in ledger
    ensures ledger[j].owner.TcpOwned? ==> HasTcpItem(b.tcp, j)
    ensures ledger[j].owner.UdpOwned? ==> HasUdpItem(b.udp, j)
  {
    hide WithinCapacity, ItemBooked, UdpItemBooked, LooseOk;
    assert OwnerKnown(b, offset, pkts, ledger, j);
    match ledger[j].owner {
      case TcpOwned(key) =>
        var k :| 0 <= k < |b.tcp[key]| && Indices(b.tcp[key])[k] == j;
        assert b.tcp[key][k].bufsIndex == j;
      case UdpOwned(key) =>
        var k :| 0 <= k < |b.udp[key]| && UdpIndices(b.udp[key])[k] == j;
        assert b.udp[key][k].bufsIndex == j;
      case Loose =>
    }
  }

  lemma TcpItemOwns(item: TcpItem, key: TcpFlowKey, bufs: seq<Buf>, offset: nat, pkts: seq<seq<byte>>, ledger: Ledger)
    requires ItemBooked(item, key, bufs, offset, pkts, ledger)
    ensures item.bufsIndex in ledger && ledger[item.bufsIndex].owner == TcpOwned(key)
  {
    hide TcpGroup, PktAt;
  }

  lemma UdpItemOwns(item: UdpItem, key: UdpFlowKey, bufs: seq<Buf>, offset: nat, pkts: seq<seq<byte>>, ledger: Ledger)
    requires UdpItemBooked(item, key, bufs, offset, pkts, ledger)
    ensures item.bufsIndex in ledger && ledger[item.bufsIndex].owner == UdpOwned(key)
  {
    hide UdpGroup, PktAt;
  }

  /** No frame is in both tables. */
  lemma TablesDisjoint(b: Batch, offset: nat, pkts: seq<seq<byte>>, ledger: Ledger, j: nat)
    requires Core(b, offset, pkts, ledger)
    ensures j in ledger && ledger[j].owner.TcpOwned? ==> HasTcpItem(b.tcp, j)
    ensures j in ledger && ledger[j].owner.UdpOwned? ==> HasUdpItem(b.udp, j)
    ensures HasTcpItem(b.tcp, j) ==> j in ledger && ledger[j].owner.TcpOwned?
    ensures HasUdpItem(b.udp, j) ==> j in ledger && ledger[j].owner.UdpOwned?
  {
    hide Core, ItemBooked, UdpItemBooked;
    BookedInCore(b, offset, pkts, ledger);
    if HasTcpItem(b.tcp, j) {
      var key, k :| key in b.tcp && 0 <= k < |b.tcp[key]| && b.tcp[key][k].bufsIndex == j;
      TcpItemOwns(b.tcp[key][k], key, b.bufs, offset, pkts, ledger);
    }
    if HasUdpItem(b.udp, j) {
      var key, k :| key in b.udp && 0 <= k < |b.udp[key]| && b.udp[key][k].bufsIndex == j;
      UdpItemOwns(b.udp[key][k], key, b.bufs, offset, pkts, ledger);
    }
    if j in ledger { OwnedIsListed(b, offset, pkts, ledger, j); }
  }

  // ----- The whole batch -----

  /** Both tables' frames are finished, and nothing else has changed. */
  ghost predicate Accounted(b: Batch, bufs': seq<Buf>, offset: nat) {
    && TcpFramesOk(b.tcp, b.bufs, offset) && UdpFramesOk(b.udp, b.bufs, offset)
    && exists between :: TcpAccounted(b.tcp, b.bufs, between, offset)
                         && UdpFramesOk(b.udp, between, offset) && UdpAccounted(b.udp, between, bufs', offset)
  }

  lemma UdpFramesStay(b: Batch, between: seq<Buf>, offset: nat, pkts: seq<seq<byte>>, ledger: Ledger)
    requires Core(b, offset, pkts, ledger) && TcpFramesOk(b.tcp, b.bufs, offset)
    requires TcpAccounted(b.tcp, b.bufs, between, offset)
    ensures UdpFramesOk(b.udp, between, offset)
  {
    hide Core, TcpFramesOk, TcpFrame, UdpFrameOk;
    UdpFramesReady(b, offset, pkts, ledger);
    forall key, k | key in b.udp && 0 <= k < |b.udp[key]|
      ensures between[b.udp[key][k].bufsIndex] == b.bufs[b.udp[key][k].bufsIndex]
    {
      assert HasUdpItem(b.udp, b.udp[key][k].bufsIndex);
      TablesDisjoint(b, offset, pkts, ledger, b.udp[key][k].bufsIndex);
    }
  }

  datatype GroError = TooManyPacketBuffers | InvalidOffset

  /** GROTable. */
  class GROTable {
    var toWrite: seq<nat>
    const tcpGroTable: TcpGROTable
    const udpGroTable: UdpGROTable

    constructor ()
      ensures toWrite == [] && fresh(tcpGroTable) && fresh(udpGroTable)
      ensures tcpGroTable.itemsByFlow == map[] && udpGroTable.itemsByFlow == map[]
    {
      toWrite := [];
      tcpGroTable := new TcpGROTable();
      udpGroTable := new UdpGROTable();
    }

    /** GROTable::reset. */
    method Reset()
      modifies this, tcpGroTable, udpGroTable
      ensures toWrite == [] && tcpGroTable.itemsByFlow == map[] && udpGroTable.itemsByFlow == map[]
    {
      toWrite := [];
      tcpGroTable.Reset();
      udpGroTable.Reset();
    }

    /** The batch as it stands, over the given buffers. */
    ghost function State(bufs: seq<Buf>): Batch
      reads this, tcpGroTable, udpGroTable
    {
      Batch(bufs, tcpGroTable.itemsByFlow, udpGroTable.itemsByFlow, toWrite)
    }

    /** GROTable::apply_gro. */
    method ApplyGro(bufs: array<Buf>, offset: nat, canUdpGro: bool) returns (r: Result<(), GroError>)
      requires WithinCapacity(bufs[..])
      modifies this, tcpGroTable, udpGroTable, bufs
      ensures GroOutcome(r, old(bufs[..]), offset, canUdpGro, State(bufs[..]))
    {
      Reset();
      r := HandleGro(bufs, offset, this, canUdpGro);
    }
  }

  /** The batch after n packets; with none looked at, not even the offset matters. */
  ghost function After(start: seq<Buf>, offset: nat, canUdpGro: bool, n: nat): Batch
    requires n > 0 ==> Startable(start, offset, n)
  {
    if n == 0 then Batch(start, map[], map[], []) else Run(start, offset, canUdpGro, n)
  }

  /**
   How handle_gro ends: every packet has been looked at and all frames are finished, or the batch is
   too long, or packet i is the first that ends before its header space does.
   */
  ghost predicate GroOutcome(r: Result<(), GroError>, start: seq<Buf>, offset: nat, canUdpGro: bool, after: Batch) {
    match r
    case Ok(_) =>
      && |start| <= 0xFFFF && (|start| > 0 ==> Startable(start, offset, |start|))
      && var b := After(start, offset, canUdpGro, |start|);
      && after.tcp == b.tcp && after.udp == b.udp && after.toWrite == b.toWrite
      && Accounted(b, after.bufs, offset)
    case Err(TooManyPacketBuffers) => |start| > 0xFFFF && after == Batch(start, map[], map[], [])
    case Err(InvalidOffset) =>
      |start| <= 0xFFFF && exists i :: FirstBad(start, offset, i) && (i > 0 ==> Startable(start, offset, i))
                                       && after == After(start, offset, canUdpGro, i)
  }

  ghost predicate FirstBad(start: seq<Buf>, offset: nat, i: nat) {
    i < |start| && !OffsetOk(start, offset, i) && forall j :: 0 <= j < i ==> OffsetOk(start, offset, j)
  }

  /** A state the loop passes through. */
  ghost predicate Underway(b: Batch, start: seq<Buf>, offset: nat, canUdpGro: bool, i: nat) {
    && i <= |start| <= 0xFFFF && WithinCapacity(start)
    && (i > 0 ==> Startable(start, offset, i)) && b == After(start, offset, canUdpGro, i)
  }

  lemma UnderwayReady(b: Batch, start: seq<Buf>, offset: nat, canUdpGro: bool, i: nat)
    requires Underway(b, start, offset, canUdpGro, i) && i < |start| && OffsetOk(start, offset, i)
    ensures |b.bufs| == |start| && b.bufs[i] == start[i] && WithinCapacity(b.bufs)
    ensures StepReady(b, offset, canUdpGro, i)
    ensures Underway(GroStep(b, offset, canUdpGro, i), start, offset, canUdpGro, i + 1)
  {
    hide Balanced, StepReady, GroStep, SomeLedger;
    assert Startable(start, offset, i);
    assert b == Run(start, offset, canUdpGro, i);
    NextIsBalanced(b, start, offset, canUdpGro, i);
    SomeLedgerShape(b, offset, start, canUdpGro, i);
  }

  lemma SomeLedgerShape(b: Batch, offset: nat, start: seq<Buf>, canUdpGro: bool, i: nat)
    requires SomeLedger(b, offset, start, canUdpGro, i)
    ensures |b.bufs| == |start| && (forall j :: i <= j < |start| ==> b.bufs[j] == start[j]) && WithinCapacity(b.bufs)
  {
    hide FlowBooked, UdpFlowBooked, OwnerKnown, WithinCapacity, Carried, Roll, Arrivals;
    var ledger :| Balanced(b, offset, Packets(start, offset), start, canUdpGro, i, ledger);
  }

  lemma AccountingReady(b: Batch, start: seq<Buf>, offset: nat, canUdpGro: bool)
    requires Underway(b, start, offset, canUdpGro, |start|)
    ensures TcpFramesOk(b.tcp, b.bufs, offset) && UdpFramesOk(b.udp, b.bufs, offset)
    ensures forall between :: TcpAccounted(b.tcp, b.bufs, between, offset) ==> UdpFramesOk(b.udp, between, offset)
  {
    hide Balanced, TcpFramesOk, UdpFramesOk, TcpAccounted, Run;
    if |start| > 0 {
      var ledger :| Balanced(b, offset, Packets(start, offset), start, canUdpGro, |start|, ledger);
      BalancedCore(b, offset, Packets(start, offset), start, canUdpGro, |start|, ledger);
      TcpFramesReady(b, offset, Packets(start, offset), ledger);
      UdpFramesReady(b, offset, Packets(start, offset), ledger);
      forall between | TcpAccounted(b.tcp, b.bufs, between, offset) ensures UdpFramesOk(b.udp, between, offset) {
        UdpFramesStay(b, between, offset, Packets(start, offset), ledger);
      }
    } else {
      NoFrames(b.bufs, offset);
    }
  }

  lemma NoFrames(bufs: seq<Buf>, offset: nat)
    ensures TcpFramesOk(map[], bufs, offset)
    ensures forall other :: UdpFramesOk(map[], other, offset)
  {}

  /** One turn of the loop of handle_gro. */
  method LookAt(bufs: array<Buf>, offset: nat, i: nat, table: GROTable, canUdpGro: bool)
    requires i < bufs.Length && WithinCapacity(bufs[..]) && StepReady(table.State(bufs[..]), offset, canUdpGro, i)
    modifies table, table.tcpGroTable, table.udpGroTable, bufs
    ensures table.State(bufs[..]) == GroStep(old(table.State(bufs[..])), offset, canUdpGro, i)
    ensures WithinCapacity(bufs[..])
  {
    hide TcpCandidate, UdpCandidate, StepTcp, StepUdp, Searchable, UdpSearchable, KeyOf, UdpKeyOf;
    assert PktAt(bufs[..], offset, i) == bufs[i].bytes[offset..];
    ClassifyIgnoresUdp(bufs[i].bytes[offset..], canUdpGro);
    var result;
    match Classify(bufs[i].bytes[offset..], canUdpGro) {
      case Tcp4 => result := TcpGro(bufs, offset, i, table.tcpGroTable, false);
      case Tcp6 => result := TcpGro(bufs, offset, i, table.tcpGroTable, true);
      case Udp4 => result := UdpGro(bufs, offset, i, table.udpGroTable, false);
      case Udp6 => result := UdpGro(bufs, offset, i, table.udpGroTable, true);
      case NotGro => result := Noop;
    }
    match result {
      case Noop =>
        ClearHdr(bufs, offset, i);
        table.toWrite := table.toWrite + [i];
      case TableInsert =>
        table.toWrite := table.toWrite + [i];
      case Coalesced =>
    }
  }

  lemma ClassifyIgnoresUdp(pkt: seq<byte>, canUdpGro: bool)
    ensures Classify(pkt, canUdpGro) == Tcp4 ==> Classify(pkt, false) == Tcp4
    ensures Classify(pkt, canUdpGro) == Tcp6 ==> Classify(pkt, false) == Tcp6
    ensures Classify(pkt, canUdpGro) == Udp4 ==> Classify(pkt, true) == Udp4
    ensures Classify(pkt, canUdpGro) == Udp6 ==> Classify(pkt, true) == Udp6
  {}

  /** handle_gro, called on empty tables and with nothing to write yet. */
  method HandleGro(bufs: array<Buf>, offset: nat, table: GROTable, canUdpGro: bool) returns (r: Result<(), GroError>)
    requires WithinCapacity(bufs[..])
    requires table.toWrite == [] && table.tcpGroTable.itemsByFlow == map[] && table.udpGroTable.itemsByFlow == map[]
    modifies table, table.tcpGroTable, table.udpGroTable, bufs
    ensures GroOutcome(r, old(bufs[..]), offset, canUdpGro, table.State(bufs[..]))
  {
    hide GroStep, StepReady, Run, After, Startable, Accounted, WithinCapacity;
    if bufs.Length > 0xFFFF {
      AfterNothing(bufs[..], offset, canUdpGro);
      return Err(TooManyPacketBuffers);
    }
    ghost var start := bufs[..];
    AfterNothing(start, offset, canUdpGro);
    var i := 0;
    while i < bufs.Length
      invariant i <= bufs.Length && Underway(table.State(bufs[..]), start, offset, canUdpGro, i)
      invariant WithinCapacity(bufs[..])
      invariant forall j :: 0 <= j < i ==> OffsetOk(start, offset, j)
      invariant forall j :: i <= j < bufs.Length ==> bufs[j] == start[j]
    {
      if offset < VIRTIO_NET_HDR_LEN || offset >= |bufs[i].bytes| {
        assert FirstBad(start, offset, i);
        return Err(InvalidOffset);
      }
      UnderwayReady(table.State(bufs[..]), start, offset, canUdpGro, i);
      LookAt(bufs, offset, i, table, canUdpGro);
      i := i + 1;
      UnderwayRest(table.State(bufs[..]), start, offset, canUdpGro, i);
    }
    Account(bufs, start, offset, table, canUdpGro);
    return Ok(());
  }

  lemma AfterNothing(start: seq<Buf>, offset: nat, canUdpGro: bool)
    ensures After(start, offset, canUdpGro, 0) == Batch(start, map[], map[], [])
  {}

  /** Accounting over both tables, once the loop is done. */
  method Account(bufs: array<Buf>, ghost start: seq<Buf>, offset: nat, table: GROTable, ghost canUdpGro: bool)
    requires Underway(table.State(bufs[..]), start, offset, canUdpGro, |start|)
    modifies bufs
    ensures Accounted(old(table.State(bufs[..])), bufs[..], offset)
    ensures table.State(bufs[..]) == old(table.State(bufs[..])).(bufs := bufs[..])
  {
    hide TcpFramesOk, UdpFramesOk, TcpAccounted, UdpAccounted, Underway;
    AccountingReady(table.State(bufs[..]), start, offset, canUdpGro);
    ApplyTcpCoalesceAccounting(bufs, offset, table.tcpGroTable);
    ApplyUdpCoalesceAccounting(bufs, offset, table.udpGroTable);
  }

  lemma UnderwayRest(b: Batch, start: seq<Buf>, offset: nat, canUdpGro: bool, i: nat)
    requires Underway(b, start, offset, canUdpGro, i) && i > 0
    ensures |b.bufs| == |start| && forall j :: i <= j < |start| ==> b.bufs[j] == start[j]
  {
    hide SomeLedger;
    SomeLedgerShape(b, offset, start, canUdpGro, i);
  }
}
