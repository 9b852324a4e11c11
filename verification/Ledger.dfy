/** The book that accounts, for each frame to be written, for the packets it carries. */
module Ledger {
  import opened Bytes
  import opened Packet
  import opened Buffers
  import opened Tcp
  import opened Udp

  /** Who may still change a frame: nobody, or the items of one flow. */
  datatype Owner = Loose | TcpOwned(tcpKey: TcpFlowKey) | UdpOwned(udpKey: UdpFlowKey)

  /** A frame's owner and the batch positions of the packets it carries, in the order they follow each other. */
  datatype Entry = Entry(owner: Owner, members: seq<nat>)

  type Ledger = map<nat, Entry>

  /** The packet in buffer j, behind the space for the virtio header. */
  function PktAt(bufs: seq<Buf>, offset: nat, j: nat): seq<byte>
    requires j < |bufs| && offset <= |bufs[j].bytes|
  {
    bufs[j].bytes[offset..]
  }

  /** The virtio header in front of the packet in buffer j. */
  function HdrAt(bufs: seq<Buf>, offset: nat, j: nat): seq<byte>
    requires j < |bufs| && VIRTIO_NET_HDR_LEN <= offset <= |bufs[j].bytes|
  {
    bufs[j].bytes[offset - VIRTIO_NET_HDR_LEN..offset]
  }

  /** The buffers with the virtio header of buffer j overwritten. */
  function WithHdr(bufs: seq<Buf>, offset: nat, j: nat, hdr: VirtioHdr): (r: seq<Buf>)
    requires j < |bufs| && VIRTIO_NET_HDR_LEN <= offset <= |bufs[j].bytes|
    ensures |r| == |bufs| && |r[j].bytes| == |bufs[j].bytes| && r[j].cap == bufs[j].cap
    ensures forall k :: 0 <= k < |bufs| && k != j ==> r[k] == bufs[k]
    ensures PktAt(r, offset, j) == PktAt(bufs, offset, j) && HdrAt(r, offset, j) == Encode(hdr)
  {
    bufs[j := bufs[j].(bytes := Splice(bufs[j].bytes, offset - VIRTIO_NET_HDR_LEN, Encode(hdr)))]
  }

  /** The packets at the given positions of the batch. */
  function Pick(pkts: seq<seq<byte>>, members: seq<nat>): (r: seq<seq<byte>>)
    requires forall m :: m in members ==> m < |pkts|
    ensures |r| == |members|
  {
    seq(|members|, k requires 0 <= k < |members| && members[k] in members => pkts[members[k]])
  }

  lemma PickAppend(pkts: seq<seq<byte>>, members: seq<nat>, i: nat)
    requires i < |pkts| && forall m :: m in members ==> m < |pkts|
    ensures forall m :: m in members + [i] ==> m < |pkts|
    ensures Pick(pkts, members + [i]) == Pick(pkts, members) + [pkts[i]]
  {}

  lemma PickPrepend(pkts: seq<seq<byte>>, members: seq<nat>, i: nat)
    requires i < |pkts| && forall m :: m in members ==> m < |pkts|
    ensures forall m :: m in [i] + members ==> m < |pkts|
    ensures Pick(pkts, [i] + members) == [pkts[i]] + Pick(pkts, members)
  {}

  /** A frame nobody owns holds its original packet behind an empty virtio header. */
  ghost predicate LooseOk(bufs: seq<Buf>, offset: nat, pkts: seq<seq<byte>>, ledger: Ledger, j: nat)
    requires j in ledger && offset >= VIRTIO_NET_HDR_LEN
  {
    && ledger[j].members == [j] && j < |bufs| && j < |pkts| && offset <= |bufs[j].bytes|
    && PktAt(bufs, offset, j) == pkts[j] && HdrAt(bufs, offset, j) == Encode(DEFAULT_HDR)
  }

  /**
   Work for one owner leaves every other frame and its entry alone. A frame may fall out of its
   owner's hands only to become a loose one; buffers not in the ledger are untouched, save buffer i.
   */
  ghost predicate Confined(owner: Owner, i: nat, offset: nat, pkts: seq<seq<byte>>,
                           bufs: seq<Buf>, bufs': seq<Buf>, ledger: Ledger, ledger': Ledger)
    requires offset >= VIRTIO_NET_HDR_LEN
  {
    && |bufs'| == |bufs| && ledger'.Keys == ledger.Keys
    && (forall j :: j in ledger && ledger[j].owner != owner && j < |bufs| ==> bufs'[j] == bufs[j])
    && (forall j :: j in ledger && ledger[j].owner != owner ==> ledger'[j] == ledger[j])
    && (forall j :: j in ledger && ledger[j].owner == owner ==>
          ledger'[j].owner == owner || (ledger'[j].owner == Loose && LooseOk(bufs', offset, pkts, ledger', j)))
    && (forall j :: 0 <= j < |bufs| && j !in ledger && j != i ==> bufs'[j] == bufs[j])
    && multiset(Caps(bufs')) == multiset(Caps(bufs))
    && (WithinCapacity(bufs) ==> WithinCapacity(bufs'))
  }

  lemma ConfinedTransitive(owner: Owner, i: nat, offset: nat, pkts: seq<seq<byte>>,
                           b0: seq<Buf>, b1: seq<Buf>, b2: seq<Buf>, l0: Ledger, l1: Ledger, l2: Ledger)
    requires offset >= VIRTIO_NET_HDR_LEN && owner != Loose
    requires Confined(owner, i, offset, pkts, b0, b1, l0, l1) && Confined(owner, i, offset, pkts, b1, b2, l1, l2)
    ensures Confined(owner, i, offset, pkts, b0, b2, l0, l2)
  {
    hide Caps, WithinCapacity;
    forall j | j in l0 && l0[j].owner != owner ensures l2[j] == l0[j] {
      assert j in l1 && l1[j] == l0[j];
    }
    forall j | j in l0 && l0[j].owner == owner && l1[j].owner != owner
      ensures l2[j].owner == Loose && LooseOk(b2, offset, pkts, l2, j)
    {
      assert j in l1 && l1[j].owner == Loose && LooseOk(b1, offset, pkts, l1, j);
      assert l2[j] == l1[j] && b2[j] == b1[j];
    }
    forall j | j in l0 && l0[j].owner != owner && j < |b0| ensures b2[j] == b0[j] {
      assert j in l1 && l1[j] == l0[j];
    }
  }
}
