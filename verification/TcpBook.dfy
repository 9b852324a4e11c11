/** What tcp_gro keeps: the items of a flow and the frames in its name stay in step with the ledger. */
module TcpBook {
  import opened Bytes
  import opened Packet
  import opened Buffers
  import opened Tcp
  import opened TcpItem
  import opened TcpCoalesce
  import opened Ledger
  import opened TcpTable

  /** The item's frame is in the ledger under its flow, and the item describes the packets booked there. */
  ghost predicate ItemBooked(item: TcpItem, key: TcpFlowKey, bufs: seq<Buf>, offset: nat, pkts: seq<seq<byte>>,
                             ledger: Ledger) {
    var b := item.bufsIndex;
    && b in ledger && ledger[b].owner == TcpOwned(key) && item.key == key
    && b < |bufs| && offset <= |bufs[b].bytes|
    && (forall m :: m in ledger[b].members ==> m < |pkts|)
    && TcpGroup(item, PktAt(bufs, offset, b), Pick(pkts, ledger[b].members), key.isV6)
    && (|ledger[b].members| == 1 ==> ledger[b].members == [b])
    && (item.numMerged > 0 ==> |bufs[b].bytes| + offset <= bufs[b].cap)
  }

  function Indices(items: seq<TcpItem>): (r: seq<nat>)
    ensures |r| == |items|
  {
    seq(|items|, k requires 0 <= k < |items| => items[k].bufsIndex)
  }

  /** The items of a flow are those of its frames, in increasing order, each booked. */
  ghost predicate FlowBooked(items: seq<TcpItem>, key: TcpFlowKey, bufs: seq<Buf>, offset: nat, pkts: seq<seq<byte>>,
                             ledger: Ledger) {
    && (forall k :: 0 <= k < |items| ==> ItemBooked(items[k], key, bufs, offset, pkts, ledger))
    && (forall j, k :: 0 <= j < k < |items| ==> items[j].bufsIndex < items[k].bufsIndex)
    && (forall b :: b in ledger && ledger[b].owner == TcpOwned(key) ==> b in Indices(items))
  }

  /** A booked item depends only on its own frame and entry. */
  lemma ItemStaysBooked(item: TcpItem, key: TcpFlowKey, offset: nat, pkts: seq<seq<byte>>,
                        bufs: seq<Buf>, bufs': seq<Buf>, ledger: Ledger, ledger': Ledger)
    requires ItemBooked(item, key, bufs, offset, pkts, ledger)
    requires |bufs'| == |bufs| && bufs'[item.bufsIndex] == bufs[item.bufsIndex]
    requires item.bufsIndex in ledger' && ledger'[item.bufsIndex] == ledger[item.bufsIndex]
    ensures ItemBooked(item, key, bufs', offset, pkts, ledger')
  {
    hide TcpGroup;
  }

  // ----- One merge -----

  lemma MergeFits(mode: CanCoalesce, pkt: seq<byte>, i: nat, item: TcpItem, bufs: seq<Buf>, offset: nat, isV6: bool)
    requires Paired(pkt, i, item, bufs, offset, isV6) && Verdict(mode, pkt, i, item, bufs, offset, isV6) == Success
    ensures var b, bufs' := item.bufsIndex, MergedBufs(mode, pkt, i, item, bufs, offset, isV6);
            && |bufs'| == |bufs| && offset <= |bufs'[b].bytes| && |bufs'[b].bytes| + offset <= bufs'[b].cap
            && PktAt(bufs', offset, b) == MergedPkt(mode, pkt, PktAt(bufs, offset, b), isV6)
            && offset <= |bufs'[i].bytes|
            && (forall j :: 0 <= j < |bufs| && j != b && j != i ==> bufs'[j] == bufs[j])
            && (WithinCapacity(bufs) ==> WithinCapacity(bufs'))
            && multiset(Caps(bufs')) == multiset(Caps(bufs))
  {
    hide ChecksumValid, KeyOf, SeqNo, TcpCandidate;
    var b, bufs' := item.bufsIndex, MergedBufs(mode, pkt, i, item, bufs, offset, isV6);
    var merged := MergedPkt(mode, pkt, PktAt(bufs, offset, b), isV6);
    assert |merged| == CoalescedLen(pkt, item, PktAt(bufs, offset, b), isV6);
    if mode == Prepend {
      assert Caps(bufs') == Caps(bufs)[b := Caps(bufs)[i]][i := Caps(bufs)[b]];
    } else {
      assert Caps(bufs') == Caps(bufs);
    }
  }

  /** The members of the merged frame. */
  function Joined(mode: CanCoalesce, members: seq<nat>, i: nat): seq<nat> {
    if mode == Prepend then [i] + members else members + [i]
  }

  lemma MergeKeepsItem(mode: CanCoalesce, pkt: seq<byte>, i: nat, item: TcpItem, key: TcpFlowKey,
                       bufs: seq<Buf>, offset: nat, pkts: seq<seq<byte>>, ledger: Ledger)
    requires ItemBooked(item, key, bufs, offset, pkts, ledger)
    requires i < |pkts| && pkts[i] == pkt && Paired(pkt, i, item, bufs, offset, key.isV6) && KeyOf(pkt, key.isV6) == key
    requires mode != Unavailable && mode == Mode(item, pkt, i, bufs, offset, key.isV6)
    requires Verdict(mode, pkt, i, item, bufs, offset, key.isV6) == Success
    ensures var b := item.bufsIndex;
            var entry := Entry(TcpOwned(key), Joined(mode, ledger[b].members, i));
            ItemBooked(MergedItem(mode, pkt, item, key.isV6), key,
                       MergedBufs(mode, pkt, i, item, bufs, offset, key.isV6),
                       offset, pkts, ledger[b := entry])
  {
    hide ChecksumValid, KeyOf, SeqNo, WellGrouped, TcpCandidate, MergedPkt, MergedBufs, TcpPacketsCanCoalesce,
      CoalescedLen;
    var b, isV6 := item.bufsIndex, key.isV6;
    var members := ledger[b].members;
    var ms, target := Pick(pkts, members), PktAt(bufs, offset, b);
    MergeFits(mode, pkt, i, item, bufs, offset, isV6);
    PickAppend(pkts, members, i);
    PickPrepend(pkts, members, i);
    if mode == Prepend {
      PrependIsExact(item, target, ms, pkt, isV6);
      PrependKeepsGroup(item, target, ms, pkt, isV6);
    } else {
      AppendIsExact(item, target, ms, pkt, isV6);
      AppendKeepsGroup(item, target, ms, pkt, isV6);
    }
  }

  // ----- The search -----

  /** Entries keep their members, save that frame b may have packet i added at one end. */
  ghost predicate MembersKept(ledger: Ledger, ledger': Ledger, merged: bool, b: nat, i: nat) {
    && ledger'.Keys == ledger.Keys
    && (forall j :: j in ledger && !(merged && j == b) ==> ledger'[j].members == ledger[j].members)
    && (merged ==> b in ledger
                   && (ledger'[b].members == ledger[b].members + [i]
                       || ledger'[b].members == [i] + ledger[b].members))
  }

  /** The state before a search for packet i of a flow. */
  ghost predicate Ready(items: seq<TcpItem>, key: TcpFlowKey, i: nat, bufs: seq<Buf>, offset: nat,
                        pkts: seq<seq<byte>>, ledger: Ledger) {
    && i < |pkts| && i !in ledger && Searchable(items, pkts[i], i, bufs, offset, key.isV6)
    && KeyOf(pkts[i], key.isV6) == key && FlowBooked(items, key, bufs, offset, pkts, ledger)
  }

  /** What a search leaves behind: a booked flow, other flows' frames untouched, members kept. */
  ghost predicate Settled(found: Search, key: TcpFlowKey, i: nat, bufs: seq<Buf>, offset: nat, pkts: seq<seq<byte>>,
                          ledger: Ledger, ledger': Ledger, b: nat)
    requires offset >= VIRTIO_NET_HDR_LEN
  {
    && FlowBooked(found.items, key, found.bufs, offset, pkts, ledger')
    && Confined(TcpOwned(key), i, offset, pkts, bufs, found.bufs, ledger, ledger')
    && MembersKept(ledger, ledger', found.ending == Merged, b, i)
    && (found.ending != Merged && i < |bufs| ==> found.bufs[i] == bufs[i])
  }

  lemma MergedFlowBooked(items: seq<TcpItem>, n: nat, item': TcpItem, key: TcpFlowKey, i: nat, bufs: seq<Buf>,
                         bufs': seq<Buf>, offset: nat, pkts: seq<seq<byte>>, ledger: Ledger, ledger': Ledger)
    requires FlowBooked(items, key, bufs, offset, pkts, ledger) && n < |items| && i !in ledger && |bufs'| == |bufs|
    requires var b := items[n].bufsIndex;
             && item'.bufsIndex == b && ItemBooked(item', key, bufs', offset, pkts, ledger')
             && ledger' == ledger[b := ledger'[b]]
             && forall j :: 0 <= j < |bufs| && j != b && j != i ==> bufs'[j] == bufs[j]
    ensures FlowBooked(items[n := item'], key, bufs', offset, pkts, ledger')
  {
    hide TcpGroup, PktAt;
    var items' := items[n := item'];
    forall k | 0 <= k < |items| ensures ItemBooked(items'[k], key, bufs', offset, pkts, ledger') {
      if k != n { ItemStaysBooked(items[k], key, offset, pkts, bufs, bufs', ledger, ledger'); }
    }
    assert Indices(items') == Indices(items);
  }

  lemma MergeStep(mode: CanCoalesce, items: seq<TcpItem>, n: nat, key: TcpFlowKey, i: nat, bufs: seq<Buf>, offset: nat,
                  pkts: seq<seq<byte>>, ledger: Ledger)
    requires Ready(items, key, i, bufs, offset, pkts, ledger) && n < |items|
    requires mode != Unavailable && mode == Mode(items[n], pkts[i], i, bufs, offset, key.isV6)
    requires Paired(pkts[i], i, items[n], bufs, offset, key.isV6)
    requires Verdict(mode, pkts[i], i, items[n], bufs, offset, key.isV6) == Success
    ensures var b := items[n].bufsIndex;
            var found := Search(items[n := MergedItem(mode, pkts[i], items[n], key.isV6)],
                                MergedBufs(mode, pkts[i], i, items[n], bufs, offset, key.isV6), Merged);
            && b in ledger
            && Settled(found, key, i, bufs, offset, pkts, ledger,
                       ledger[b := Entry(TcpOwned(key), Joined(mode, ledger[b].members, i))], b)
  {
    hide ChecksumValid, KeyOf, SeqNo, TcpGroup, TcpCandidate, MergedBufs, Mode, Verdict, PktAt, Usable, Caps,
      WithinCapacity;
    var item := items[n];
    var b := item.bufsIndex;
    var bufs' := MergedBufs(mode, pkts[i], i, item, bufs, offset, key.isV6);
    var ledger' := ledger[b := Entry(TcpOwned(key), Joined(mode, ledger[b].members, i))];
    var items' := items[n := MergedItem(mode, pkts[i], item, key.isV6)];
    MergeFits(mode, pkts[i], i, item, bufs, offset, key.isV6);
    MergeKeepsItem(mode, pkts[i], i, item, key, bufs, offset, pkts, ledger);
    MergedFlowBooked(items, n, items'[n], key, i, bufs, bufs', offset, pkts, ledger, ledger');
    hide ItemBooked, FlowBooked;
  }

  lemma DropStep(items: seq<TcpItem>, n: nat, key: TcpFlowKey, i: nat, bufs: seq<Buf>, offset: nat,
                 pkts: seq<seq<byte>>, ledger: Ledger)
    requires Ready(items, key, i, bufs, offset, pkts, ledger) && n < |items| && items[n].numMerged == 0
    ensures var b := items[n].bufsIndex;
            var found := Search(items[..n] + items[n + 1..], WithHdr(bufs, offset, b, DEFAULT_HDR), Missed);
            Settled(found, key, i, bufs, offset, pkts, ledger, ledger[b := Entry(Loose, [b])], b)
  {
    hide ChecksumValid, KeyOf, SeqNo, TcpGroup, TcpCandidate, Usable, HdrAt, PktAt;
    var item := items[n];
    var b := item.bufsIndex;
    var bufs' := WithHdr(bufs, offset, b, DEFAULT_HDR);
    var ledger' := ledger[b := Entry(Loose, [b])];
    SingleMember(item, key, bufs, offset, pkts, ledger);
    assert LooseOk(bufs', offset, pkts, ledger', b);
    DropFromFlow(items, n, key, bufs, bufs', offset, pkts, ledger, ledger');
    assert Caps(bufs') == Caps(bufs);
  }

  /** Until something is merged into it, an item's frame is its own original packet. */
  lemma SingleMember(item: TcpItem, key: TcpFlowKey, bufs: seq<Buf>, offset: nat, pkts: seq<seq<byte>>, ledger: Ledger)
    requires ItemBooked(item, key, bufs, offset, pkts, ledger) && item.numMerged == 0
    ensures var b := item.bufsIndex;
            ledger[b].members == [b] && b < |pkts| && PktAt(bufs, offset, b) == pkts[b]
  {
    hide ChecksumValid, KeyOf, SeqNo, WellGrouped, HeadersFrom, TcpPayloads;
    var b := item.bufsIndex;
    assert b in ledger[b].members;
    assert Pick(pkts, ledger[b].members)[0] == pkts[b];
  }

  lemma DropFromFlow(items: seq<TcpItem>, n: nat, key: TcpFlowKey, bufs: seq<Buf>, bufs': seq<Buf>, offset: nat,
                     pkts: seq<seq<byte>>, ledger: Ledger, ledger': Ledger)
    requires FlowBooked(items, key, bufs, offset, pkts, ledger) && n < |items| && |bufs'| == |bufs|
    requires var b := items[n].bufsIndex;
             && ledger' == ledger[b := Entry(Loose, [b])]
             && forall j :: 0 <= j < |bufs| && j != b ==> bufs'[j] == bufs[j]
    ensures FlowBooked(items[..n] + items[n + 1..], key, bufs', offset, pkts, ledger')
  {
    hide ItemBooked;
    var items' := items[..n] + items[n + 1..];
    forall k | 0 <= k < |items'| ensures ItemBooked(items'[k], key, bufs', offset, pkts, ledger') {
      var j := if k < n then k else k + 1;
      assert items'[k] == items[j];
      OtherStaysBooked(items[j], items[n].bufsIndex, key, offset, pkts, bufs, bufs', ledger, ledger');
    }
    DropIndex(items, n);
  }

  lemma OtherStaysBooked(item: TcpItem, b: nat, key: TcpFlowKey, offset: nat, pkts: seq<seq<byte>>,
                         bufs: seq<Buf>, bufs': seq<Buf>, ledger: Ledger, ledger': Ledger)
    requires ItemBooked(item, key, bufs, offset, pkts, ledger) && item.bufsIndex != b && |bufs'| == |bufs|
    requires ledger' == ledger[b := Entry(Loose, [b])]
    requires forall j :: 0 <= j < |bufs| && j != b ==> bufs'[j] == bufs[j]
    ensures ItemBooked(item, key, bufs', offset, pkts, ledger')
  {
    ItemStaysBooked(item, key, offset, pkts, bufs, bufs', ledger, ledger') by { hide TcpGroup; }
  }

  lemma DropIndex(items: seq<TcpItem>, n: nat)
    requires n < |items|
    ensures forall j :: j in Indices(items) && j != items[n].bufsIndex ==> j in Indices(items[..n] + items[n + 1..])
  {
    var items' := items[..n] + items[n + 1..];
    forall j | j in Indices(items) && j != items[n].bufsIndex ensures j in Indices(items') {
      var k :| 0 <= k < |items| && Indices(items)[k] == j;
      assert Indices(items')[if k < n then k else k - 1] == j;
    }
  }

  lemma SettledAfterDrop(dropped: Search, found: Search, key: TcpFlowKey, i: nat, bufs: seq<Buf>, offset: nat,
                         pkts: seq<seq<byte>>, ledger: Ledger, ledger1: Ledger, ledger': Ledger, b1: nat, b: nat)
    requires offset >= VIRTIO_NET_HDR_LEN && dropped.ending == Missed && i < |bufs|
    requires Settled(dropped, key, i, bufs, offset, pkts, ledger, ledger1, b1)
    requires Settled(found, key, i, dropped.bufs, offset, pkts, ledger1, ledger', b)
    ensures Settled(found, key, i, bufs, offset, pkts, ledger, ledger', b)
  {
    hide FlowBooked;
    ConfinedTransitive(TcpOwned(key), i, offset, pkts, bufs, dropped.bufs, found.bufs, ledger, ledger1, ledger');
    hide Confined;
  }

  lemma NothingChanged(items: seq<TcpItem>, ending: Ending, key: TcpFlowKey, i: nat, bufs: seq<Buf>, offset: nat,
                       pkts: seq<seq<byte>>, ledger: Ledger)
    requires Ready(items, key, i, bufs, offset, pkts, ledger) && ending != Merged
    ensures Settled(Search(items, bufs, ending), key, i, bufs, offset, pkts, ledger, ledger, 0)
  {
    hide FlowBooked, Searchable, KeyOf;
  }

  /** The search keeps the flow booked and confines itself to it. */
  lemma {:induction false} SearchKeepsBook(items: seq<TcpItem>, n: nat, key: TcpFlowKey, i: nat, bufs: seq<Buf>,
                                           offset: nat,
                                           pkts: seq<seq<byte>>, ledger: Ledger) returns (ledger': Ledger, b: nat)
    requires n <= |items| && Ready(items, key, i, bufs, offset, pkts, ledger)
    ensures Settled(SearchFlow(items, n, pkts[i], i, bufs, offset, key.isV6),
                    key, i, bufs, offset, pkts, ledger, ledger', b)
    decreases n, 1
  {
    hide ChecksumValid, KeyOf, SeqNo, TcpCandidate, MergedBufs, MergedItem, Verdict, WithHdr, ItemReady, FlowBooked,
      Confined, MembersKept;
    ledger', b := ledger, 0;
    if n == 0 {
      NothingChanged(items, Missed, key, i, bufs, offset, pkts, ledger);
    } else {
      var item := items[n - 1];
      assert ItemReady(item, i, bufs, offset, key.isV6);
      var mode := Mode(item, pkts[i], i, bufs, offset, key.isV6);
      ModeMeansPaired(item, pkts[i], i, bufs, offset, key.isV6);
      if mode == Unavailable {
        ledger', b := SearchKeepsBook(items, n - 1, key, i, bufs, offset, pkts, ledger);
      } else {
        match Verdict(mode, pkts[i], i, item, bufs, offset, key.isV6) {
          case Success =>
            MergeStep(mode, items, n - 1, key, i, bufs, offset, pkts, ledger);
            b := item.bufsIndex;
            ledger' := ledger[b := Entry(TcpOwned(key), Joined(mode, ledger[b].members, i))];
          case ItemInvalidCSum =>
            ledger', b := DropAndGoOn(items, n, key, i, bufs, offset, pkts, ledger);
          case PktInvalidCSum =>
            NothingChanged(items, Refused, key, i, bufs, offset, pkts, ledger);
          case _ =>
            ledger', b := SearchKeepsBook(items, n - 1, key, i, bufs, offset, pkts, ledger);
        }
      }
    }
  }

  lemma {:induction false} DropAndGoOn(items: seq<TcpItem>, n: nat, key: TcpFlowKey, i: nat,
                                       bufs: seq<Buf>, offset: nat,
                                       pkts: seq<seq<byte>>, ledger: Ledger) returns (ledger': Ledger, b: nat)
    requires 0 < n <= |items| && Ready(items, key, i, bufs, offset, pkts, ledger)
    requires items[n - 1].numMerged == 0
    ensures var bufs1 := WithHdr(bufs, offset, items[n - 1].bufsIndex, DEFAULT_HDR);
            var items1 := items[..n - 1] + items[n..];
            && Searchable(items1, pkts[i], i, bufs1, offset, key.isV6)
            && Settled(SearchFlow(items1, n - 1, pkts[i], i, bufs1, offset, key.isV6),
                       key, i, bufs, offset, pkts, ledger, ledger', b)
    decreases n, 0
  {
    hide SearchFlow, WithHdr, Ready, Settled, Searchable;
    var b1 := items[n - 1].bufsIndex;
    DropLeavesReady(items, n - 1, key, i, bufs, offset, pkts, ledger);
    var ledger1 := ledger[b1 := Entry(Loose, [b1])];
    var dropped := Search(items[..n - 1] + items[n..], WithHdr(bufs, offset, b1, DEFAULT_HDR), Missed);
    ledger', b := SearchKeepsBook(dropped.items, n - 1, key, i, dropped.bufs, offset, pkts, ledger1);
    SettledAfterDrop(dropped, SearchFlow(dropped.items, n - 1, pkts[i], i, dropped.bufs, offset, key.isV6), key, i,
                     bufs, offset, pkts, ledger, ledger1, ledger', b1, b);
  }

  /** With the item dropped, the search can go on in the same flow. */
  lemma DropLeavesReady(items: seq<TcpItem>, n: nat, key: TcpFlowKey, i: nat, bufs: seq<Buf>, offset: nat,
                        pkts: seq<seq<byte>>, ledger: Ledger)
    requires n < |items| && Ready(items, key, i, bufs, offset, pkts, ledger) && items[n].numMerged == 0
    ensures offset >= VIRTIO_NET_HDR_LEN && i < |bufs| && i < |pkts| && items[n].bufsIndex < |bufs|
    ensures offset <= |bufs[items[n].bufsIndex].bytes|
    ensures var b1 := items[n].bufsIndex;
            var ledger1 := ledger[b1 := Entry(Loose, [b1])];
            var dropped := Search(items[..n] + items[n + 1..], WithHdr(bufs, offset, b1, DEFAULT_HDR), Missed);
            && Ready(dropped.items, key, i, dropped.bufs, offset, pkts, ledger1)
            && Searchable(dropped.items, pkts[i], i, dropped.bufs, offset, key.isV6)
            && Settled(dropped, key, i, bufs, offset, pkts, ledger, ledger1, b1)
  {
    hide ChecksumValid, KeyOf, SeqNo, TcpCandidate, WithHdr, Usable, PktAt, Confined, MembersKept, ItemBooked;
    DropStep(items, n, key, i, bufs, offset, pkts, ledger);
    StillSearchable(items, n, pkts[i], i, bufs, offset, key.isV6);
    assert items[n].bufsIndex in ledger by { ReadyHasFrame(items, n, key, i, bufs, offset, pkts, ledger); }
  }

  lemma ReadyHasFrame(items: seq<TcpItem>, n: nat, key: TcpFlowKey, i: nat, bufs: seq<Buf>, offset: nat,
                      pkts: seq<seq<byte>>, ledger: Ledger)
    requires n < |items| && Ready(items, key, i, bufs, offset, pkts, ledger)
    ensures items[n].bufsIndex in ledger && items[n].bufsIndex != i
  {
    hide TcpGroup, PktAt, Searchable, KeyOf;
    assert ItemBooked(items[n], key, bufs, offset, pkts, ledger);
  }
}
