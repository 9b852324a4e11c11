/** The search through a flow's items in one formula: where it ends, and what becomes of every item. */
module GroSearch {
  import opened Bytes
  import opened Packet
  import opened Buffers
  import opened Tcp
  import opened TcpItem
  import opened TcpCoalesce
  import opened Ledger
  import opened TcpTable
  import opened GroChoice

  /** What comes of trying to merge the packet with the item; none if they do not go together. */
  ghost function Says(item: TcpItem, pkt: seq<byte>, i: nat, bufs: seq<Buf>, offset: nat,
                      isV6: bool): Option<CoalesceResult>
  {
    if !Paired(pkt, i, item, bufs, offset, isV6) then None
    else
      var mode := TcpPacketsCanCoalesce(pkt, isV6, item, PktAt(bufs, offset, item.bufsIndex));
      if mode == Unavailable then None else Some(Verdict(mode, pkt, i, item, bufs, offset, isV6))
  }

  /** The search ends at this item. */
  ghost predicate Ends(item: TcpItem, pkt: seq<byte>, i: nat, bufs: seq<Buf>, offset: nat, isV6: bool) {
    var said := Says(item, pkt, i, bufs, offset, isV6);
    said == Some(Success) || said == Some(PktInvalidCSum)
  }

  /** What is said, in terms of adjacency, room and checksums. */
  lemma SaysByMode(item: TcpItem, pkt: seq<byte>, i: nat, bufs: seq<Buf>, offset: nat, isV6: bool)
    requires TcpCandidate(pkt, isV6) && ItemReady(item, i, bufs, offset, isV6)
    requires i < |bufs| && offset <= |bufs[i].bytes| && PktAt(bufs, offset, i) == pkt
    ensures var b, target, said := item.bufsIndex, PktAt(bufs, offset, item.bufsIndex),
                                   Says(item, pkt, i, bufs, offset, isV6);
            var mode := Mode(item, pkt, i, bufs, offset, isV6);
            var fits := && mode != Unavailable && !(mode == Prepend && Psh(pkt, isV6))
                        && RoomFor(bufs[if mode == Prepend then i else b], offset, target, TcpPayload(pkt, isV6));
            var spoilt := item.numMerged == 0 && !ChecksumValid(target, IpLen(isV6), IPPROTO_TCP, isV6);
            var right := ChecksumValid(pkt, IpLen(isV6), IPPROTO_TCP, isV6);
            && (said == Some(Success) <==> fits && !spoilt && right)
            && (said == Some(PktInvalidCSum) <==> fits && !spoilt && !right)
            && (said == Some(ItemInvalidCSum) <==> fits && spoilt)
  {
    hide TcpCandidate, PktAt, ChecksumValid, TcpPacketsCanCoalesce;
    ModeMeansPaired(item, pkt, i, bufs, offset, isV6);
  }

  /** Rewriting a virtio header changes nothing of that. */
  lemma SaysAnyway(item: TcpItem, pkt: seq<byte>, i: nat, bufs: seq<Buf>, offset: nat, isV6: bool, b: nat)
    requires TcpCandidate(pkt, isV6) && ItemReady(item, i, bufs, offset, isV6)
    requires b < |bufs| && VIRTIO_NET_HDR_LEN <= offset <= |bufs[b].bytes| && i < |bufs| && offset <= |bufs[i].bytes|
    ensures Says(item, pkt, i, WithHdr(bufs, offset, b, DEFAULT_HDR), offset, isV6) ==
            Says(item, pkt, i, bufs, offset, isV6)
  {
    hide TcpCandidate, PktAt, Usable, ChecksumValid, TcpPacketsCanCoalesce, CoalescedLen;
    var bufs' := WithHdr(bufs, offset, b, DEFAULT_HDR);
    SamePktAt(bufs, bufs', offset, i);
    SamePktAt(bufs, bufs', offset, item.bufsIndex);
  }

  /** The items that a search walks past and does not remove. */
  ghost function Kept(items: seq<TcpItem>, pkt: seq<byte>, i: nat, bufs: seq<Buf>, offset: nat,
                      isV6: bool): seq<TcpItem>
  {
    if items == [] then []
    else
      var last := items[|items| - 1];
      Kept(items[..|items| - 1], pkt, i, bufs, offset, isV6)
      + if Says(last, pkt, i, bufs, offset, isV6) == Some(ItemInvalidCSum) then [] else [last]
  }

  lemma {:induction false} KeptAnyway(items: seq<TcpItem>, pkt: seq<byte>, i: nat, bufs: seq<Buf>, offset: nat,
                                      isV6: bool, b: nat)
    requires TcpCandidate(pkt, isV6) && forall k :: 0 <= k < |items| ==> ItemReady(items[k], i, bufs, offset, isV6)
    requires b < |bufs| && VIRTIO_NET_HDR_LEN <= offset <= |bufs[b].bytes| && i < |bufs| && offset <= |bufs[i].bytes|
    ensures Kept(items, pkt, i, WithHdr(bufs, offset, b, DEFAULT_HDR), offset, isV6) ==
            Kept(items, pkt, i, bufs, offset, isV6)
  {
    hide TcpCandidate, ItemReady, Says, WithHdr;
    if items != [] {
      KeptAnyway(items[..|items| - 1], pkt, i, bufs, offset, isV6, b);
      SaysAnyway(items[|items| - 1], pkt, i, bufs, offset, isV6, b);
    }
  }

  /** Item k, if k is not negative, is the last of the first n at which the search ends. */
  ghost predicate EndsAt(items: seq<TcpItem>, n: nat, k: int, pkt: seq<byte>, i: nat, bufs: seq<Buf>, offset: nat,
                         isV6: bool) {
    && -1 <= k < n <= |items| && (k >= 0 ==> Ends(items[k], pkt, i, bufs, offset, isV6))
    && forall j :: k < j < n ==> !Ends(items[j], pkt, i, bufs, offset, isV6)
  }

  /** How the search ends. */
  ghost function EndingAt(items: seq<TcpItem>, k: int, pkt: seq<byte>, i: nat, bufs: seq<Buf>, offset: nat,
                          isV6: bool): Ending
    requires k < |items|
  {
    if k < 0 then Missed
    else if Says(items[k], pkt, i, bufs, offset, isV6) == Some(Success) then Merged else Refused
  }

  /** The items up to where the search ends: that one counts one more packet if it has been merged into. */
  ghost function FrontItems(items: seq<TcpItem>, k: int, pkt: seq<byte>, i: nat, bufs: seq<Buf>, offset: nat,
                      isV6: bool): seq<TcpItem>
    requires k < |items| && Searchable(items, pkt, i, bufs, offset, isV6)
  {
    if k < 0 then []
    else if EndingAt(items, k, pkt, i, bufs, offset, isV6) == Merged then
      items[..k] + [MergedItem(Mode(items[k], pkt, i, bufs, offset, isV6), pkt, items[k], isV6)]
    else items[..k + 1]
  }

  lemma SaysOfMode(item: TcpItem, pkt: seq<byte>, i: nat, bufs: seq<Buf>, offset: nat, isV6: bool)
    requires TcpCandidate(pkt, isV6) && ItemReady(item, i, bufs, offset, isV6)
    requires i < |bufs| && offset <= |bufs[i].bytes| && PktAt(bufs, offset, i) == pkt
    ensures var mode := Mode(item, pkt, i, bufs, offset, isV6);
            && (mode != Unavailable ==> Paired(pkt, i, item, bufs, offset, isV6))
            && Says(item, pkt, i, bufs, offset, isV6) ==
               if mode == Unavailable then None else Some(Verdict(mode, pkt, i, item, bufs, offset, isV6))
  {
    hide TcpCandidate, PktAt, TcpPacketsCanCoalesce, Verdict;
    ModeMeansPaired(item, pkt, i, bufs, offset, isV6);
  }

  lemma KeptNext(items: seq<TcpItem>, lo: nat, n: nat, pkt: seq<byte>, i: nat, bufs: seq<Buf>, offset: nat, isV6: bool)
    requires lo < n <= |items|
    ensures Kept(items[lo..n], pkt, i, bufs, offset, isV6) ==
            Kept(items[lo..n - 1], pkt, i, bufs, offset, isV6)
            + if Says(items[n - 1], pkt, i, bufs, offset, isV6) == Some(ItemInvalidCSum) then [] else [items[n - 1]]
  {
    hide Says;
    assert items[lo..n][..n - lo - 1] == items[lo..n - 1];
  }

  /** Where the search ends, and with which items, when the last item is one that it walks past. */
  lemma PastLast(items: seq<TcpItem>, n: nat, pkt: seq<byte>, i: nat, bufs: seq<Buf>, offset: nat, isV6: bool)
    requires 0 < n <= |items| && Searchable(items, pkt, i, bufs, offset, isV6)
    requires !Ends(items[n - 1], pkt, i, bufs, offset, isV6)
    ensures SearchFlow(items, n, pkt, i, bufs, offset, isV6) ==
            if Says(items[n - 1], pkt, i, bufs, offset, isV6) == Some(ItemInvalidCSum) then
              var dropped := Dropped(items, n - 1, pkt, i, bufs, offset, isV6);
              SearchFlow(dropped.items, n - 1, pkt, i, dropped.bufs, offset, isV6)
            else SearchFlow(items, n - 1, pkt, i, bufs, offset, isV6)
  {
    hide TcpCandidate, PktAt, Usable, TcpPacketsCanCoalesce, Verdict, Mode, Says, MergedItem, MergedBufs, Dropped;
    assert ItemReady(items[n - 1], i, bufs, offset, isV6);
    SaysOfMode(items[n - 1], pkt, i, bufs, offset, isV6);
  }

  /** The search at the item at which it ends. */
  lemma AtLast(items: seq<TcpItem>, n: nat, pkt: seq<byte>, i: nat, bufs: seq<Buf>, offset: nat, isV6: bool)
    requires 0 < n <= |items| && Searchable(items, pkt, i, bufs, offset, isV6)
    requires Ends(items[n - 1], pkt, i, bufs, offset, isV6)
    ensures var found := SearchFlow(items, n, pkt, i, bufs, offset, isV6);
            && found.ending == EndingAt(items, n - 1, pkt, i, bufs, offset, isV6)
            && found.items == FrontItems(items, n - 1, pkt, i, bufs, offset, isV6) + items[n..]
  {
    hide TcpCandidate, PktAt, Usable, TcpPacketsCanCoalesce, Verdict, Mode, Says, MergedItem, MergedBufs, Dropped;
    assert ItemReady(items[n - 1], i, bufs, offset, isV6);
    SaysOfMode(items[n - 1], pkt, i, bufs, offset, isV6);
  }

  /** Dropping item n - 1 changes nothing for those before it. */
  lemma DroppedSame(items: seq<TcpItem>, n: nat, k: int, pkt: seq<byte>, i: nat, bufs: seq<Buf>, offset: nat,
                    isV6: bool)
    requires 0 < n <= |items| && Searchable(items, pkt, i, bufs, offset, isV6)
    requires EndsAt(items, n, k, pkt, i, bufs, offset, isV6) && k < n - 1
    ensures var d := Dropped(items, n - 1, pkt, i, bufs, offset, isV6);
            && EndsAt(d.items, n - 1, k, pkt, i, d.bufs, offset, isV6)
            && EndingAt(d.items, k, pkt, i, d.bufs, offset, isV6) == EndingAt(items, k, pkt, i, bufs, offset, isV6)
            && FrontItems(d.items, k, pkt, i, d.bufs, offset, isV6) == FrontItems(items, k, pkt, i, bufs, offset, isV6)
            && d.items[n - 1..] == items[n..]
            && Kept(d.items[k + 1..n - 1], pkt, i, d.bufs, offset, isV6) ==
               Kept(items[k + 1..n - 1], pkt, i, bufs, offset, isV6)
  {
    hide TcpCandidate, PktAt, Usable, Says, Mode, MergedItem, Kept, WithHdr;
    var d, b := Dropped(items, n - 1, pkt, i, bufs, offset, isV6), items[n - 1].bufsIndex;
    assert ItemReady(items[n - 1], i, bufs, offset, isV6);
    forall j | 0 <= j < n - 1
      ensures d.items[j] == items[j] && Says(d.items[j], pkt, i, d.bufs, offset, isV6) ==
                                        Says(items[j], pkt, i, bufs, offset, isV6)
    {
      assert ItemReady(items[j], i, bufs, offset, isV6);
      SaysAnyway(items[j], pkt, i, bufs, offset, isV6, b);
    }
    assert d.items[k + 1..n - 1] == items[k + 1..n - 1];
    KeptAnyway(items[k + 1..n - 1], pkt, i, bufs, offset, isV6, b);
    if k >= 0 {
      assert ItemReady(items[k], i, bufs, offset, isV6);
      ModeStays(items[k], pkt, i, bufs, offset, isV6, b);
      assert d.items[..k] == items[..k] && d.items[..k + 1] == items[..k + 1];
    }
  }

  /**
   The search ends at the last item that takes the packet or finds its checksum wrong. The items behind that one
   stay, save those whose only packet turned out corrupt; the items before it are not looked at.
   */
  lemma {:induction false} SearchExactly(items: seq<TcpItem>, n: nat, k: int, pkt: seq<byte>, i: nat, bufs: seq<Buf>,
                                         offset: nat, isV6: bool)
    requires Searchable(items, pkt, i, bufs, offset, isV6) && EndsAt(items, n, k, pkt, i, bufs, offset, isV6)
    ensures var found := SearchFlow(items, n, pkt, i, bufs, offset, isV6);
            && found.ending == EndingAt(items, k, pkt, i, bufs, offset, isV6)
            && found.items == FrontItems(items, k, pkt, i, bufs, offset, isV6)
                              + Kept(items[k + 1..n], pkt, i, bufs, offset, isV6) + items[n..]
    decreases n
  {
    hide Searchable, Says, Ends, SearchFlow, FrontItems, EndingAt, Kept, Dropped, WithHdr;
    if k == n - 1 {
      KeptNone(items, n, pkt, i, bufs, offset, isV6);
      if n == 0 {
        SearchNothing(items, pkt, i, bufs, offset, isV6);
      } else {
        AtLast(items, n, pkt, i, bufs, offset, isV6);
      }
    } else {
      KeptNext(items, k + 1, n, pkt, i, bufs, offset, isV6);
      PastLast(items, n, pkt, i, bufs, offset, isV6);
      var front := FrontItems(items, k, pkt, i, bufs, offset, isV6);
      var kept := Kept(items[k + 1..n - 1], pkt, i, bufs, offset, isV6);
      if Says(items[n - 1], pkt, i, bufs, offset, isV6) == Some(ItemInvalidCSum) {
        var dropped := Dropped(items, n - 1, pkt, i, bufs, offset, isV6);
        DroppedSame(items, n, k, pkt, i, bufs, offset, isV6);
        SearchExactly(dropped.items, n - 1, k, pkt, i, dropped.bufs, offset, isV6);
        assert kept + [] == kept;
      } else {
        SearchExactly(items, n - 1, k, pkt, i, bufs, offset, isV6);
        MoveOver(front, kept, items, n);
      }
    }
  }

  lemma MoveOver(front: seq<TcpItem>, kept: seq<TcpItem>, items: seq<TcpItem>, n: nat)
    requires 0 < n <= |items|
    ensures front + kept + items[n - 1..] == front + (kept + [items[n - 1]]) + items[n..]
  {}

  lemma KeptNone(items: seq<TcpItem>, n: nat, pkt: seq<byte>, i: nat, bufs: seq<Buf>, offset: nat, isV6: bool)
    requires n <= |items|
    ensures Kept(items[n..n], pkt, i, bufs, offset, isV6) == []
  {}

  lemma SearchNothing(items: seq<TcpItem>, pkt: seq<byte>, i: nat, bufs: seq<Buf>, offset: nat, isV6: bool)
    requires Searchable(items, pkt, i, bufs, offset, isV6)
    ensures var found := SearchFlow(items, 0, pkt, i, bufs, offset, isV6);
            && found.ending == EndingAt(items, -1, pkt, i, bufs, offset, isV6)
            && found.items == FrontItems(items, -1, pkt, i, bufs, offset, isV6) + items
  {
    hide Searchable;
  }

  /** There always is such an item, or none at which the search ends. */
  lemma {:induction false} EndsSomewhere(items: seq<TcpItem>, n: nat, pkt: seq<byte>, i: nat, bufs: seq<Buf>,
                                         offset: nat, isV6: bool) returns (k: int)
    requires n <= |items|
    ensures EndsAt(items, n, k, pkt, i, bufs, offset, isV6)
  {
    hide Ends;
    k := n - 1;
    if n > 0 && !Ends(items[n - 1], pkt, i, bufs, offset, isV6) {
      k := EndsSomewhere(items, n - 1, pkt, i, bufs, offset, isV6);
    }
  }

  /**
   What tcp_gro makes of a candidate. The last item of its flow that takes it, or would if its checksum were right,
   decides: it is merged there, or left alone. If there is none it becomes the flow's last item. Items behind that
   one are removed exactly if they could take it but for their own wrong checksum.
   */
  lemma TcpStepExactly(flows: TcpFlows, i: nat, bufs: seq<Buf>, offset: nat, isV6: bool, k: int)
    requires i < |bufs| && i <= 0xFFFF && offset <= |bufs[i].bytes|
    requires TcpCandidate(PktAt(bufs, offset, i), isV6)
    requires var pkt := PktAt(bufs, offset, i);
             var items := ItemsOf(flows, KeyOf(pkt, isV6));
             Searchable(items, pkt, i, bufs, offset, isV6)
             && EndsAt(items, |items|, k, pkt, i, bufs, offset, isV6)
    ensures var pkt, step := PktAt(bufs, offset, i), StepTcp(flows, i, bufs, offset, isV6);
            var items := ItemsOf(flows, KeyOf(pkt, isV6));
            var rest := FrontItems(items, k, pkt, i, bufs, offset, isV6)
                        + Kept(items[k + 1..], pkt, i, bufs, offset, isV6);
            if k < 0 then
              step.result == TableInsert && step.flows == flows[KeyOf(pkt, isV6) := rest + [NewItem(pkt, isV6, i)]]
            else
              && step.result ==
                 (if Says(items[k], pkt, i, bufs, offset, isV6) == Some(Success) then Coalesced else Noop)
              && step.flows == flows[KeyOf(pkt, isV6) := rest]
  {
    hide TcpCandidate, KeyOf, NewItem, ItemsOf, Searchable, PktAt, Says, Ends, Kept, FrontItems, SearchFlow;
    var pkt := PktAt(bufs, offset, i);
    var items := ItemsOf(flows, KeyOf(pkt, isV6));
    SearchExactly(items, |items|, k, pkt, i, bufs, offset, isV6);
    assert items[k + 1..|items|] == items[k + 1..] && items[|items|..] == [];
    var rest := FrontItems(items, k, pkt, i, bufs, offset, isV6) + Kept(items[k + 1..], pkt, i, bufs, offset, isV6);
    assert rest + items[|items|..] == rest;
  }
}
