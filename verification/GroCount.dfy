/** The counting identity: frames to write plus merges are the packets looked at. */
module GroCount {
  import opened Bytes
  import opened Packet
  import opened Buffers
  import opened Tcp
  import opened Udp
  import opened TcpItem
  import opened TcpCoalesce
  import opened Ledger
  import opened TcpTable
  import opened UdpTable
  import opened GroBatch
  import opened GroRun

  // ----- Sums -----

  function Total(ns: seq<nat>): nat {
    if ns == [] then 0 else Total(ns[..|ns| - 1]) + ns[|ns| - 1]
  }

  lemma {:induction false} TotalConcat(a: seq<nat>, b: seq<nat>)
    ensures Total(a + b) == Total(a) + Total(b)
  {
    if b == [] {
      assert a + b == a;
    } else {
      assert (a + b)[..|a + b| - 1] == a + b[..|b| - 1];
      TotalConcat(a, b[..|b| - 1]);
    }
  }

  lemma TotalAround(ns: seq<nat>, k: nat)
    requires k < |ns|
    ensures Total(ns) == Total(ns[..k]) + ns[k] + Total(ns[k + 1..])
  {
    assert ns == ns[..k] + [ns[k]] + ns[k + 1..];
    TotalConcat(ns[..k], [ns[k]]);
    TotalConcat(ns[..k] + [ns[k]], ns[k + 1..]);
  }

  ghost function SumOf<K>(m: map<K, nat>): nat {
    if m == map[] then 0
    else
      var k :| k in m;
      m[k] + SumOf(m - {k})
  }

  lemma {:induction false} SumOfSplit<K>(m: map<K, nat>, key: K)
    requires key in m
    ensures SumOf(m) == m[key] + SumOf(m - {key})
    decreases |m|
  {
    var k :| k in m && SumOf(m) == m[k] + SumOf(m - {k});
    if k != key {
      SumOfSplit(m - {k}, key);
      SumOfSplit(m - {key}, k);
      assert m - {k} - {key} == m - {key} - {k};
    }
  }

  /** Changing one entry changes the sum by as much. */
  lemma SumOfUpdate<K>(m: map<K, nat>, key: K, v: nat)
    ensures SumOf(m[key := v]) == SumOf(m) + v - (if key in m then m[key] else 0)
  {
    SumOfSplit(m[key := v], key);
    if key in m {
      SumOfSplit(m, key);
      assert m[key := v] - {key} == m - {key};
    } else {
      assert m[key := v] - {key} == m;
    }
  }

  // ----- Merges in a table -----

  function TcpNums(items: seq<TcpItem>): (r: seq<nat>)
    ensures |r| == |items|
  {
    seq(|items|, k requires 0 <= k < |items| => items[k].numMerged)
  }

  function UdpNums(items: seq<UdpItem>): (r: seq<nat>)
    ensures |r| == |items|
  {
    seq(|items|, k requires 0 <= k < |items| => items[k].numMerged)
  }

  function TcpTotals(flows: TcpFlows): map<TcpFlowKey, nat> {
    map key | key in flows :: Total(TcpNums(flows[key]))
  }

  function UdpTotals(flows: UdpFlows): map<UdpFlowKey, nat> {
    map key | key in flows :: Total(UdpNums(flows[key]))
  }

  /** Frames to write, plus merges over both tables. */
  ghost function Count(b: Batch): nat {
    |b.toWrite| + SumOf(TcpTotals(b.tcp)) + SumOf(UdpTotals(b.udp))
  }

  lemma TcpFlowChanges(flows: TcpFlows, key: TcpFlowKey, items: seq<TcpItem>)
    ensures SumOf(TcpTotals(flows[key := items])) ==
            SumOf(TcpTotals(flows)) + Total(TcpNums(items)) - Total(TcpNums(ItemsOf(flows, key)))
  {
    hide SumOf;
    SumOfUpdate(TcpTotals(flows), key, Total(TcpNums(items)));
    assert TcpTotals(flows[key := items]) == TcpTotals(flows)[key := Total(TcpNums(items))];
  }

  lemma UdpFlowChanges(flows: UdpFlows, key: UdpFlowKey, items: seq<UdpItem>)
    ensures SumOf(UdpTotals(flows[key := items])) ==
            SumOf(UdpTotals(flows)) + Total(UdpNums(items)) - Total(UdpNums(UdpItemsOf(flows, key)))
  {
    hide SumOf;
    SumOfUpdate(UdpTotals(flows), key, Total(UdpNums(items)));
    assert UdpTotals(flows[key := items]) == UdpTotals(flows)[key := Total(UdpNums(items))];
  }

  // ----- Steps -----

  lemma TcpReplaced(items: seq<TcpItem>, k: nat, item: TcpItem)
    requires k < |items|
    ensures Total(TcpNums(items[k := item])) == Total(TcpNums(items)) - items[k].numMerged + item.numMerged
  {
    var was, now := TcpNums(items), TcpNums(items[k := item]);
    assert now[..k] == was[..k] && now[k + 1..] == was[k + 1..];
    TotalAround(was, k);
    TotalAround(now, k);
  }

  lemma TcpDropped(items: seq<TcpItem>, k: nat)
    requires k < |items|
    ensures Total(TcpNums(items[..k] + items[k + 1..])) == Total(TcpNums(items)) - items[k].numMerged
  {
    var was := TcpNums(items);
    assert TcpNums(items[..k] + items[k + 1..]) == was[..k] + was[k + 1..];
    TotalAround(was, k);
    TotalConcat(was[..k], was[k + 1..]);
  }

  lemma TcpAdded(items: seq<TcpItem>, item: TcpItem)
    ensures Total(TcpNums(items + [item])) == Total(TcpNums(items)) + item.numMerged
  {
    assert TcpNums(items + [item]) == TcpNums(items) + [item.numMerged as nat];
    TotalConcat(TcpNums(items), [item.numMerged]);
    assert [item.numMerged as nat][..0] == [];
  }

  /** A search adds one merge or none: the items it drops had none. */
  lemma {:induction false} SearchCounts(items: seq<TcpItem>, n: nat, pkt: seq<byte>, i: nat, bufs: seq<Buf>,
                                        offset: nat, isV6: bool)
    requires n <= |items| && Searchable(items, pkt, i, bufs, offset, isV6)
    ensures var found := SearchFlow(items, n, pkt, i, bufs, offset, isV6);
            Total(TcpNums(found.items)) == Total(TcpNums(items)) + if found.ending == Merged then 1 else 0
    decreases n
  {
    hide TcpCandidate, PktAt, Usable, ChecksumValid, TcpPacketsCanCoalesce, CoalescedLen, WithHdr, MergedBufs,
      Verdict, Total, TcpNums;
    if n > 0 {
      var item := items[n - 1];
      assert ItemReady(item, i, bufs, offset, isV6);
      var mode := Mode(item, pkt, i, bufs, offset, isV6);
      ModeMeansPaired(item, pkt, i, bufs, offset, isV6);
      if mode != Unavailable && Verdict(mode, pkt, i, item, bufs, offset, isV6) == Success {
        TcpReplaced(items, n - 1, MergedItem(mode, pkt, item, isV6));
      } else if mode != Unavailable && Verdict(mode, pkt, i, item, bufs, offset, isV6) == ItemInvalidCSum {
        StillSearchable(items, n - 1, pkt, i, bufs, offset, isV6);
        SearchCounts(items[..n - 1] + items[n..], n - 1, pkt, i, WithHdr(bufs, offset, item.bufsIndex, DEFAULT_HDR),
                     offset, isV6);
        TcpDropped(items, n - 1);
      } else {
        SearchCounts(items, n - 1, pkt, i, bufs, offset, isV6);
      }
    }
  }

  lemma TcpStepCounts(b: Batch, offset: nat, canUdpGro: bool, i: nat, isV6: bool)
    requires StepReady(b, offset, canUdpGro, i)
    requires Classify(PktAt(b.bufs, offset, i), canUdpGro) == if isV6 then Tcp6 else Tcp4
    ensures Count(AfterTcp(b, offset, canUdpGro, i, isV6)) == Count(b) + 1
  {
    hide TcpCandidate, Searchable, UdpSearchable, SearchFlow, Total, SumOf, TcpTotals, UdpTotals, TcpNums, KeyOf,
      WithHdr, ItemsOf, PktAt;
    var pkt := PktAt(b.bufs, offset, i);
    if TcpCandidate(pkt, isV6) {
      var key := KeyOf(pkt, isV6);
      var items := ItemsOf(b.tcp, key);
      SearchCounts(items, |items|, pkt, i, b.bufs, offset, isV6);
      var found := SearchFlow(items, |items|, pkt, i, b.bufs, offset, isV6);
      TcpFlowChanges(b.tcp, key, found.items);
      TcpAdded(found.items, NewItem(pkt, isV6, i));
      TcpFlowChanges(b.tcp, key, found.items + [NewItem(pkt, isV6, i)]);
    }
  }

  lemma UdpReplaced(items: seq<UdpItem>, k: nat, item: UdpItem)
    requires k < |items|
    ensures Total(UdpNums(items[k := item])) == Total(UdpNums(items)) - items[k].numMerged + item.numMerged
  {
    var was, now := UdpNums(items), UdpNums(items[k := item]);
    assert now[..k] == was[..k] && now[k + 1..] == was[k + 1..];
    TotalAround(was, k);
    TotalAround(now, k);
  }

  lemma UdpAdded(items: seq<UdpItem>, item: UdpItem)
    ensures Total(UdpNums(items + [item])) == Total(UdpNums(items)) + item.numMerged
  {
    assert UdpNums(items + [item]) == UdpNums(items) + [item.numMerged as nat];
    TotalConcat(UdpNums(items), [item.numMerged]);
    assert [item.numMerged as nat][..0] == [];
  }

  lemma UdpStepCounts(b: Batch, offset: nat, canUdpGro: bool, i: nat, isV6: bool)
    requires StepReady(b, offset, canUdpGro, i)
    requires Classify(PktAt(b.bufs, offset, i), canUdpGro) == if isV6 then Udp6 else Udp4
    ensures Count(AfterUdp(b, offset, canUdpGro, i, isV6)) == Count(b) + 1
  {
    hide UdpCandidate, Searchable, Total, SumOf, TcpTotals, UdpTotals, UdpNums, UdpKeyOf, WithHdr, PktAt,
      UdpPacketsCanCoalesce, UdpVerdict, Appended, UsableUdp;
    var pkt := PktAt(b.bufs, offset, i);
    if UdpCandidate(pkt, isV6) {
      var key := UdpKeyOf(pkt, isV6);
      var items := UdpItemsOf(b.udp, key);
      if MergesUdp(items, pkt, i, b.bufs, offset, isV6) {
        assert items != [];
        var last := items[|items| - 1];
        var items' := items[|items| - 1 := last.(numMerged := last.numMerged + 1)];
        UdpReplaced(items, |items| - 1, last.(numMerged := last.numMerged + 1));
        UdpFlowChanges(b.udp, key, items');
      } else {
        var item := NewUdpItem(pkt, isV6, i, FoundInvalid(items, pkt, i, b.bufs, offset, isV6));
        UdpAdded(items, item);
        UdpFlowChanges(b.udp, key, items + [item]);
      }
    }
  }

  /** Every step counts its packet once, as a frame or as a merge. */
  lemma StepCounts(b: Batch, offset: nat, canUdpGro: bool, i: nat)
    requires StepReady(b, offset, canUdpGro, i)
    ensures Count(GroStep(b, offset, canUdpGro, i)) == Count(b) + 1
  {
    hide AfterTcp, AfterUdp, Searchable, UdpSearchable, TcpCandidate, UdpCandidate, SumOf, TcpTotals, UdpTotals,
      WithHdr;
    match Classify(PktAt(b.bufs, offset, i), canUdpGro) {
      case Tcp4 => TcpStepCounts(b, offset, canUdpGro, i, false);
      case Tcp6 => TcpStepCounts(b, offset, canUdpGro, i, true);
      case Udp4 => UdpStepCounts(b, offset, canUdpGro, i, false);
      case Udp6 => UdpStepCounts(b, offset, canUdpGro, i, true);
      case NotGro =>
    }
  }

  /** The counting identity: after n packets, frames to write plus merges are n. */
  lemma {:induction false} RunCounts(start: seq<Buf>, offset: nat, canUdpGro: bool, n: nat)
    requires Startable(start, offset, n)
    ensures Count(Run(start, offset, canUdpGro, n)) == n
  {
    hide StepReady, GroStep, SomeLedger, Count;
    if n == 0 {
      NothingCounted(start);
    } else {
      RunCounts(start, offset, canUdpGro, n - 1);
      var b := Run(start, offset, canUdpGro, n - 1);
      NextIsBalanced(b, start, offset, canUdpGro, n - 1);
      StepCounts(b, offset, canUdpGro, n - 1);
    }
  }

  lemma NothingCounted(start: seq<Buf>)
    ensures Count(Batch(start, map[], map[], [])) == 0
  {
    assert TcpTotals(map[]) == map[] && UdpTotals(map[]) == map[];
  }
}
