/** send_multiple0: which frames of a batch go out, in what order, and what the caller is told. */
module Sending {
  import opened Bytes
  import opened Packet
  import opened Buffers
  import opened Ledger
  import opened TcpBook
  import opened UdpBook
  import opened Accounting
  import opened GroBatch
  import opened GroRun
  import opened Gro
  import opened GroReachable
  import opened Conservation
  import opened Frames

  const EBADFD: int := 77

  /** What a write to the device comes to. */
  datatype Reply = Wrote(n: nat) | Failed(code: int)

  datatype SendError = TooManyBuffers | GroFailed(e: GroError) | BadOffset | WriteFailed(code: int)

  /** The frames written so far, the bytes they count for, the last failure, and what put an end to it. */
  datatype Progress = Progress(written: seq<seq<byte>>, total: nat, failure: Option<int>, stop: Option<SendError>)

  /** Writing one more frame, unless something has put an end to it. */
  function Write(p: Progress, buf: Buf, offset: nat, reply: Reply): Progress {
    if p.stop.Some? then p
    else if offset > |buf.bytes| then p.(stop := Some(BadOffset))
    else
      var q := p.(written := p.written + [buf.bytes[offset..]]);
      match reply
      case Wrote(n) => q.(total := q.total + n)
      case Failed(code) => if code == EBADFD then q.(stop := Some(WriteFailed(code))) else q.(failure := Some(code))
  }

  predicate InRange(bufs: seq<Buf>, list: seq<nat>) {
    forall k :: 0 <= k < |list| ==> list[k] < |bufs|
  }

  /** Writing the first n of the listed frames; the k-th write comes to replies(k). */
  function WriteUpto(bufs: seq<Buf>, offset: nat, list: seq<nat>, replies: nat -> Reply, n: nat): (p: Progress)
    requires n <= |list| && InRange(bufs, list)
    ensures |p.written| <= n
  {
    if n == 0 then Progress([], 0, None, None)
    else
      var p := WriteUpto(bufs, offset, list, replies, n - 1);
      Write(p, bufs[list[n - 1]], offset, replies(|p.written|))
  }

  function WriteAll(bufs: seq<Buf>, offset: nat, list: seq<nat>, replies: nat -> Reply): Progress
    requires InRange(bufs, list)
  {
    WriteUpto(bufs, offset, list, replies, |list|)
  }

  /** What the caller is told. */
  function Told(p: Progress): Result<nat, SendError> {
    if p.stop.Some? then Err(p.stop.value)
    else if p.failure.Some? then Err(WriteFailed(p.failure.value))
    else Ok(p.total)
  }

  /** The bytes counted by the first n replies. */
  function Counted(replies: nat -> Reply, n: nat): nat {
    if n == 0 then 0 else Counted(replies, n - 1) + (if replies(n - 1).Wrote? then replies(n - 1).n else 0)
  }

  /** Nothing puts an end to the writing of the first n frames. */
  predicate Unstopped(bufs: seq<Buf>, offset: nat, list: seq<nat>, replies: nat -> Reply, n: nat)
    requires n <= |list| && InRange(bufs, list)
  {
    forall k :: 0 <= k < n ==> offset <= |bufs[list[k]].bytes| && replies(k) != Failed(EBADFD)
  }

  /** The frames written are the first of the list, as they are from offset on. */
  predicate InOrder(written: seq<seq<byte>>, bufs: seq<Buf>, offset: nat, list: seq<nat>)
    requires InRange(bufs, list)
  {
    && |written| <= |list|
    && forall k :: 0 <= k < |written| ==> offset <= |bufs[list[k]].bytes| && written[k] == bufs[list[k]].bytes[offset..]
  }

  lemma {:induction false} WrittenInOrder(bufs: seq<Buf>, offset: nat, list: seq<nat>, replies: nat -> Reply, n: nat)
    requires n <= |list| && InRange(bufs, list)
    ensures var p := WriteUpto(bufs, offset, list, replies, n);
            InOrder(p.written, bufs, offset, list) && (p.stop == None ==> |p.written| == n)
  {
    if n > 0 {
      WrittenInOrder(bufs, offset, list, replies, n - 1);
      var p := WriteUpto(bufs, offset, list, replies, n - 1);
      hide WriteUpto;
      WrittenNext(p, bufs, offset, list, n - 1, replies(|p.written|));
    }
  }

  lemma WrittenNext(p: Progress, bufs: seq<Buf>, offset: nat, list: seq<nat>, k: nat, reply: Reply)
    requires InRange(bufs, list) && k < |list|
    requires InOrder(p.written, bufs, offset, list) && (p.stop == None ==> |p.written| == k)
    ensures var q := Write(p, bufs[list[k]], offset, reply);
            InOrder(q.written, bufs, offset, list) && (q.stop == None ==> |q.written| == k + 1)
  {}

  predicate AllWrote(replies: nat -> Reply, n: nat) {
    forall k :: 0 <= k < n ==> replies(k).Wrote?
  }

  /**
   After k frames: whether anything has put an end to it, and if not, what has been counted and whether all went
   well.
   */
  predicate Tallied(p: Progress, bufs: seq<Buf>, offset: nat, list: seq<nat>, replies: nat -> Reply, k: nat)
    requires k <= |list| && InRange(bufs, list)
  {
    && (p.stop == None <==> Unstopped(bufs, offset, list, replies, k))
    && (p.stop == None ==>
          |p.written| == k && p.total == Counted(replies, k) && (p.failure == None <==> AllWrote(replies, k)))
  }

  lemma TalliedNext(p: Progress, bufs: seq<Buf>, offset: nat, list: seq<nat>, replies: nat -> Reply, k: nat,
                    reply: Reply)
    requires k < |list| && InRange(bufs, list) && Tallied(p, bufs, offset, list, replies, k)
    requires p.stop == None ==> reply == replies(k)
    ensures Tallied(Write(p, bufs[list[k]], offset, reply), bufs, offset, list, replies, k + 1)
  {
    assert AllWrote(replies, k + 1) <==> AllWrote(replies, k) && replies(k).Wrote?;
    assert Unstopped(bufs, offset, list, replies, k + 1) <==>
           Unstopped(bufs, offset, list, replies, k) && offset <= |bufs[list[k]].bytes| && replies(k) != Failed(EBADFD);
    hide AllWrote, Unstopped;
  }

  lemma {:induction false} StopsAndFailures(bufs: seq<Buf>, offset: nat, list: seq<nat>, replies: nat -> Reply, n: nat)
    requires n <= |list| && InRange(bufs, list)
    ensures Tallied(WriteUpto(bufs, offset, list, replies, n), bufs, offset, list, replies, n)
  {
    hide Write;
    if n == 0 {
      assert Unstopped(bufs, offset, list, replies, 0) && AllWrote(replies, 0);
    } else {
      StopsAndFailures(bufs, offset, list, replies, n - 1);
      var p := WriteUpto(bufs, offset, list, replies, n - 1);
      TalliedNext(p, bufs, offset, list, replies, n - 1, replies(|p.written|));
    }
  }

  /**
   Frames go out in the order of the list up to the first that is too short or whose write finds the descriptor
   in a bad state; other failures do not stop the rest, but success is told only if there was none.
   */
  lemma WritesInOrder(bufs: seq<Buf>, offset: nat, list: seq<nat>, replies: nat -> Reply)
    requires InRange(bufs, list)
    ensures var p := WriteAll(bufs, offset, list, replies);
            && InOrder(p.written, bufs, offset, list)
            && (Unstopped(bufs, offset, list, replies, |list|) ==> |p.written| == |list|)
            && (Told(p).Ok? <==> Unstopped(bufs, offset, list, replies, |list|) && AllWrote(replies, |list|))
            && (Told(p).Ok? ==> Told(p).value == Counted(replies, |list|))
  {
    hide WriteUpto, Unstopped, InOrder, Counted, AllWrote;
    WrittenInOrder(bufs, offset, list, replies, |list|);
    StopsAndFailures(bufs, offset, list, replies, |list|);
  }

  /** Frame k is the first that puts an end to the writing, for the reason given, and nothing is written after it. */
  predicate StoppedAt(p: Progress, bufs: seq<Buf>, offset: nat, list: seq<nat>, replies: nat -> Reply, k: nat)
    requires k < |list| && InRange(bufs, list)
  {
    && Unstopped(bufs, offset, list, replies, k)
    && if offset > |bufs[list[k]].bytes| then p.stop == Some(BadOffset) && |p.written| == k
       else replies(k) == Failed(EBADFD) && p.stop == Some(WriteFailed(EBADFD)) && |p.written| == k + 1
  }

  /** Write k is the last that failed. */
  predicate LastFailure(replies: nat -> Reply, n: nat, code: int, k: nat) {
    k < n && replies(k) == Failed(code) && forall j :: k < j < n ==> replies(j).Wrote?
  }

  /** What put an end to the writing of the first n frames, or which write failed last. */
  ghost predicate Explained(p: Progress, bufs: seq<Buf>, offset: nat, list: seq<nat>, replies: nat -> Reply, n: nat)
    requires n <= |list| && InRange(bufs, list)
  {
    && (p.stop.Some? ==> exists k :: 0 <= k < n && StoppedAt(p, bufs, offset, list, replies, k))
    && (p.stop == None && p.failure.Some? ==> exists k :: LastFailure(replies, n, p.failure.value, k))
  }

  lemma ExplainedNext(p: Progress, bufs: seq<Buf>, offset: nat, list: seq<nat>, replies: nat -> Reply, n: nat,
                      reply: Reply)
    requires n < |list| && InRange(bufs, list) && Explained(p, bufs, offset, list, replies, n)
    requires p.stop == None ==> Unstopped(bufs, offset, list, replies, n) && |p.written| == n && reply == replies(n)
    ensures Explained(Write(p, bufs[list[n]], offset, reply), bufs, offset, list, replies, n + 1)
  {
    hide Unstopped;
    var q := Write(p, bufs[list[n]], offset, reply);
    if p.stop == None && q.stop.Some? {
      assert StoppedAt(q, bufs, offset, list, replies, n);
    } else if q.stop == None && q.failure.Some? {
      if reply.Failed? {
        assert LastFailure(replies, n + 1, q.failure.value, n);
      } else {
        var k :| LastFailure(replies, n, p.failure.value, k);
        assert LastFailure(replies, n + 1, q.failure.value, k);
      }
    }
  }

  lemma {:induction false} WhyStopped(bufs: seq<Buf>, offset: nat, list: seq<nat>, replies: nat -> Reply, n: nat)
    requires n <= |list| && InRange(bufs, list)
    ensures Explained(WriteUpto(bufs, offset, list, replies, n), bufs, offset, list, replies, n)
  {
    hide Write, Unstopped, StoppedAt, LastFailure;
    if n > 0 {
      WhyStopped(bufs, offset, list, replies, n - 1);
      StopsAndFailures(bufs, offset, list, replies, n - 1);
      var p := WriteUpto(bufs, offset, list, replies, n - 1);
      hide Explained;
      ExplainedNext(p, bufs, offset, list, replies, n - 1, replies(|p.written|));
    }
  }

  /**
   What the caller is told when it is not success: the reason of the frame that put an end to it, or else the code of
   the last write that failed.
   */
  lemma ToldWhy(bufs: seq<Buf>, offset: nat, list: seq<nat>, replies: nat -> Reply)
    requires InRange(bufs, list)
    ensures var p := WriteAll(bufs, offset, list, replies);
            Told(p).Err? ==>
              || (exists k :: 0 <= k < |list| && StoppedAt(p, bufs, offset, list, replies, k)
                              && Told(p) == Err(p.stop.value))
              || (exists k, code :: LastFailure(replies, |list|, code, k) && Told(p) == Err(WriteFailed(code)))
  {
    hide WriteUpto, StoppedAt, LastFailure;
    WhyStopped(bufs, offset, list, replies, |list|);
  }

  /** How send_multiple0 ends. */
  ghost predicate SendOutcome(r: Result<nat, SendError>, written: seq<seq<byte>>, start: seq<Buf>, after: Batch,
                              offset: nat, vnetHdr: bool, udpGso: bool, replies: nat -> Reply)
  {
    if start == [] then r == Ok(0) && written == [] && after.bufs == []
    else if |start| > 0xFFFF then r == Err(TooManyBuffers) && written == [] && after.bufs == start
    else if !vnetHdr then
      && after.bufs == start && r == Told(WriteAll(start, offset, Upto(|start|), replies))
      && written == WriteAll(start, offset, Upto(|start|), replies).written
    else
      || (exists e :: GroOutcome(Err(e), start, offset, udpGso, after) && r == Err(GroFailed(e)) && written == [])
      || (&& GroOutcome(Ok(()), start, offset, udpGso, after) && offset >= VIRTIO_NET_HDR_LEN
          && InRange(after.bufs, after.toWrite)
          && var p := WriteAll(after.bufs, offset - VIRTIO_NET_HDR_LEN, after.toWrite, replies);
          r == Told(p) && written == p.written)
  }

  lemma ListedInRange(start: seq<Buf>, offset: nat, canUdpGro: bool, after: Batch)
    requires start != [] && GroOutcome(Ok(()), start, offset, canUdpGro, after)
    ensures offset >= VIRTIO_NET_HDR_LEN && |after.bufs| == |start|
    ensures InRange(after.bufs, after.toWrite)
  {
    hide Run, TcpFramesOk, UdpFramesOk, Balanced;
    TablesAgreeWithList(start, offset, canUdpGro, |start|);
    var ledger := RunBook(start, offset, canUdpGro, |start|);
    AccountedLen(Run(start, offset, canUdpGro, |start|), after.bufs, offset);
    BalancedLen(Run(start, offset, canUdpGro, |start|), offset, start, canUdpGro, ledger);
    forall k | 0 <= k < |after.toWrite| ensures after.toWrite[k] < |start| { assert after.toWrite[k] in after.toWrite; }
  }

  lemma UnitOk(r: Result<(), GroError>)
    requires r.Ok?
    ensures r == Ok(())
  {
    match r.value { case () => }
  }

  lemma AccountedLen(b: Batch, bufs': seq<Buf>, offset: nat)
    requires Accounted(b, bufs', offset)
    ensures |bufs'| == |b.bufs|
  {
    hide TcpFramesOk, UdpFramesOk;
  }

  lemma BalancedLen(b: Batch, offset: nat, start: seq<Buf>, canUdpGro: bool, ledger: Ledger)
    requires Balanced(b, offset, Packets(start, offset), start, canUdpGro, |start|, ledger)
    ensures |b.bufs| == |start|
  {
    BalancedCore(b, offset, Packets(start, offset), start, canUdpGro, |start|, ledger);
    hide Balanced, FlowBooked, UdpFlowBooked, OwnerKnown, WithinCapacity;
  }

  /** send_multiple0; what the k-th write comes to is up to the device. */
  method SendMultiple(bufs: array<Buf>, offset0: nat, table: GROTable, vnetHdr: bool, udpGso: bool,
                      replies: nat -> Reply)
    returns (r: Result<nat, SendError>, written: seq<seq<byte>>)
    requires WithinCapacity(bufs[..])
    modifies table, table.tcpGroTable, table.udpGroTable, bufs
    ensures SendOutcome(r, written, old(bufs[..]), table.State(bufs[..]), offset0, vnetHdr, udpGso, replies)
  {
    hide GroOutcome, Write;
    table.Reset();
    written := [];
    var offset := offset0;
    if bufs.Length == 0 { return Ok(0), []; }
    if bufs.Length > 0xFFFF { return Err(TooManyBuffers), []; }
    ghost var start := bufs[..];
    if vnetHdr {
      var done := HandleGro(bufs, offset, table, udpGso);
      if done.Err? { return Err(GroFailed(done.error)), []; }
      UnitOk(done);
      ListedInRange(start, offset, udpGso, table.State(bufs[..]));
      offset := offset - VIRTIO_NET_HDR_LEN;
    } else {
      for i := 0 to bufs.Length
        invariant table.toWrite == Upto(i) && bufs[..] == start
      {
        table.toWrite := table.toWrite + [i];
      }
    }
    r, written := WriteFrames(bufs, offset, table.toWrite, replies);
  }

  /** The writing loop. */
  method WriteFrames(bufs: array<Buf>, offset: nat, toWrite: seq<nat>, replies: nat -> Reply)
    returns (r: Result<nat, SendError>, written: seq<seq<byte>>)
    requires InRange(bufs[..], toWrite)
    ensures var p := WriteAll(bufs[..], offset, toWrite, replies); r == Told(p) && written == p.written
  {
    written := [];
    var total := 0;
    var err: Option<int> := None;
    for k := 0 to |toWrite|
      invariant WriteUpto(bufs[..], offset, toWrite, replies, k) == Progress(written, total, err, None)
    {
      if offset > |bufs[toWrite[k]].bytes| {
        StopsFor(bufs[..], offset, toWrite, replies, k + 1, |toWrite|);
        return Err(BadOffset), written;
      }
      var reply := replies(|written|);
      written := written + [bufs[toWrite[k]].bytes[offset..]];
      match reply {
        case Wrote(n) => total := total + n;
        case Failed(code) =>
          if code == EBADFD {
            StopsFor(bufs[..], offset, toWrite, replies, k + 1, |toWrite|);
            return Err(WriteFailed(code)), written;
          }
          err := Some(code);
      }
    }
    if err.Some? { return Err(WriteFailed(err.value)), written; }
    return Ok(total), written;
  }

  /** Once something has put an end to it, nothing more is written. */
  lemma {:induction false} StopsFor(bufs: seq<Buf>, offset: nat, list: seq<nat>, replies: nat -> Reply, n: nat, m: nat)
    requires n <= m <= |list| && InRange(bufs, list)
    requires WriteUpto(bufs, offset, list, replies, n).stop.Some?
    ensures WriteUpto(bufs, offset, list, replies, m) == WriteUpto(bufs, offset, list, replies, n)
    decreases m
  {
    if n < m { StopsFor(bufs, offset, list, replies, n, m - 1); }
  }

  /** With offload off and success told, every packet of the batch has been written as it is, in order. */
  lemma SendsPlain(r: Result<nat, SendError>, written: seq<seq<byte>>, start: seq<Buf>, after: Batch, offset: nat,
                   udpGso: bool, replies: nat -> Reply)
    requires SendOutcome(r, written, start, after, offset, false, udpGso, replies) && r.Ok?
    ensures |written| == |start| && after.bufs == start
    ensures forall k :: 0 <= k < |start| ==> offset <= |start[k].bytes| && written[k] == start[k].bytes[offset..]
  {
    hide WriteAll, GroOutcome, Unstopped, AllWrote, Upto, Told;
    if start != [] {
      var list := Upto(|start|);
      WritesInOrder(start, offset, list, replies);
      assert InOrder(written, start, offset, list) && |written| == |list|;
      forall k | 0 <= k < |start| ensures offset <= |start[k].bytes| && written[k] == start[k].bytes[offset..] {
        assert list[k] == k;
      }
    }
  }

  /**
   What goes out is the batch. With offload on and success told, the frames written are exactly those listed,
   each from its virtio header on, in order; reading them back gives all packets of the batch.
   */
  lemma SendsTheBatch(r: Result<nat, SendError>, written: seq<seq<byte>>, start: seq<Buf>, after: Batch, offset: nat,
                      udpGso: bool, replies: nat -> Reply)
    requires start != [] && WithinCapacity(start)
    requires SendOutcome(r, written, start, after, offset, true, udpGso, replies) && r.Ok?
    ensures Conserved(after.bufs, after.toWrite, start, offset, udpGso)
    ensures InRange(after.bufs, after.toWrite) && offset >= VIRTIO_NET_HDR_LEN && |written| == |after.toWrite|
    ensures InOrder(written, after.bufs, offset - VIRTIO_NET_HDR_LEN, after.toWrite)
  {
    hide GroOutcome, Conserved, Readable, WriteAll, WithinCapacity;
    BatchIsConserved(start, offset, udpGso, after);
    WritesInOrder(after.bufs, offset - VIRTIO_NET_HDR_LEN, after.toWrite, replies);
  }
}
