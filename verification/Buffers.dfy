/** Growable packet buffers and the verdicts GRO passes on them. */
module Buffers {
  import opened Bytes

  /** A growable byte buffer: its contents and the capacity it owns. */
  datatype Buf = Buf(bytes: seq<byte>, cap: nat)

  ghost predicate WithinCapacity(bufs: seq<Buf>) {
    forall j :: 0 <= j < |bufs| ==> |bufs[j].bytes| <= bufs[j].cap
  }

  /** buf_extend_from_slice within the capacity, so that nothing is reallocated. */
  function Extend(b: Buf, s: seq<byte>): (r: Buf)
    requires |b.bytes| + |s| <= b.cap
    ensures |r.bytes| <= r.cap
  {
    b.(bytes := b.bytes + s)
  }

  /** buf_resize to a longer length within the capacity. */
  function Grow(b: Buf, len: nat, v: byte): (r: Buf)
    requires |b.bytes| <= len <= b.cap
    ensures |r.bytes| <= r.cap
  {
    b.(bytes := b.bytes + seq(len - |b.bytes|, _ => v))
  }

  datatype CanCoalesce = Prepend | Unavailable | Append

  datatype CoalesceResult = InsufficientCap | PSHEnding | ItemInvalidCSum | PktInvalidCSum | Success

  datatype GroResult = Noop | TableInsert | Coalesced

  /** The capacities of the buffers. */
  function Caps(bufs: seq<Buf>): (r: seq<nat>)
    ensures |r| == |bufs|
  {
    seq(|bufs|, j requires 0 <= j < |bufs| => bufs[j].cap)
  }
}
