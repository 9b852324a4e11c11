/** Bytes, fixed-width integers and big-endian fields, as the packet code reads and writes them. */
module Bytes {
  type byte = b: int | 0 <= b < 0x100
  type u16 = n: int | 0 <= n < 0x1_0000
  type u32 = n: int | 0 <= n < 0x1_0000_0000
  type u64 = n: int | 0 <= n < 0x1_0000_0000_0000_0000

  datatype Option<+T> = None | Some(value: T)
  datatype Result<+T, +E> = Ok(value: T) | Err(error: E)

  /** BigEndian::read_u16. */
  function Be16(b: seq<byte>, at: nat): u16
    requires at + 2 <= |b|
  {
    b[at] as int * 0x100 + b[at + 1] as int
  }

  /** BigEndian::read_u32. */
  function Be32(b: seq<byte>, at: nat): u32
    requires at + 4 <= |b|
  {
    Be16(b, at) as int * 0x1_0000 + Be16(b, at + 2) as int
  }

  /** BigEndian::write_u16: only the two bytes of the field change. */
  function Put16(b: seq<byte>, at: nat, v: u16): (r: seq<byte>)
    requires at + 2 <= |b|
    ensures |r| == |b| && Be16(r, at) == v
    ensures forall k :: 0 <= k < |b| && k != at && k != at + 1 ==> r[k] == b[k]
  {
    b[at := v / 0x100][at + 1 := v % 0x100]
  }

  /** BigEndian::write_u32: only the four bytes of the field change. */
  function Put32(b: seq<byte>, at: nat, v: u32): (r: seq<byte>)
    requires at + 4 <= |b|
    ensures |r| == |b| && Be32(r, at) == v
    ensures forall k :: 0 <= k < |b| && !(at <= k < at + 4) ==> r[k] == b[k]
  {
    Put16(Put16(b, at, v / 0x1_0000), at + 2, v % 0x1_0000)
  }

  /** Overwrites b from position at on with s. */
  function Splice(b: seq<byte>, at: nat, s: seq<byte>): (r: seq<byte>)
    requires at + |s| <= |b|
    ensures |r| == |b| && r[at..at + |s|] == s
    ensures forall k :: 0 <= k < |b| && !(at <= k < at + |s|) ==> r[k] == b[k]
  {
    b[..at] + s + b[at + |s|..]
  }

  /** The pieces of parts, one after the other. */
  function Concat<T>(parts: seq<seq<T>>): seq<T> {
    if parts == [] then [] else parts[0] + Concat(parts[1..])
  }

  lemma {:induction false} ConcatAppend<T>(parts: seq<seq<T>>, last: seq<T>)
    ensures Concat(parts + [last]) == Concat(parts) + last
  {
    if parts == [] {
      assert parts + [last] == [last];
      assert [last][1..] == [];
    } else {
      ConcatAppend(parts[1..], last);
      assert (parts + [last])[1..] == parts[1..] + [last];
    }
  }

  lemma ConcatPrepend<T>(first: seq<T>, parts: seq<seq<T>>)
    ensures Concat([first] + parts) == first + Concat(parts)
  {
    assert ([first] + parts)[1..] == parts;
  }

  /**
   Pieces of one size g, save for a last piece of at most g, are recovered by cutting their
   concatenation every g bytes.
   */
  ghost predicate Uniform<T>(parts: seq<seq<T>>, g: nat) {
    && parts != [] && g > 0
    && (forall k :: 0 <= k < |parts| - 1 ==> |parts[k]| == g)
    && 1 <= |parts[|parts| - 1]| <= g
  }

  lemma UniformRest<T>(parts: seq<seq<T>>, g: nat)
    requires Uniform(parts, g) && |parts| > 1
    ensures Uniform(parts[1..], g) && |parts[0]| == g && Concat(parts) == parts[0] + Concat(parts[1..])
  {
    assert forall i :: 0 <= i < |parts| - 2 ==> parts[1..][i] == parts[i + 1];
  }

  lemma {:induction false} UniformLen<T>(parts: seq<seq<T>>, g: nat)
    requires Uniform(parts, g)
    ensures |Concat(parts)| == (|parts| - 1) * g + |parts[|parts| - 1]|
  {
    if |parts| == 1 {
      assert parts[1..] == [];
    } else {
      UniformRest(parts, g);
      UniformLen(parts[1..], g);
      hide Concat, Uniform;
      Distribute(|parts| - 2, g);
    }
  }

  lemma {:induction false} CutConcat<T>(parts: seq<seq<T>>, g: nat, k: nat)
    requires Uniform(parts, g) && k < |parts|
    ensures |Concat(parts)| == (|parts| - 1) * g + |parts[|parts| - 1]|
    ensures k * g + |parts[k]| <= |Concat(parts)|
    ensures Concat(parts)[k * g..k * g + |parts[k]|] == parts[k]
  {
    UniformLen(parts, g);
    if |parts| == 1 {
      assert parts[1..] == [];
      assert k * g == 0;
    } else {
      UniformRest(parts, g);
      var rest := parts[1..];
      if k == 0 {
        assert k * g == 0;
      } else {
        CutConcat(rest, g, k - 1);
        hide Concat, Uniform;
        Distribute(k - 1, g);
        CutShift(parts[0], Concat(rest), (k - 1) * g, (k - 1) * g + |rest[k - 1]|);
      }
    }
  }

  lemma Distribute(k: int, g: int)
    ensures (k + 1) * g == k * g + g
  {}

  lemma MulMono(a: int, b: int, g: nat)
    requires a <= b
    ensures a * g <= b * g
  {}

  lemma CutShift<T>(head: seq<T>, tail: seq<T>, lo: nat, hi: nat)
    requires lo <= hi <= |tail|
    ensures (head + tail)[|head| + lo..|head| + hi] == tail[lo..hi]
  {}

  lemma SameSlice<T>(a: seq<T>, b: seq<T>, lo: nat, hi: nat)
    requires lo <= hi <= |a| && hi <= |b|
    requires forall at :: lo <= at < hi ==> a[at] == b[at]
    ensures a[lo..hi] == b[lo..hi]
  {
    forall k | 0 <= k < hi - lo ensures a[lo..hi][k] == b[lo..hi][k] {
      assert a[lo + k] == b[lo + k];
    }
  }
}
