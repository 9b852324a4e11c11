/**
 The internet checksum of section 2 of RFC 1071, as the packet code accumulates it: 32-bit words
 are added into a 64-bit accumulator, in one of three ways, and the sum is folded to 16 bits.
 */
module Checksum {
  import opened Bytes

  // ----- What is computed -----

  /** The unfolded accumulator: 32-bit words, then one 16-bit word, then an odd byte as a high byte. */
  function Acc(b: seq<byte>, initial: nat): nat
    decreases |b|
  {
    if |b| >= 4 then Acc(b[4..], initial + Be32(b, 0))
    else if |b| >= 2 then Acc(b[2..], initial + Be16(b, 0))
    else if |b| == 1 then initial + b[0] as int * 0x100
    else initial
  }

  /** The end-around-carry fold to 16 bits. */
  function Fold(acc: nat): u16 {
    if acc > 0xFFFF then Fold(acc / 0x1_0000 + acc % 0x1_0000) else acc
  }

  /** The folded checksum of b, not complemented. */
  function Sum(b: seq<byte>, initial: nat): u16 {
    Fold(Acc(b, initial))
  }

  /** The complement that is written into a header. */
  function Not16(v: u16): u16 {
    0xFFFF - v
  }

  /** Accumulator over the pseudo-header: both addresses, then {zero, protocol, length}. */
  function PseudoAcc(protocol: byte, src: seq<byte>, dst: seq<byte>, length: u16): nat {
    Acc([0, protocol, length / 0x100, length % 0x100], Acc(dst, Acc(src, 0)))
  }

  // ----- The reference: one's-complement arithmetic over 16-bit words -----

  /** Sum of the big-endian 16-bit words of b, an odd last byte padded with zero. */
  function WordSum(b: seq<byte>): nat {
    if |b| == 0 then 0
    else if |b| == 1 then b[0] as int * 0x100
    else Be16(b, 0) + WordSum(b[2..])
  }

  /** Sum of the high halves of the 32-bit words of b. */
  function HighSum(b: seq<byte>): nat {
    if |b| < 4 then 0 else Be16(b, 0) + HighSum(b[4..])
  }

  lemma {:induction false} AccIsWordSum(b: seq<byte>, initial: nat)
    ensures Acc(b, initial) == initial + WordSum(b) + 0xFFFF * HighSum(b)
    decreases |b|
  {
    if |b| >= 4 {
      AccIsWordSum(b[4..], initial + Be32(b, 0));
      assert b[2..][2..] == b[4..];
      assert WordSum(b) == Be16(b, 0) + Be16(b, 2) + WordSum(b[4..]);
    } else if |b| >= 2 {
      AccIsWordSum(b[2..], initial + Be16(b, 0));
    }
  }

  lemma AccShift(b: seq<byte>, initial: nat)
    ensures Acc(b, initial) == initial + Acc(b, 0)
  {
    AccIsWordSum(b, initial);
    AccIsWordSum(b, 0);
  }

  /** The fold gives 0 for 0 and otherwise the representative in 1..65535 of its residue mod 65535. */
  lemma {:induction false} FoldResidue(acc: nat)
    ensures Fold(acc) == 0 <==> acc == 0
    ensures Fold(acc) % 0xFFFF == acc % 0xFFFF
    ensures acc > 0 ==> Fold(acc) == (acc - 1) % 0xFFFF + 1
  {
    if acc > 0xFFFF {
      var q, r := acc / 0x1_0000, acc % 0x1_0000;
      FoldResidue(q + r);
      assert acc == q * 0xFFFF + (q + r);
      AddMultiple(q + r, q);
      AddMultiple(q + r - 1, q);
    }
  }

  lemma {:induction false} AddMultiple(x: nat, q: nat)
    ensures (q * 0xFFFF + x) % 0xFFFF == x % 0xFFFF
  {
    if q > 0 {
      AddMultiple(x, q - 1);
      assert ((q - 1) * 0xFFFF + x + 0xFFFF) % 0xFFFF == ((q - 1) * 0xFFFF + x) % 0xFFFF;
    }
  }

  lemma {:induction false} WordSumZero(b: seq<byte>)
    ensures WordSum(b) == 0 <==> forall k :: 0 <= k < |b| ==> b[k] == 0
  {
    if |b| >= 2 {
      WordSumZero(b[2..]);
      assert forall k :: 2 <= k < |b| ==> b[k] == b[2..][k - 2];
    }
  }

  /**
   Section 2 of RFC 1071: adding 32-bit words and folding is the one's-complement sum of the
   16-bit words, whatever accumulator it starts from; it is zero for nothing but zeros.
   */
  lemma SumIsOnesComplement(b: seq<byte>, initial: nat)
    ensures Sum(b, initial) == 0 <==> initial == 0 && WordSum(b) == 0
    ensures Sum(b, initial) == 0 <==> initial == 0 && forall k :: 0 <= k < |b| ==> b[k] == 0
    ensures initial + WordSum(b) > 0 ==> Sum(b, initial) == (initial + WordSum(b) - 1) % 0xFFFF + 1
  {
    AccIsWordSum(b, initial);
    WordSumZero(b);
    FoldResidue(Acc(b, initial));
    if initial + WordSum(b) > 0 {
      AddMultiple(initial + WordSum(b) - 1, HighSum(b));
    } else {
      HighSumBelow(b);
    }
  }

  lemma {:induction false} HighSumBelow(b: seq<byte>)
    ensures HighSum(b) <= WordSum(b)
  {
    if |b| >= 4 {
      HighSumBelow(b[4..]);
      assert b[2..][2..] == b[4..];
    }
  }

  /** After a prefix of even length the sum goes on where the prefix left it. */
  lemma {:induction false} WordSumConcat(a: seq<byte>, b: seq<byte>)
    requires |a| % 2 == 0
    ensures WordSum(a + b) == WordSum(a) + WordSum(b)
  {
    if |a| == 0 {
      assert a + b == b;
    } else {
      WordSumConcat(a[2..], b);
      assert (a + b)[2..] == a[2..] + b;
    }
  }

  /** Checksums compose over concatenation at an even boundary. */
  lemma SumComposes(a: seq<byte>, b: seq<byte>, initial: nat)
    requires |a| % 2 == 0
    ensures Sum(b, Acc(a, initial)) == Sum(a + b, initial)
  {
    hide Acc, Sum, WordSum, HighSum;
    WordSumConcat(a, b);
    AccIsWordSum(a, initial);
    var w := initial + WordSum(a) + WordSum(b);
    SumIsOnesComplement(b, Acc(a, initial));
    SumIsOnesComplement(a + b, initial);
    if w == 0 {
      HighSumBelow(a);
    } else {
      AddMultiple(w - 1, HighSum(a));
    }
  }

  /**
   The 4-byte trailer gives the same sum as the whole pseudo-header: section 8.1 of RFC 8200
   (32-bit length, three zero bytes, next header) and section 3.1 of RFC 9293 (zero, protocol,
   16-bit length) for addresses of even length.
   */
  lemma PseudoHeaderSum(protocol: byte, src: seq<byte>, dst: seq<byte>, length: u16, b: seq<byte>)
    requires |src| % 2 == 0 && |dst| % 2 == 0
    ensures var v6 := src + dst + [0, 0, length / 0x100, length % 0x100] + [0, 0, 0, protocol];
            var v4 := src + dst + [0, protocol, length / 0x100, length % 0x100];
            Sum(b, PseudoAcc(protocol, src, dst, length)) == Sum(v6 + b, 0) == Sum(v4 + b, 0)
  {
    hide Sum, WordSum, HighSum, PseudoAcc;
    var trailer := [0, protocol, length / 0x100, length % 0x100];
    var wide := [0, 0, length / 0x100, length % 0x100] + [0, 0, 0, protocol];
    var v6 := src + dst + [0, 0, length / 0x100, length % 0x100] + [0, 0, 0, protocol];
    assert v6 == (src + dst) + wide;
    TrailerWords(protocol, length);
    WordSumConcat(src, dst);
    WordSumConcat(src + dst, trailer);
    WordSumConcat(src + dst, wide);
    PseudoWords(protocol, src, dst, length);
    HighSumBelow(src);
    HighSumBelow(dst);
    HighSumBelow(trailer);
    var h := HighSum(src) + HighSum(dst) + HighSum(trailer);
    SumAfter(src + dst + trailer, b, PseudoAcc(protocol, src, dst, length), h);
    SumAfter(v6, b, PseudoAcc(protocol, src, dst, length), h);
  }

  /** An accumulator congruent to the words of a prefix, and zero only with them, stands for the prefix. */
  lemma SumAfter(prefix: seq<byte>, b: seq<byte>, acc: nat, h: nat)
    requires |prefix| % 2 == 0 && acc == WordSum(prefix) + 0xFFFF * h && h <= WordSum(prefix)
    ensures Sum(b, acc) == Sum(prefix + b, 0)
  {
    hide Sum, WordSum, HighSum;
    var w := WordSum(prefix) + WordSum(b);
    WordSumConcat(prefix, b);
    SumIsOnesComplement(b, acc);
    SumIsOnesComplement(prefix + b, 0);
    if w > 0 { AddMultiple(w - 1, h); }
  }

  lemma TrailerWords(protocol: byte, length: u16)
    ensures WordSum([0, protocol, length / 0x100, length % 0x100]) == protocol as int + length as int
    ensures WordSum([0, 0, length / 0x100, length % 0x100] + [0, 0, 0, protocol]) == protocol as int + length as int
  {
    var size, zero, next := [length / 0x100, length % 0x100], [0, 0], [0, protocol];
    assert WordSum(size) == length && WordSum(zero) == 0 && WordSum(next) == protocol;
    assert [0, protocol, length / 0x100, length % 0x100] == next + size;
    assert [0, 0, length / 0x100, length % 0x100] + [0, 0, 0, protocol] == zero + (size + (zero + next));
    WordSumConcat(next, size);
    WordSumConcat(zero, next);
    WordSumConcat(size, zero + next);
    WordSumConcat(zero, size + (zero + next));
  }

  lemma PseudoWords(protocol: byte, src: seq<byte>, dst: seq<byte>, length: u16)
    ensures var trailer := [0, protocol, length / 0x100, length % 0x100];
            PseudoAcc(protocol, src, dst, length) ==
            WordSum(src) + WordSum(dst) + WordSum(trailer)
            + 0xFFFF * (HighSum(src) + HighSum(dst) + HighSum(trailer))
  {
    AccIsWordSum(src, 0);
    AccIsWordSum(dst, Acc(src, 0));
    AccIsWordSum([0, protocol, length / 0x100, length % 0x100], Acc(dst, Acc(src, 0)));
  }

  // ----- Writing a checksum field -----

  /** Changing an aligned 16-bit word changes the word sum by the difference. */
  lemma {:induction false} WordSumPut(b: seq<byte>, at: nat, v: u16)
    requires at % 2 == 0 && at + 2 <= |b|
    ensures WordSum(Put16(b, at, v)) == WordSum(b) - Be16(b, at) + v
  {
    var r := Put16(b, at, v);
    if at == 0 {
      assert r[2..] == b[2..];
    } else {
      WordSumPut(b[2..], at - 2, v);
      assert r[2..] == Put16(b[2..], at - 2, v);
      assert Be16(r, 0) == Be16(b, 0);
      assert Be16(b, at) == Be16(b[2..], at - 2);
    }
  }

  /** The sum as a residue: zero only for nothing but zeros, and congruent to the word sum. */
  lemma SumResidue(b: seq<byte>, initial: nat)
    ensures Sum(b, initial) == 0 <==> initial + WordSum(b) == 0
    ensures Sum(b, initial) % 0xFFFF == (initial + WordSum(b)) % 0xFFFF
    ensures Sum(b, initial) == 0xFFFF <==> initial + WordSum(b) > 0 && (initial + WordSum(b)) % 0xFFFF == 0
  {
    AccIsWordSum(b, initial);
    FoldResidue(Acc(b, initial));
    AddMultiple(initial + WordSum(b), HighSum(b));
    HighSumBelow(b);
  }

  /**
   A cleared, aligned field filled with the complement of the sum makes the whole sum 0xFFFF,
   when the verifying side starts from an accumulator congruent to the writing side's.
   */
  lemma ChecksumCompletes(b: seq<byte>, at: nat, written: nat, verified: nat)
    requires at % 2 == 0 && at + 2 <= |b| && Be16(b, at) == 0
    requires written % 0xFFFF == verified % 0xFFFF
    requires written == 0 <==> verified == 0
    ensures Sum(Put16(b, at, Not16(Sum(b, written))), verified) == 0xFFFF
  {
    var c := Sum(b, written);
    WordSumPut(b, at, Not16(c));
    SumResidue(b, written);
    SumResidue(Put16(b, at, Not16(c)), verified);
    Cancel(written, verified, WordSum(b), c);
  }

  lemma Cancel(x: nat, y: nat, w: nat, c: u16)
    requires x % 0xFFFF == y % 0xFFFF && c % 0xFFFF == (x + w) % 0xFFFF
    ensures (y + w + (0xFFFF - c)) % 0xFFFF == 0
  {
    var k := x / 0xFFFF - y / 0xFFFF;
    assert x - y == 0xFFFF * k;
    var m := (x + w) / 0xFFFF - c / 0xFFFF;
    assert x + w - c == 0xFFFF * m;
    assert y + w + (0xFFFF - c) == 0xFFFF * (m - k + 1);
  }

  // ----- The accumulation loops -----

  lemma AccWord(b: seq<byte>, initial: nat)
    requires |b| >= 4
    ensures Acc(b, initial) == Acc(b[4..], initial + Be32(b, 0))
  {}

  lemma AccPrefixWord(b: seq<byte>, at: nat, initial: nat)
    requires 4 <= at <= |b|
    ensures Acc(b[..at], initial) == Acc(b[4..][..at - 4], initial + Be32(b, 0))
  {
    hide Acc;
    AccWord(b[..at], initial);
    assert b[..at][4..] == b[4..][..at - 4];
  }

  lemma AccNone(b: seq<byte>, initial: nat)
    ensures Acc(b, initial) == Acc(b[0..], Acc(b[..0], initial))
  {
    assert b[0..] == b;
  }

  /** b's accumulator splits after a prefix of whole 32-bit words. */
  lemma {:induction false} AccSplit(b: seq<byte>, at: nat, initial: nat)
    requires at % 4 == 0 && at <= |b|
    ensures Acc(b, initial) == Acc(b[at..], Acc(b[..at], initial))
    decreases at
  {
    hide Acc, Be32;
    if at == 0 {
      AccNone(b, initial);
    } else {
      AccWord(b, initial);
      AccPrefixWord(b, at, initial);
      AccSplit(b[4..], at - 4, initial + Be32(b, 0));
      assert b[4..][at - 4..] == b[at..];
    }
  }

  /** A prefix never sums to more than the whole, so no intermediate value overflows if the last does not. */
  lemma {:induction false} AccGrows(b: seq<byte>, initial: nat)
    ensures initial <= Acc(b, initial)
  {
    AccIsWordSum(b, initial);
  }

  /** checksum_no_fold_scalar; the accumulator must not outgrow 64 bits. */
  method ChecksumNoFoldScalar(b: seq<byte>, initial: u64) returns (accumulator: u64)
    requires Acc(b, initial) < 0x1_0000_0000_0000_0000
    ensures accumulator == Acc(b, initial)
  {
    accumulator := initial;
    var rest := b;
    while |rest| >= 4
      invariant Acc(rest, accumulator) == Acc(b, initial)
      decreases |rest|
    {
      AccGrows(rest[4..], accumulator + Be32(rest, 0));
      accumulator := accumulator + Be32(rest, 0);
      rest := rest[4..];
    }
    if |rest| >= 2 {
      AccGrows(rest[2..], accumulator + Be16(rest, 0));
      accumulator := accumulator + Be16(rest, 0);
      rest := rest[2..];
    }
    if |rest| > 0 {
      accumulator := accumulator + rest[0] as int * 0x100;
    }
  }

  /** The byte order the shuffle mask selects inside each 128-bit lane, lowest byte first. */
  const SHUFFLE_MASK: seq<nat> := [3, 2, 1, 0, 7, 6, 5, 4, 11, 10, 9, 8, 15, 14, 13, 12]

  /** A byte shuffle of one 128-bit lane. */
  function Shuffle(lane: seq<byte>): (r: seq<byte>)
    requires |lane| == 16
    ensures |r| == 16
    ensures forall k :: 0 <= k < 16 ==> r[k] == lane[SHUFFLE_MASK[k]]
  {
    seq(16, k requires 0 <= k < 16 => lane[SHUFFLE_MASK[k]])
  }

  /** The k-th 32-bit lane of a register, least significant byte first, widened to 64 bits. */
  function Widen(lane: seq<byte>, k: nat): u64
    requires |lane| == 16 && k < 4
  {
    lane[4 * k] as int + lane[4 * k + 1] as int * 0x100
    + lane[4 * k + 2] as int * 0x1_0000 + lane[4 * k + 3] as int * 0x100_0000
  }

  /** Swapping the bytes of a 32-bit lane turns it into the big-endian word in memory. */
  lemma ShuffledWord(lane: seq<byte>, k: nat)
    requires |lane| == 16 && k < 4
    ensures Widen(Shuffle(lane), k) == Be32(lane, 4 * k)
  {
    var s := Shuffle(lane);
    var m := SHUFFLE_MASK;
    assert m[4 * k] == 4 * k + 3 && m[4 * k + 1] == 4 * k + 2 by { assert k == 0 || k == 1 || k == 2 || k == 3; }
    assert m[4 * k + 2] == 4 * k + 1 && m[4 * k + 3] == 4 * k by { assert k == 0 || k == 1 || k == 2 || k == 3; }
    assert s[4 * k] == lane[4 * k + 3] && s[4 * k + 1] == lane[4 * k + 2];
    assert s[4 * k + 2] == lane[4 * k + 1] && s[4 * k + 3] == lane[4 * k];
  }

  lemma LaneWords(lane: seq<byte>)
    requires |lane| == 16
    ensures Acc(lane, 0) == Be32(lane, 0) + Be32(lane, 4) + Be32(lane, 8) + Be32(lane, 12)
  {
    var l1, l2, l3 := lane[4..], lane[8..], lane[12..];
    assert l1[4..] == l2 && l2[4..] == l3 && l3[4..] == [];
    AccShift(l1, Be32(lane, 0));
    AccShift(l2, Be32(l1, 0));
    AccShift(l3, Be32(l2, 0));
    assert Acc(l3, 0) == Be32(l3, 0);
  }

  /** Loads one 128-bit lane, shuffles it and widens its four words. */
  method LoadWords(lane: seq<byte>) returns (w0: u64, w1: u64, w2: u64, w3: u64)
    requires |lane| == 16
    ensures w0 + w1 + w2 + w3 == Acc(lane, 0)
  {
    var swapped := Shuffle(lane);
    ShuffledWord(lane, 0);
    ShuffledWord(lane, 1);
    ShuffledWord(lane, 2);
    ShuffledWord(lane, 3);
    LaneWords(lane);
    w0, w1, w2, w3 := Widen(swapped, 0), Widen(swapped, 1), Widen(swapped, 2), Widen(swapped, 3);
  }

  /** A lane adds its own sum to that of what lies before it, and the two stay within the final sum. */
  lemma AddLane(b: seq<byte>, at: nat, initial: nat)
    requires at % 4 == 0 && at + 16 <= |b|
    ensures Acc(b[..at + 16], 0) == Acc(b[..at], 0) + Acc(b[at..at + 16], 0)
    ensures initial + Acc(b[..at + 16], 0) <= Acc(b, initial)
  {
    AccSplit(b[..at + 16], at, 0);
    assert b[..at + 16][at..] == b[at..at + 16] && b[..at + 16][..at] == b[..at];
    AccShift(b[at..at + 16], Acc(b[..at], 0));
    AccPrefixBelow(b, at + 16, initial);
  }

  /** What is summed of a prefix, on top of initial, is at most the final sum. */
  lemma AccPrefixBelow(b: seq<byte>, at: nat, initial: nat)
    requires at % 4 == 0 && at <= |b|
    ensures initial + Acc(b[..at], 0) <= Acc(b, initial)
  {
    AccSplit(b, at, initial);
    AccShift(b[..at], initial);
    AccGrows(b[at..], Acc(b[..at], initial));
  }

  /** checksum_no_fold_avx2: two 128-bit lanes a chunk, four 64-bit sums. */
  method ChecksumNoFoldAvx2(b: seq<byte>, initial: u64) returns (r: u64)
    requires Acc(b, initial) < 0x1_0000_0000_0000_0000
    ensures r == Acc(b, initial)
  {
    AccPrefixBelow(b, 0, initial);
    assert Acc(b[..0], 0) == 0;
    hide Acc;
    var accumulator: u64 := initial;
    var at := 0;
    if |b| >= 32 {
      var sum0: u64, sum1: u64, sum2: u64, sum3: u64 := 0, 0, 0, 0;
      while |b| - at >= 32
        invariant 0 <= at <= |b| && at % 4 == 0
        invariant sum0 + sum1 + sum2 + sum3 == Acc(b[..at], 0)
        invariant initial + Acc(b[..at], 0) <= Acc(b, initial)
      {
        AddLane(b, at, initial);
        AddLane(b, at + 16, initial);
        var lower0, lower1, lower2, lower3 := LoadWords(b[at..at + 16]);
        sum0, sum1, sum2, sum3 := sum0 + lower0, sum1 + lower1, sum2 + lower2, sum3 + lower3;
        var upper0, upper1, upper2, upper3 := LoadWords(b[at + 16..at + 32]);
        sum0, sum1, sum2, sum3 := sum0 + upper0, sum1 + upper1, sum2 + upper2, sum3 + upper3;
        at := at + 32;
      }
      accumulator := accumulator + sum0;
      accumulator := accumulator + sum1;
      accumulator := accumulator + sum2;
      accumulator := accumulator + sum3;
    }
    AccSplit(b, at, initial);
    AccShift(b[..at], initial);
    r := ChecksumNoFoldScalar(b[at..], accumulator);
  }

  /** checksum_no_fold_sse41: one 128-bit lane a chunk, two 64-bit sums over its low and high halves. */
  method ChecksumNoFoldSse41(b: seq<byte>, initial: u64) returns (r: u64)
    requires Acc(b, initial) < 0x1_0000_0000_0000_0000
    ensures r == Acc(b, initial)
  {
    AccPrefixBelow(b, 0, initial);
    assert Acc(b[..0], 0) == 0;
    hide Acc;
    var accumulator: u64 := initial;
    var at := 0;
    if |b| >= 16 {
      var sum0: u64, sum1: u64 := 0, 0;
      while |b| - at >= 16
        invariant 0 <= at <= |b| && at % 4 == 0
        invariant sum0 + sum1 == Acc(b[..at], 0)
        invariant initial + Acc(b[..at], 0) <= Acc(b, initial)
      {
        AddLane(b, at, initial);
        var low0, low1, high0, high1 := LoadWords(b[at..at + 16]);
        sum0, sum1 := sum0 + low0, sum1 + low1;
        sum0, sum1 := sum0 + high0, sum1 + high1;
        at := at + 16;
      }
      accumulator := accumulator + sum0;
      accumulator := accumulator + sum1;
    }
    AccSplit(b, at, initial);
    AccShift(b[..at], initial);
    r := ChecksumNoFoldScalar(b[at..], accumulator);
  }

  /** The instruction sets the dispatcher looks for. */
  datatype Cpu = Avx2 | Sse41 | Plain

  /** checksum_no_fold: the result does not depend on the processor. */
  method ChecksumNoFold(cpu: Cpu, b: seq<byte>, initial: u64) returns (r: u64)
    requires Acc(b, initial) < 0x1_0000_0000_0000_0000
    ensures r == Acc(b, initial)
  {
    match cpu {
      case Avx2 => r := ChecksumNoFoldAvx2(b, initial);
      case Sse41 => r := ChecksumNoFoldSse41(b, initial);
      case Plain => r := ChecksumNoFoldScalar(b, initial);
    }
  }

  /** checksum: accumulate, then fold; the fold loop terminates. */
  method ComputeChecksum(cpu: Cpu, b: seq<byte>, initial: u64) returns (r: u16)
    requires Acc(b, initial) < 0x1_0000_0000_0000_0000
    ensures r == Sum(b, initial)
  {
    var accumulator: nat := ChecksumNoFold(cpu, b, initial);
    while accumulator > 0xFFFF
      invariant Fold(accumulator) == Sum(b, initial)
    {
      accumulator := accumulator / 0x1_0000 + accumulator % 0x1_0000;
    }
    r := accumulator;
  }

  /** Every packet fits: 64 bits are enough for 2^16 bytes on top of a 48-bit start. */
  lemma {:induction false} AccFits(b: seq<byte>, initial: nat)
    ensures Acc(b, initial) <= initial + 0x4000_0000 * (|b| + 3)
    decreases |b|
  {
    if |b| >= 4 {
      AccFits(b[4..], initial + Be32(b, 0));
    } else if |b| >= 2 {
      AccFits(b[2..], initial + Be16(b, 0));
    }
  }
}
