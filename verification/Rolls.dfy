/** Reading a sequence at given positions. */
module Rolls {
  /** The items of s at the given positions. */
  function At<T>(s: seq<T>, roll: seq<nat>): (r: seq<T>)
    requires forall m :: m in roll ==> m < |s|
    ensures |r| == |roll|
  {
    seq(|roll|, k requires 0 <= k < |roll| && roll[k] in roll => s[roll[k]])
  }

  lemma AtParts<T>(s: seq<T>, a: seq<nat>, b: seq<nat>)
    requires forall m :: m in a + b ==> m < |s|
    ensures forall m :: m in a ==> m < |s|
    ensures forall m :: m in b ==> m < |s|
    ensures At(s, a + b) == At(s, a) + At(s, b)
  {
    forall m | m in a ensures m < |s| { assert m in a + b; }
    forall m | m in b ensures m < |s| { assert m in a + b; }
  }

  lemma MultisetConcat<T>(a: seq<T>, b: seq<T>)
    ensures multiset(a + b) == multiset(a) + multiset(b)
  {}

  function Without<T>(s: seq<T>, i: nat): seq<T>
    requires i < |s|
  {
    s[..i] + s[i + 1..]
  }

  /** Leaving out position i leaves out one item. */
  lemma AtAround<T>(s: seq<T>, b: seq<nat>, i: nat)
    requires i < |b| && forall m :: m in b ==> m < |s|
    ensures forall m :: m in Without<nat>(b, i) ==> m < |s|
    ensures b[i] in b && multiset(At(s, b)) == multiset(At(s, Without<nat>(b, i))) + multiset{s[b[i]]}
    ensures multiset(b) == multiset(Without<nat>(b, i)) + multiset{b[i]}
  {
    hide At;
    var lo, x, hi := b[..i], [b[i]], b[i + 1..];
    assert b[i] in b;
    assert b == (lo + x) + hi;
    AtParts(s, lo + x, hi);
    AtParts(s, lo, x);
    forall m | m in lo + hi ensures m < |s| { assert m in b; }
    AtParts(s, lo, hi);
    AtOne(s, b[i]);
    MultisetConcat(lo, x);
    MultisetConcat(lo + x, hi);
    MultisetConcat(lo, hi);
    MultisetConcat(At(s, lo), At(s, x));
    MultisetConcat(At(s, lo) + At(s, x), At(s, hi));
    MultisetConcat(At(s, lo), At(s, hi));
  }

  lemma CancelOne<T>(x: multiset<T>, y: multiset<T>, e: T)
    requires x + multiset{e} == y + multiset{e}
    ensures x == y
  {
    assert x == x + multiset{e} - multiset{e};
    assert y == y + multiset{e} - multiset{e};
  }

  lemma WithoutShorter<T>(s: seq<T>, i: nat)
    requires i < |s|
    ensures |Without(s, i)| < |s|
  {}

  lemma AtOne<T>(s: seq<T>, m: nat)
    requires m < |s|
    ensures At(s, [m]) == [s[m]]
  {}

  /** Reading positions in another order reads the same items. */
  lemma {:induction false} AtPermuted<T>(s: seq<T>, a: seq<nat>, b: seq<nat>)
    requires multiset(a) == multiset(b) && forall m :: m in a ==> m < |s|
    ensures forall m :: m in b ==> m < |s|
    ensures multiset(At(s, a)) == multiset(At(s, b))
    decreases |a|
  {
    hide At, Without;
    forall m | m in b ensures m < |s| { assert m in multiset(b); assert m in a; }
    if a == [] {
      assert |multiset(b)| == 0;
      assert b == [];
    } else {
      var n := |a| - 1;
      assert a[n] in multiset(b);
      var i :| 0 <= i < |b| && b[i] == a[n];
      AtAround(s, a, n);
      AtAround(s, b, i);
      CancelOne(multiset(Without<nat>(a, n)), multiset(Without<nat>(b, i)), a[n]);
      assert |Without<nat>(a, n)| < |a| by { WithoutShorter(a, n); }
      AtPermuted(s, Without<nat>(a, n), Without<nat>(b, i));
    }
  }
}
