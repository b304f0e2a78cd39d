/** Writing a block of values into a larger one. */
module Sequences {

  /** `target` with `source` written over it at position `at`. */
  function Splice<T>(target: seq<T>, at: nat, source: seq<T>): (r: seq<T>)
    requires at + |source| <= |target|
    ensures |r| == |target|
    ensures forall a | 0 <= a < |r| :: r[a] == if at <= a < at + |source| then source[a - at] else target[a]
  {
    target[..at] + source + target[at + |source|..]
  }

  /** Two blocks written side by side are one block. */
  lemma SpliceTwice<T>(target: seq<T>, at: nat, a: seq<T>, b: seq<T>)
    requires at + |a| + |b| <= |target|
    ensures Splice(Splice(target, at, a), at + |a|, b) == Splice(target, at, a + b)
  {
  }

  lemma SpliceSlice<T>(target: seq<T>, at: nat, source: seq<T>, i: nat, j: nat)
    requires at + |source| <= |target| && i <= j <= |source|
    ensures Splice(target, at, source)[at + i..at + j] == source[i..j]
  {
  }

  lemma SliceOfSlice<T>(s: seq<T>, i: nat, j: nat, x: nat, y: nat)
    requires i <= j <= |s| && x <= y <= j - i
    ensures s[i..j][x..y] == s[i + x..i + y]
  {
    forall k | 0 <= k < y - x
      ensures s[i..j][x..y][k] == s[i + x..i + y][k]
    {
    }
  }

  lemma Regroup<T>(a: seq<T>, b: seq<T>, c: seq<T>)
    ensures (a + b) + c == a + (b + c)
  {
  }
}
