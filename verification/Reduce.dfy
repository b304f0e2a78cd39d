/** The reduction of et-k-rs/src/bin/reduce.rs: each hart sums its slice of a `Grid`, and the
    host adds up the partial sums. */
module Reduce {
  import Arith

  const U32_END: nat := 0x1_0000_0000
  const U64_END: nat := 0x1_0000_0000_0000_0000

  type U32 = n: nat | n < U32_END

  /** `Grid::range`: the half-open range of hart `h` of `p` in a domain of length `n`. */
  function Range(h: nat, p: nat, n: nat): (r: (nat, nat)) {
    if h >= p then (n, n)
    else
      var base, rem := n / p, n % p;
      var start := h * base + (if h < rem then h else rem);
      (start, start + base + (if h < rem then 1 else 0))
  }

  /** The slices follow one another without gap, from the start of the domain to its end,
      and their lengths differ by at most one. */
  lemma RangesPartition(h: nat, p: nat, n: nat)
    requires h < p
    ensures Range(h, p, n).0 <= Range(h, p, n).1 <= n
    ensures h == 0 ==> Range(h, p, n).0 == 0
    ensures Range(h, p, n).1 == Range(h + 1, p, n).0
    ensures n / p <= Range(h, p, n).1 - Range(h, p, n).0 <= n / p + 1
  {
    var base, rem := n / p, n % p;
    Arith.Distribute(h, 1, base);
    Arith.MulMonotone(h + 1, p, base);
    assert n == p * base + rem;
    if h + 1 == p {
      assert (h + 1) * base == p * base;
    }
  }

  lemma StartsAtZero(p: nat, n: nat)
    requires p > 0
    ensures Range(0, p, n).0 == 0
  {
    RangesPartition(0, p, n);
  }

  lemma {:induction false} RangesAscend(g: nat, h: nat, p: nat, n: nat)
    requires g <= h <= p
    ensures Range(g, p, n).0 <= Range(h, p, n).0
    decreases h
  {
    if g < h {
      RangesAscend(g, h - 1, p, n);
      RangesPartition(h - 1, p, n);
    }
  }

  lemma {:induction false} HartOf(k: nat, p: nat, n: nat, upTo: nat) returns (h: nat)
    requires 0 < upTo <= p && k < Range(upTo, p, n).0
    ensures h < upTo && Range(h, p, n).0 <= k < Range(h, p, n).1
    decreases upTo
  {
    RangesPartition(upTo - 1, p, n);
    StartsAtZero(p, n);
    hide Range;
    if k < Range(upTo - 1, p, n).0 {
      h := HartOf(k, p, n, upTo - 1);
    } else {
      h := upTo - 1;
    }
  }

  /** Every element of the domain belongs to exactly one hart. */
  lemma ElementHasOneHart(k: nat, p: nat, n: nat) returns (h: nat)
    requires 0 < p && k < n
    ensures h < p && Range(h, p, n).0 <= k < Range(h, p, n).1
    ensures forall g: nat | g < p && Range(g, p, n).0 <= k < Range(g, p, n).1 :: g == h
  {
    h := HartOf(k, p, n, p);
    forall g: nat | g < p && Range(g, p, n).0 <= k < Range(g, p, n).1
      ensures g == h
    {
      RangesPartition(g, p, n);
      RangesPartition(h, p, n);
      hide Range;
      if g < h {
        RangesAscend(g + 1, h, p, n);
      } else if h < g {
        RangesAscend(h + 1, g, p, n);
      }
    }
  }

  // --- Sums ---------------------------------------------------------------------------

  function Sum(s: seq<U32>): nat
    decreases |s|
  {
    if s == [] then 0 else Sum(s[..|s| - 1]) + s[|s| - 1]
  }

  lemma {:induction false} SumIsSmall(s: seq<U32>)
    ensures Sum(s) <= |s| * (U32_END - 1)
    decreases |s|
  {
    if s != [] {
      SumIsSmall(s[..|s| - 1]);
    }
  }

  lemma {:induction false} SumSplits(s: seq<U32>, k: nat)
    requires k <= |s|
    ensures Sum(s) == Sum(s[..k]) + Sum(s[k..])
    decreases |s|
  {
    if k == |s| {
      assert s[..k] == s && s[k..] == [];
    } else {
      var t := s[..|s| - 1];
      SumSplits(t, k);
      assert t[..k] == s[..k] && s[k..][..|s| - k - 1] == t[k..];
    }
  }

  /** One hart's slice, summed in 64 bits, which never wraps. */
  method Partial(input: seq<U32>, h: nat, p: nat) returns (partial: nat)
    requires |input| < U32_END && h < p
    ensures Range(h, p, |input|).0 <= Range(h, p, |input|).1 <= |input|
    ensures partial == Sum(input[Range(h, p, |input|).0..Range(h, p, |input|).1]) < U64_END
  {
    RangesPartition(h, p, |input|);
    var slice := input[Range(h, p, |input|).0..Range(h, p, |input|).1];
    hide Range;
    SumIsSmall(slice);
    partial := 0;
    for i := 0 to |slice|
      invariant partial == Sum(slice[..i]) < U64_END
    {
      assert slice[..i + 1][..i] == slice[..i];
      SumIsSmall(slice[..i + 1]);
      partial := (partial + slice[i]) % U64_END;
    }
    assert slice[..|slice|] == slice;
  }

  /** The kernel on every hart, and the host's wrapping sum of their output cells: the exact
      sum of any array of fewer than 2^32 elements. */
  method Reduce(input: seq<U32>, p: nat) returns (total: nat)
    requires |input| < U32_END && 0 < p
    ensures total == Sum(input)
  {
    total := 0;
    StartsAtZero(p, |input|);
    hide Range;
    for h := 0 to p
      invariant Range(h, p, |input|).0 <= |input|
      invariant total == Sum(input[..Range(h, p, |input|).0])
    {
      var partial := Partial(input, h, p);
      RangesPartition(h, p, |input|);
      var mid, end := Range(h, p, |input|).0, Range(h, p, |input|).1;
      SumSplits(input[..end], mid);
      assert input[..end][..mid] == input[..mid] && input[..end][mid..] == input[mid..end];
      SumIsSmall(input[..end]);
      total := (total + partial) % U64_END;
    }
    RangesEnd(p, |input|);
    assert input[..|input|] == input;
  }

  lemma RangesEnd(p: nat, n: nat)
    ensures Range(p, p, n).0 == n
  {
  }
}
