/** How kernels divide work: the shire-blocked tiles of et-k-rs/src/bin/sgemm.rs and the
    grid stride over a gapped shire mask of et-k-rs/src/bin/ps_math_test.rs. */
module WorkSplit {
  import Arith

  const MINIONS: nat := 32

  function DivCeil(n: nat, d: nat): (q: nat)
    requires d > 0
    ensures n <= q * d < n + d
  {
    (n + d - 1) / d
  }

  // --- Tiles -------------------------------------------------------------------

  /** The tiles `base + local`, for `local < end`, belong to one shire. */
  datatype Block = Block(base: nat, end: nat)

  function ShireBlock(tiles: nat, shires: nat, shire: nat): (b: Block)
    requires shires > 0
    ensures b.end > 0 ==> b.base + b.end <= tiles
  {
    var size := DivCeil(tiles, shires);
    var base := shire * size;
    var left := if base < tiles then tiles - base else 0;
    Block(base, if left < size then left else size)
  }

  /** The Minion's loop reaches the tile. */
  predicate Takes(tiles: nat, shires: nat, shire: nat, minion: nat, tile: nat)
    requires shires > 0
  {
    var b := ShireBlock(tiles, shires, shire);
    b.base <= tile < b.base + b.end && (tile - b.base) % MINIONS == minion
  }

  /** Every tile is taken by exactly one Minion of the launched shires. */
  lemma TileHasOneOwner(tiles: nat, shires: nat, tile: nat) returns (shire: nat, minion: nat)
    requires shires > 0 && tile < tiles
    ensures shire < shires && minion < MINIONS && Takes(tiles, shires, shire, minion, tile)
    ensures forall s: nat, m: nat | Takes(tiles, shires, s, m, tile) :: s == shire && m == minion
  {
    var size := DivCeil(tiles, shires);
    shire := tile / size;
    minion := (tile - shire * size) % MINIONS;
    Arith.DivModUnique(tile, size, shire, tile % size);
    if shire >= shires {
      Arith.MulMonotone(shires, shire, size);
    }
    forall s: nat, m: nat | Takes(tiles, shires, s, m, tile)
      ensures s == shire && m == minion
    {
      Arith.DivModUnique(tile, size, s, tile - s * size);
    }
  }

  // --- Grid stride over a shire mask ---------------------------------------------

  function Pow2(n: nat): (p: nat)
    ensures p > 0
  {
    if n == 0 then 1 else 2 * Pow2(n - 1)
  }

  /** `count_ones`. */
  function CountOnes(x: nat): nat {
    if x == 0 then 0 else x % 2 + CountOnes(x / 2)
  }

  function Bit(mask: nat, s: nat): nat {
    mask / Pow2(s) % 2
  }

  /** `(mask & (bit - 1)).count_ones()` for the bit of shire `s`: the launched shires below. */
  function ShiresBelow(mask: nat, s: nat): nat {
    CountOnes(mask % Pow2(s))
  }

  lemma HalfOfLow(x: nat, p: nat)
    requires p > 0
    ensures x % (2 * p) == x % 2 + 2 * (x / 2 % p) && x / (2 * p) == x / 2 / p
  {
    var q, r := x / 2 / p, x / 2 % p;
    assert x / 2 == p * q + r;
    assert x == (2 * p) * q + (x % 2 + 2 * r);
    Arith.DivModUnique(x, 2 * p, q, x % 2 + 2 * r);
  }

  lemma LowBits(mask: nat, s: nat)
    ensures mask % Pow2(s + 1) % 2 == mask % 2 && mask % Pow2(s + 1) / 2 == mask / 2 % Pow2(s)
    ensures Bit(mask, s + 1) == Bit(mask / 2, s)
  {
    HalfOfLow(mask, Pow2(s));
  }

  lemma {:induction false} NextShire(mask: nat, s: nat)
    ensures ShiresBelow(mask, s + 1) == ShiresBelow(mask, s) + Bit(mask, s)
    decreases s
  {
    LowBits(mask, s);
    if s == 0 {
      assert Pow2(0) == 1 && Pow2(1) == 2;
      assert CountOnes(mask % 2) == mask % 2;
    } else {
      LowBits(mask, s - 1);
      NextShire(mask / 2, s - 1);
      CountSplits(mask % Pow2(s + 1));
      CountSplits(mask % Pow2(s));
    }
  }

  lemma CountSplits(x: nat)
    ensures CountOnes(x) == x % 2 + CountOnes(x / 2)
  {
  }

  lemma {:induction false} BelowIsMonotone(mask: nat, s: nat, t: nat)
    requires s <= t
    ensures ShiresBelow(mask, s) <= ShiresBelow(mask, t)
    decreases t
  {
    if s < t {
      BelowIsMonotone(mask, s, t - 1);
      NextShire(mask, t - 1);
    }
  }

  /** Some launched shire has exactly `c` launched shires below it. */
  lemma {:induction false} ShireOfRank(mask: nat, c: nat, top: nat) returns (s: nat)
    requires c < ShiresBelow(mask, top)
    ensures s < top && Bit(mask, s) == 1 && ShiresBelow(mask, s) == c
    decreases top
  {
    if top > 0 {
      NextShire(mask, top - 1);
      if c < ShiresBelow(mask, top - 1) {
        s := ShireOfRank(mask, c, top - 1);
      } else {
        s := top - 1;
      }
    }
  }

  function Rank(mask: nat, shire: nat, minion: nat): nat {
    ShiresBelow(mask, shire) * MINIONS + minion
  }

  /** The primary hart of Minion `minion` of `shire` processes the unit. The mask has `width`
      bits, 32 in the launch arguments. */
  predicate Processes(width: nat, mask: nat, shire: nat, minion: nat, unit: nat) {
    && shire < width && minion < MINIONS && Bit(mask, shire) == 1
    && unit >= Rank(mask, shire, minion)
    && CountOnes(mask) > 0
    && (unit - Rank(mask, shire, minion)) % (CountOnes(mask) * MINIONS) == 0
  }

  lemma RankBelowCount(width: nat, mask: nat, shire: nat)
    requires mask < Pow2(width) && shire < width && Bit(mask, shire) == 1
    ensures ShiresBelow(mask, shire) < CountOnes(mask)
  {
    NextShire(mask, shire);
    BelowIsMonotone(mask, shire + 1, width);
    Arith.DivModUnique(mask, Pow2(width), 0, mask);
  }

  lemma RankIsUnique(mask: nat, s: nat, m: nat, s': nat, m': nat)
    requires m < MINIONS && m' < MINIONS && Bit(mask, s) == 1 && Bit(mask, s') == 1
    requires Rank(mask, s, m) == Rank(mask, s', m')
    ensures s == s' && m == m'
  {
    if s < s' {
      NextShire(mask, s);
      BelowIsMonotone(mask, s + 1, s');
    } else if s' < s {
      NextShire(mask, s');
      BelowIsMonotone(mask, s' + 1, s);
    }
  }

  /** `r` is where the stride that reaches `unit` starts exactly when it is the remainder. */
  lemma StrideStart(unit: nat, n: nat, r: nat)
    requires 0 < n && r < n
    ensures r <= unit && (unit - r) % n == 0 <==> unit % n == r
  {
    if r <= unit && (unit - r) % n == 0 {
      Arith.DivModUnique(unit, n, (unit - r) / n, r);
    } else if unit % n == r {
      Arith.DivModUnique(unit - r, n, unit / n, 0);
    }
  }

  lemma RankInRange(width: nat, mask: nat, shire: nat, minion: nat)
    requires mask < Pow2(width) && shire < width && Bit(mask, shire) == 1 && minion < MINIONS
    ensures Rank(mask, shire, minion) < CountOnes(mask) * MINIONS
  {
    RankBelowCount(width, mask, shire);
  }

  lemma ProcessesIff(width: nat, mask: nat, shire: nat, minion: nat, unit: nat)
    requires mask < Pow2(width) && shire < width && Bit(mask, shire) == 1 && minion < MINIONS
    ensures CountOnes(mask) > 0
    ensures Processes(width, mask, shire, minion, unit) <==>
            Rank(mask, shire, minion) == unit % (CountOnes(mask) * MINIONS)
  {
    RankInRange(width, mask, shire, minion);
    StrideStart(unit, CountOnes(mask) * MINIONS, Rank(mask, shire, minion));
  }

  /** For every non-empty mask of shires, gaps included, every unit is processed by exactly
      one Minion of the launched shires. */
  lemma UnitHasOneOwner(width: nat, mask: nat, unit: nat) returns (shire: nat, minion: nat)
    requires 0 < mask < Pow2(width)
    ensures Processes(width, mask, shire, minion, unit)
    ensures forall s: nat, m: nat | Processes(width, mask, s, m, unit) :: s == shire && m == minion
  {
    SomeBit(mask);
    Arith.DivModUnique(mask, Pow2(width), 0, mask);
    var r := unit % (CountOnes(mask) * MINIONS);
    shire := ShireOfRank(mask, r / MINIONS, width);
    minion := r % MINIONS;
    ProcessesIff(width, mask, shire, minion, unit);
    forall s: nat, m: nat | Processes(width, mask, s, m, unit)
      ensures s == shire && m == minion
    {
      ProcessesIff(width, mask, s, m, unit);
      RankIsUnique(mask, s, m, shire, minion);
    }
  }

  lemma {:induction false} SomeBit(mask: nat)
    requires mask > 0
    ensures CountOnes(mask) > 0
    decreases mask
  {
    if mask % 2 == 0 {
      SomeBit(mask / 2);
    }
  }

  /** The loop of one Minion, over `units` units. */
  method GridStride(width: nat, mask: nat, shire: nat, hart: nat, units: nat) returns (mine: seq<nat>)
    requires mask < Pow2(width)
    ensures forall u: nat :: u in mine <==> u < units && hart % 2 == 0 && Processes(width, mask, shire, hart % 64 / 2, u)
    ensures forall i, j | 0 <= i < j < |mine| :: mine[i] < mine[j]
  {
    mine := [];
    if hart % 2 != 0 || shire >= width || Bit(mask, shire) == 0 {
      return;
    }
    var minion := hart % 64 / 2;
    RankBelowCount(width, mask, shire);
    var n, rank := CountOnes(mask) * MINIONS, Rank(mask, shire, minion);
    var unit := rank;
    while unit < units
      invariant rank <= unit && (unit - rank) % n == 0
      invariant forall i | 0 <= i < |mine| ::
                  mine[i] < unit && mine[i] < units && Processes(width, mask, shire, minion, mine[i])
      invariant forall u: nat | u < unit && u < units && Processes(width, mask, shire, minion, u) :: u in mine
      invariant forall i, j | 0 <= i < j < |mine| :: mine[i] < mine[j]
      decreases units - unit
    {
      forall u: nat | unit < u < unit + n
        ensures !Processes(width, mask, shire, minion, u)
      {
        StrideGap(u - rank, unit - rank, n);
      }
      StrideStep(unit - rank, n);
      mine := mine + [unit];
      unit := unit + n;
    }
  }

  lemma StrideStep(x: nat, n: nat)
    requires n > 0 && x % n == 0
    ensures (x + n) % n == 0
  {
    Arith.DivModUnique(x + n, n, x / n + 1, 0);
  }

  lemma StrideGap(y: nat, x: nat, n: nat)
    requires n > 0 && x % n == 0 && x < y < x + n
    ensures y % n != 0
  {
    Arith.DivModUnique(y, n, x / n, y - x);
  }
}
