/** The tensor GEMM kernel of et-k-rs/src/bin/sgemm.rs over exact integers. Addresses and
    strides count 32-bit words, so the 64-byte rows of the tensor unit are 16 words. */
module Gemm {
  import Arith
  import WorkSplit
  import opened Sequences

  const TILE: nat := 16
  const MINIONS: nat := WorkSplit.MINIONS

  /** A row-major matrix in device memory whose rows are `stride` words apart. */
  datatype Matrix = Matrix(base: nat, stride: nat, rows: nat, cols: nat) {
    function End(): nat {
      base + rows * stride
    }

    predicate Inside(p: nat) {
      base <= p < End()
    }

    function Start(i: nat): (p: nat)
      requires i < rows
      ensures base <= p && p + stride <= End()
    {
      Arith.MulMonotone(i + 1, rows, stride);
      base + i * stride
    }

    /** Element `j` of row `i`, which may lie in the padding of the row. */
    function Word(i: nat, j: nat): (p: nat)
      requires i < rows && j < stride
      ensures base <= p < End()
    {
      Start(i) + j
    }

    /** Distinct elements are distinct words. */
    lemma WordsApart(i: nat, j: nat, i': nat, j': nat)
      requires i < rows && j < stride && i' < rows && j' < stride && Word(i, j) == Word(i', j')
      ensures i == i' && j == j'
    {
      Arith.DivModUnique(i * stride + j, stride, i, j);
      Arith.DivModUnique(i' * stride + j', stride, i', j');
    }

    predicate Aligned() {
      base % TILE == 0 && stride % TILE == 0
    }
  }

  /** What the kernel may rely on: the host has checked and allocated all three matrices. */
  datatype Args = Args(m: nat, n: nat, k: nat, a: Matrix, b: Matrix, c: Matrix, shires: nat) {
    predicate Valid(size: nat) {
      && 1 <= m && 1 <= n && 1 <= k && 1 <= shires
      && a.rows == m && a.cols == k && b.rows == k && b.cols == n && c.rows == m && c.cols == n
      && a.Aligned() && b.Aligned() && c.Aligned()
      && k <= a.stride && n <= b.stride && n <= c.stride
      && a.End() <= size && b.End() <= size && c.End() <= size
      && (a.End() <= c.base || c.End() <= a.base)
      && (b.End() <= c.base || c.End() <= b.base)
    }

    function TilesN(): (r: nat)
      ensures 1 <= n ==> TILE * (r - 1) < n <= TILE * r
    {
      (n + TILE - 1) / TILE
    }

    function TilesM(): (r: nat)
      ensures 1 <= m ==> TILE * (r - 1) < m <= TILE * r
    {
      (m + TILE - 1) / TILE
    }
  }

  // --- The product ---------------------------------------------------------------

  /** Sum over the first `n` columns of A of A[i][t] * B[t][j]. */
  function Dot(g: Args, memory: seq<int>, i: nat, j: nat, n: nat): int
    requires g.Valid(|memory|) && i < g.m && j < g.b.stride && n <= g.k
    decreases n
  {
    if n == 0 then 0
    else Dot(g, memory, i, j, n - 1) + memory[g.a.Word(i, n - 1)] * memory[g.b.Word(n - 1, j)]
  }

  /** A and B are the same in both memories. */
  predicate SameInputs(g: Args, memory: seq<int>, memory': seq<int>) {
    && |memory| == |memory'|
    && (forall p | 0 <= p < |memory| && (g.a.Inside(p) || g.b.Inside(p)) :: memory[p] == memory'[p])
  }

  lemma {:induction false} DotDependsOnInputs(g: Args, memory: seq<int>, memory': seq<int>, i: nat, j: nat, n: nat)
    requires g.Valid(|memory|) && i < g.m && j < g.b.stride && n <= g.k && SameInputs(g, memory, memory')
    ensures Dot(g, memory, i, j, n) == Dot(g, memory', i, j, n)
    decreases n
  {
    hide Matrix.Start, Matrix.End;
    if n > 0 {
      DotDependsOnInputs(g, memory, memory', i, j, n - 1);
    }
  }

  // --- Any interleaving of the Minions ---------------------------------------------

  /** One 64-byte store of the tensor unit: row `i` of C, the 16 columns of tile column `t`. */
  datatype Row = Row(i: nat, t: nat) {
    predicate In(g: Args) {
      i < g.m && t < g.TilesN()
    }
  }

  /** A tile column lies within the padded rows of B and C. */
  lemma TileInStride(g: Args, size: nat, t: nat)
    requires g.Valid(size) && t < g.TilesN()
    ensures TILE * t + TILE <= g.b.stride && TILE * t + TILE <= g.c.stride
  {
    PadToTile(g.n, g.b.stride, t);
    PadToTile(g.n, g.c.stride, t);
  }

  /** A multiple of 16 that is above `16 * t` is at least `16 * t + 16`. */
  lemma PadToTile(n: nat, stride: nat, t: nat)
    requires TILE * t < n <= stride && stride % TILE == 0
    ensures TILE * t + TILE <= stride
  {
  }

  function RowValues(g: Args, memory: seq<int>, e: Row): (r: seq<int>)
    requires g.Valid(|memory|) && e.In(g)
    ensures |r| == TILE
    ensures forall j | TILE * e.t <= j < TILE * e.t + TILE ::
              j < g.b.stride && r[j - TILE * e.t] == Dot(g, memory, e.i, j, g.k)
  {
    TileInStride(g, |memory|, e.t);
    seq(TILE, x requires 0 <= x < TILE => Dot(g, memory, e.i, TILE * e.t + x, g.k))
  }

  function RowAddress(g: Args, size: nat, e: Row): (p: nat)
    requires g.Valid(size) && e.In(g)
    ensures g.c.base <= p && p + TILE <= g.c.End() <= size
  {
    TileInStride(g, size, e.t);
    assert g.c.Word(e.i, TILE * e.t + TILE - 1) == g.c.Word(e.i, TILE * e.t) + TILE - 1;
    g.c.Word(e.i, TILE * e.t)
  }

  lemma RowWord(g: Args, size: nat, e: Row, j: nat)
    requires g.Valid(size) && e.In(g) && TILE * e.t <= j < TILE * e.t + TILE
    ensures j < g.c.stride && g.c.Word(e.i, j) == RowAddress(g, size, e) + (j - TILE * e.t)
  {
    TileInStride(g, size, e.t);
  }

  /** A word of C belongs to one row of one tile. */
  lemma SameRow(g: Args, size: nat, d: Row, e: Row, p: nat)
    requires g.Valid(size) && d.In(g) && e.In(g)
    requires RowAddress(g, size, d) <= p < RowAddress(g, size, d) + TILE
    requires RowAddress(g, size, e) <= p < RowAddress(g, size, e) + TILE
    ensures d == e
  {
    var j, l := TILE * d.t + (p - RowAddress(g, size, d)), TILE * e.t + (p - RowAddress(g, size, e));
    RowWord(g, size, d, j);
    RowWord(g, size, e, l);
    g.c.WordsApart(d.i, j, e.i, l);
  }

  function StoreRow(g: Args, memory: seq<int>, e: Row): (r: seq<int>)
    requires g.Valid(|memory|)
    ensures |r| == |memory|
  {
    if e.In(g) then Splice(memory, RowAddress(g, |memory|, e), RowValues(g, memory, e)) else memory
  }

  /** The memory after the stores of `log`, in that order. */
  function Exec(g: Args, memory: seq<int>, log: seq<Row>): (r: seq<int>)
    requires g.Valid(|memory|)
    ensures |r| == |memory|
    decreases |log|
  {
    if log == [] then memory else Exec(g, StoreRow(g, memory, log[0]), log[1..])
  }

  lemma {:induction false} ExecAppends(g: Args, memory: seq<int>, a: seq<Row>, b: seq<Row>)
    requires g.Valid(|memory|)
    ensures Exec(g, memory, a + b) == Exec(g, Exec(g, memory, a), b)
    decreases |a|
  {
    if a == [] {
      assert a + b == b;
    } else {
      assert (a + b)[0] == a[0] && (a + b)[1..] == a[1..] + b;
      ExecAppends(g, StoreRow(g, memory, a[0]), a[1..], b);
    }
  }

  lemma ExecOne(g: Args, memory: seq<int>, log: seq<Row>, e: Row)
    requires g.Valid(|memory|)
    ensures Exec(g, memory, log + [e]) == StoreRow(g, Exec(g, memory, log), e)
  {
    ExecAppends(g, memory, log, [e]);
    assert Exec(g, Exec(g, memory, log), [e]) == StoreRow(g, Exec(g, memory, log), e);
  }

  /** No store touches anything outside C. */
  lemma {:induction false} ExecStaysInC(g: Args, memory: seq<int>, log: seq<Row>)
    requires g.Valid(|memory|)
    ensures forall p | 0 <= p < |memory| && !g.c.Inside(p) :: Exec(g, memory, log)[p] == memory[p]
    ensures SameInputs(g, memory, Exec(g, memory, log))
    decreases |log|
  {
    if log != [] {
      ExecStaysInC(g, StoreRow(g, memory, log[0]), log[1..]);
    }
  }

  /** Row `e` of the product of A and B as they are in `memory` is in place in `now`. */
  predicate Stored(g: Args, memory: seq<int>, now: seq<int>, e: Row)
    requires g.Valid(|memory|) && e.In(g) && |now| == |memory|
  {
    var p := RowAddress(g, |memory|, e);
    now[p..p + TILE] == RowValues(g, memory, e)
  }

  lemma RowsApart(g: Args, size: nat, d: Row, e: Row)
    requires g.Valid(size) && d.In(g) && e.In(g)
    ensures
      var p, q := RowAddress(g, size, d), RowAddress(g, size, e);
      d == e || p + TILE <= q || q + TILE <= p
  {
    var p, q := RowAddress(g, size, d), RowAddress(g, size, e);
    if p <= q < p + TILE {
      SameRow(g, size, d, e, q);
    } else if q <= p < q + TILE {
      SameRow(g, size, d, e, p);
    }
  }

  lemma RowValuesDependOnInputs(g: Args, memory: seq<int>, memory': seq<int>, e: Row)
    requires |memory| == |memory'| && g.Valid(|memory|) && e.In(g) && SameInputs(g, memory, memory')
    ensures RowValues(g, memory, e) == RowValues(g, memory', e)
  {
    hide Args.Valid, SameInputs, Dot;
    var r, r' := RowValues(g, memory, e), RowValues(g, memory', e);
    forall x | 0 <= x < TILE
      ensures r[x] == r'[x]
    {
      var j := TILE * e.t + x;
      TileInStride(g, |memory|, e.t);
      Bounded(g, |memory|, e);
      assert r[j - TILE * e.t] == Dot(g, memory, e.i, j, g.k);
      assert r'[j - TILE * e.t] == Dot(g, memory', e.i, j, g.k);
      DotDependsOnInputs(g, memory, memory', e.i, j, g.k);
    }
  }

  lemma Bounded(g: Args, size: nat, e: Row)
    requires g.Valid(size) && e.In(g)
    ensures e.i < g.m && e.t < g.TilesN() && g.a.rows == g.m
  {
  }

  lemma StoreKeepsStored(g: Args, memory: seq<int>, now: seq<int>, d: Row, e: Row)
    requires g.Valid(|memory|) && e.In(g) && SameInputs(g, memory, now)
    requires d == e || Stored(g, memory, now, e)
    ensures Stored(g, memory, StoreRow(g, now, d), e)
  {
    hide Matrix.Start, Matrix.End;
    RowValuesDependOnInputs(g, memory, now, e);
    if d.In(g) {
      RowsApart(g, |memory|, d, e);
      hide Args.Valid, SameInputs, Dot, RowAddress, RowValues;
      var p, q := RowAddress(g, |memory|, d), RowAddress(g, |memory|, e);
      var after := StoreRow(g, now, d);
      if d == e {
        assert after[q..q + TILE] == RowValues(g, now, e);
      } else {
        assert after[q..q + TILE] == now[q..q + TILE];
      }
    }
  }

  lemma {:induction false} ExecStores(g: Args, memory: seq<int>, now: seq<int>, log: seq<Row>, e: Row)
    requires g.Valid(|memory|) && e.In(g) && SameInputs(g, memory, now)
    requires e in log || Stored(g, memory, now, e)
    ensures Stored(g, memory, Exec(g, now, log), e)
    decreases |log|
  {
    if log != [] {
      if log[0] == e || Stored(g, memory, now, e) {
        StoreKeepsStored(g, memory, now, log[0], e);
      }
      ExecStaysInC(g, now, [log[0]]);
      assert Exec(g, now, [log[0]]) == StoreRow(g, now, log[0]);
      ExecStores(g, memory, StoreRow(g, now, log[0]), log[1..], e);
    }
  }

  /** Whatever the order in which the rows of all tiles are stored, and however often, C
      ends up as the product of A and B, and nothing outside C has changed. */
  lemma ProductInAnyOrder(g: Args, memory: seq<int>, log: seq<Row>)
    requires g.Valid(|memory|)
    requires forall e: Row | e.In(g) :: e in log
    ensures forall i, j | 0 <= i < g.m && 0 <= j < g.n ::
              Exec(g, memory, log)[g.c.Word(i, j)] == Dot(g, memory, i, j, g.k)
    ensures forall p | 0 <= p < |memory| && !g.c.Inside(p) :: Exec(g, memory, log)[p] == memory[p]
  {
    hide Matrix.Start, Matrix.End;
    var final := Exec(g, memory, log);
    ExecStaysInC(g, memory, log);
    forall i, j | 0 <= i < g.m && 0 <= j < g.n
      ensures final[g.c.Word(i, j)] == Dot(g, memory, i, j, g.k)
    {
      var e := Row(i, j / TILE);
      ExecStores(g, memory, memory, log, e);
      StoredElement(g, memory, final, e, j);
      hide Exec, Stored, Dot;
    }
  }

  lemma StoredElement(g: Args, memory: seq<int>, now: seq<int>, e: Row, j: nat)
    requires g.Valid(|memory|) && e.In(g) && |now| == |memory| && Stored(g, memory, now, e)
    requires TILE * e.t <= j < TILE * e.t + TILE
    ensures j < g.b.stride && j < g.c.stride && now[g.c.Word(e.i, j)] == Dot(g, memory, e.i, j, g.k)
  {
    RowWord(g, |memory|, e, j);
    hide Matrix.Start, Matrix.End, RowAddress, RowValues, Dot;
    var p := RowAddress(g, |memory|, e);
    assert now[p..p + TILE][j - TILE * e.t] == RowValues(g, memory, e)[j - TILE * e.t];
  }

  // --- One Minion --------------------------------------------------------------------

  type Lines = seq<seq<int>>

  predicate Shape(lines: Lines, n: nat) {
    |lines| == n && forall i | 0 <= i < n :: |lines[i]| == TILE
  }

  /** What the tensor unit adds to one element: the first `n` products of a row of A and a
      column of B. */
  function PartialDot(row: seq<int>, b: Lines, j: nat, n: nat): int
    requires |row| == TILE && Shape(b, TILE) && j < TILE && n <= TILE
    decreases n
  {
    if n == 0 then 0 else PartialDot(row, b, j, n - 1) + row[n - 1] * b[n - 1][j]
  }

  class Dram {
    var words: seq<int>

    constructor (words: seq<int>)
      ensures this.words == words
    {
      this.words := words;
    }
  }

  /** The tensor unit of one Minion: its scratchpad lines, its TenB registers, and the 16 x 16
      accumulator in its floating-point registers. */
  class TensorUnit {
    var scratchpad: Lines
    var tenB: Lines
    var accumulator: Lines

    predicate Valid()
      reads this
    {
      Shape(scratchpad, 48) && Shape(tenB, TILE) && Shape(accumulator, TILE)
    }

    constructor ()
      ensures Valid()
    {
      scratchpad := seq(48, _ => seq(TILE, _ => 0));
      tenB := seq(TILE, _ => seq(TILE, _ => 0));
      accumulator := seq(TILE, _ => seq(TILE, _ => 0));
    }

    /** `tensor_load`: 64 bytes from each of `rows + 1` addresses, which must lie within `x`. */
    method Load(dram: Dram, address: nat, start: nat, rows: nat, stride: nat, ghost x: Matrix)
      requires Valid() && x.End() <= |dram.words|
      requires address % TILE == 0 && stride % TILE == 0 && rows < TILE && start + rows < 48
      requires forall i | 0 <= i <= rows :: RowWithin(x, address, stride, i)
      modifies this`scratchpad
      ensures Valid()
      ensures forall i | 0 <= i <= rows ::
                RowWithin(x, address, stride, i) && scratchpad[start + i] == Line(old(dram.words), RowAt(address, stride, i))
    {
      for i := 0 to rows + 1
        invariant Valid()
        invariant forall l | 0 <= l < i ::
                    && RowWithin(x, address, stride, l)
                    && scratchpad[start + l] == Line(dram.words, RowAt(address, stride, l))
      {
        assert RowWithin(x, address, stride, i);
        scratchpad := scratchpad[start + i := Line(dram.words, RowAt(address, stride, i))];
      }
    }

    /** `tensor_load_b`. */
    method LoadB(dram: Dram, address: nat, rows: nat, stride: nat, ghost x: Matrix)
      requires Valid() && x.End() <= |dram.words|
      requires address % TILE == 0 && stride % TILE == 0 && rows < TILE
      requires forall i | 0 <= i <= rows :: RowWithin(x, address, stride, i)
      modifies this`tenB
      ensures Valid()
      ensures forall i | 0 <= i <= rows ::
                RowWithin(x, address, stride, i) && tenB[i] == Line(old(dram.words), RowAt(address, stride, i))
    {
      for i := 0 to rows + 1
        invariant Valid()
        invariant forall l | 0 <= l < i ::
                    RowWithin(x, address, stride, l) && tenB[l] == Line(dram.words, RowAt(address, stride, l))
      {
        assert RowWithin(x, address, stride, i);
        tenB := tenB[i := Line(dram.words, RowAt(address, stride, i))];
      }
    }

    /** `tensor_fma32` with 16 output columns and B in TenB: rows beyond `arows` are left
        alone, and `mulOnly` ignores what was accumulated before. */
    method Fma32(arows: nat, acols: nat, astart: nat, mulOnly: bool)
      requires Valid() && arows < TILE && acols < TILE && astart + arows < 48
      modifies this`accumulator
      ensures Valid()
      ensures forall i, j | 0 <= i <= arows && 0 <= j < TILE ::
                accumulator[i][j] == (if mulOnly then 0 else old(accumulator[i][j]))
                                     + PartialDot(scratchpad[astart + i], tenB, j, acols + 1)
    {
      for i := 0 to arows + 1
        invariant Valid()
        invariant forall l | i <= l < TILE :: accumulator[l] == old(accumulator[l])
        invariant forall l, j | 0 <= l < i && 0 <= j < TILE ::
                    accumulator[l][j] == (if mulOnly then 0 else old(accumulator[l][j]))
                                         + PartialDot(scratchpad[astart + l], tenB, j, acols + 1)
      {
        var row := seq(TILE, j requires 0 <= j < TILE && Valid() reads this =>
          (if mulOnly then 0 else accumulator[i][j]) + PartialDot(scratchpad[astart + i], tenB, j, acols + 1));
        accumulator := accumulator[i := row];
      }
    }
  }

  /** The 64 bytes at word `p`. */
  function Line(words: seq<int>, p: nat): (r: seq<int>)
    requires p + TILE <= |words|
    ensures |r| == TILE
  {
    words[p..p + TILE]
  }

  /** The address at which the tensor unit is pointed to reach row `r`, column `c` of `x`. */
  function Access(x: Matrix, r: nat, c: nat): nat {
    x.base + r * x.stride + c
  }

  function RowAt(address: nat, stride: nat, i: nat): nat {
    address + i * stride
  }

  /** The 64 bytes of row `i` of a tensor access lie within the allocation of `x`. */
  predicate RowWithin(x: Matrix, address: nat, stride: nat, i: nat) {
    x.base <= RowAt(address, stride, i) && RowAt(address, stride, i) + TILE <= x.End()
  }

  lemma Along(x: Matrix, i: nat, j: nat, d: nat)
    requires i < x.rows && j + d < x.stride
    ensures x.Word(i, j + d) == x.Word(i, j) + d
  {
  }

  /** Where a tensor access that starts at row `r`, column `c` of `x` finds its `i`-th row. */
  lemma RowOfMatrix(x: Matrix, r: nat, c: nat, i: nat)
    requires r + i < x.rows && c + TILE <= x.stride
    ensures RowAt(Access(x, r, c), x.stride, i) == x.Word(r + i, c)
    ensures RowWithin(x, Access(x, r, c), x.stride, i)
  {
    Arith.Distribute(r, i, x.stride);
    assert x.Start(r + i) + x.stride <= x.End();
  }

  lemma TileAddressAligned(x: Matrix, r: nat, c: nat)
    requires x.Aligned() && c % TILE == 0
    ensures Access(x, r, c) % TILE == 0
  {
    Arith.MultipleOf(r, x.stride, TILE);
    SumAligned(x.base, r * x.stride, c);
  }

  lemma SumAligned(a: nat, b: nat, c: nat)
    requires a % TILE == 0 && b % TILE == 0 && c % TILE == 0
    ensures (a + b + c) % TILE == 0
  {
  }

  /** The first `n` lines of `b` are the rows of B from `start`, at columns `c` to `c + 15`. */
  predicate SliceOfB(g: Args, words: seq<int>, c: nat, start: nat, n: nat, b: Lines)
    requires g.Valid(|words|) && start + n <= g.k && c + TILE <= g.b.stride
  {
    && Shape(b, TILE) && n <= TILE
    && forall r | start <= r < start + n ::
         g.b.Word(r, c) + TILE <= |words| && b[r - start] == Line(words, g.b.Word(r, c))
  }

  lemma SliceShorter(g: Args, words: seq<int>, c: nat, start: nat, n: nat, b: Lines)
    requires g.Valid(|words|) && start + n + 1 <= g.k && c + TILE <= g.b.stride && SliceOfB(g, words, c, start, n + 1, b)
    ensures SliceOfB(g, words, c, start, n, b)
  {
  }

  lemma TermOfB(g: Args, memory: seq<int>, at: seq<int>, c: nat, j: nat, start: nat, n: nat, t: nat, b: Lines)
    requires |at| == |memory| && g.Valid(|memory|) && SameInputs(g, memory, at)
    requires start + n <= g.k && c + TILE <= g.b.stride && j < TILE && t < n
    requires SliceOfB(g, at, c, start, n, b)
    ensures b[t][j] == memory[g.b.Word(start + t, c + j)]
  {
    hide Matrix.Start, Matrix.End;
    Along(g.b, start + t, c, j);
    assert b[(start + t) - start] == Line(at, g.b.Word(start + t, c));
  }

  lemma TermOfA(g: Args, memory: seq<int>, at: seq<int>, i: nat, start: nat, t: nat, row: seq<int>)
    requires |at| == |memory| && g.Valid(|memory|) && SameInputs(g, memory, at)
    requires i < g.m && start + t < g.k && t < TILE && start + TILE <= g.a.stride
    requires g.a.Word(i, start) + TILE <= |at| && row == Line(at, g.a.Word(i, start))
    ensures row[t] == memory[g.a.Word(i, start + t)]
  {
    hide Matrix.Start, Matrix.End;
    Along(g.a, i, start, t);
  }

  /** One k-slice: the tensor unit adds to each element the next `n` terms of its sum. */
  lemma {:induction false} SliceAdds(g: Args, memory: seq<int>, atA: seq<int>, atB: seq<int>, i: nat, c: nat, j: nat,
                                     start: nat, n: nat, row: seq<int>, b: Lines)
    requires |atA| == |atB| == |memory| && g.Valid(|memory|)
    requires SameInputs(g, memory, atA) && SameInputs(g, memory, atB)
    requires i < g.m && c + TILE <= g.b.stride && j < TILE && start + n <= g.k && n <= TILE && start + TILE <= g.a.stride
    requires g.a.Word(i, start) + TILE <= |atA| && row == Line(atA, g.a.Word(i, start))
    requires Shape(b, TILE) && SliceOfB(g, atB, c, start, n, b)
    ensures Dot(g, memory, i, c + j, start + n) == Dot(g, memory, i, c + j, start) + PartialDot(row, b, j, n)
    decreases n
  {
    hide SliceOfB, SameInputs, Line, Matrix.Start, Matrix.End;
    if n > 0 {
      var t := n - 1;
      SliceShorter(g, atB, c, start, t, b);
      SliceAdds(g, memory, atA, atB, i, c, j, start, t, row, b);
      TermOfA(g, memory, atA, i, start, t, row);
      TermOfB(g, memory, atB, c, j, start, n, t, b);
      assert start + n - 1 == start + t;
    }
  }

  lemma TileRowExists(g: Args, size: nat, tileRow: nat)
    requires g.Valid(size) && tileRow < g.TilesM()
    ensures TILE * tileRow < g.m
  {
  }

  /** `actual_m - 1`, the ROWS field for a tile row that may be partial. */
  function LastRow(g: Args, tileRow: nat): (r: nat)
    requires TILE * tileRow < g.m
    ensures r < TILE && TILE * tileRow + r < g.m
  {
    (if g.m - TILE * tileRow < TILE then g.m - TILE * tileRow else TILE) - 1
  }

  /** The tensor unit holds the sums over the first `n` columns of A for one tile of C. */
  predicate Accumulated(g: Args, memory: seq<int>, acc: Lines, tileRow: nat, tileCol: nat, n: nat)
    requires g.Valid(|memory|) && tileRow < g.TilesM() && tileCol < g.TilesN() && n <= g.k && Shape(acc, TILE)
  {
    TileInStride(g, |memory|, tileCol);
    forall i, j | 0 <= i <= LastRow(g, tileRow) && 0 <= j < TILE ::
      acc[i][j] == Dot(g, memory, TILE * tileRow + i, TILE * tileCol + j, n)
  }

  /** Where the `kTile`-th slice of 16 columns of A, which may be partial, ends. */
  function SliceEnd(g: Args, kTile: nat): (n: nat)
    requires TILE * kTile < g.k
    ensures TILE * kTile < n <= g.k && n <= TILE * kTile + TILE
    ensures n < g.k ==> n == TILE * (kTile + 1)
  {
    if g.k - TILE * kTile < TILE then g.k else TILE * kTile + TILE
  }

  /** The load of a tile of A is aligned and within the allocation of A. */
  lemma LoadAWithin(g: Args, size: nat, tileRow: nat, kTile: nat)
    requires g.Valid(size) && tileRow < g.TilesM() && TILE * kTile < g.k
    ensures TILE * tileRow < g.m && g.a.End() <= size
    ensures Access(g.a, TILE * tileRow, TILE * kTile) % TILE == 0 && g.a.stride % TILE == 0
    ensures forall i | 0 <= i <= LastRow(g, tileRow) ::
              RowWithin(g.a, Access(g.a, TILE * tileRow, TILE * kTile), g.a.stride, i)
  {
    hide Access, RowAt, RowWithin, Matrix.Start, Matrix.End;
    PadToTile(g.k, g.a.stride, kTile);
    TileAddressAligned(g.a, TILE * tileRow, TILE * kTile);
    forall i | 0 <= i <= LastRow(g, tileRow)
      ensures RowWithin(g.a, Access(g.a, TILE * tileRow, TILE * kTile), g.a.stride, i)
    {
      RowOfMatrix(g.a, TILE * tileRow, TILE * kTile, i);
    }
  }

  /** The load of a tile of B is aligned and within the allocation of B. */
  lemma LoadBWithin(g: Args, size: nat, tileCol: nat, kTile: nat)
    requires g.Valid(size) && tileCol < g.TilesN() && TILE * kTile < g.k
    ensures g.b.End() <= size
    ensures Access(g.b, TILE * kTile, TILE * tileCol) % TILE == 0 && g.b.stride % TILE == 0
    ensures forall i | 0 <= i < SliceEnd(g, kTile) - TILE * kTile ::
              RowWithin(g.b, Access(g.b, TILE * kTile, TILE * tileCol), g.b.stride, i)
  {
    hide Access, RowAt, RowWithin, Matrix.Start, Matrix.End;
    TileInStride(g, size, tileCol);
    TileAddressAligned(g.b, TILE * kTile, TILE * tileCol);
    forall i | 0 <= i < SliceEnd(g, kTile) - TILE * kTile
      ensures RowWithin(g.b, Access(g.b, TILE * kTile, TILE * tileCol), g.b.stride, i)
    {
      RowOfMatrix(g.b, TILE * kTile, TILE * tileCol, i);
    }
  }

  /** The first lines of the scratchpad are the rows of A of a tile, at the columns of a slice. */
  predicate SliceOfA(g: Args, words: seq<int>, tileRow: nat, kTile: nat, scratchpad: Lines)
    requires g.Valid(|words|) && TILE * tileRow < g.m && TILE * kTile + TILE <= g.a.stride && Shape(scratchpad, 48)
  {
    forall r | TILE * tileRow <= r <= TILE * tileRow + LastRow(g, tileRow) ::
      && g.a.Word(r, TILE * kTile) + TILE <= |words|
      && scratchpad[r - TILE * tileRow] == Line(words, g.a.Word(r, TILE * kTile))
  }

  lemma LoadIsSliceOfA(g: Args, words: seq<int>, tileRow: nat, kTile: nat, scratchpad: Lines)
    requires g.Valid(|words|) && TILE * tileRow < g.m && TILE * kTile < g.k && Shape(scratchpad, 48)
    requires
      forall i | 0 <= i <= LastRow(g, tileRow) ::
        var address := Access(g.a, TILE * tileRow, TILE * kTile);
        && RowWithin(g.a, address, g.a.stride, i) && g.a.End() <= |words|
        && scratchpad[i] == Line(words, RowAt(address, g.a.stride, i))
    ensures TILE * kTile + TILE <= g.a.stride && SliceOfA(g, words, tileRow, kTile, scratchpad)
  {
    PadToTile(g.k, g.a.stride, kTile);
    hide Access, RowAt, Matrix.Start;
    forall r | TILE * tileRow <= r <= TILE * tileRow + LastRow(g, tileRow)
      ensures g.a.Word(r, TILE * kTile) + TILE <= |words|
              && scratchpad[r - TILE * tileRow] == Line(words, g.a.Word(r, TILE * kTile))
    {
      RowOfMatrix(g.a, TILE * tileRow, TILE * kTile, r - TILE * tileRow);
    }
  }

  lemma LoadIsSliceOfB(g: Args, words: seq<int>, tileCol: nat, kTile: nat, tenB: Lines)
    requires g.Valid(|words|) && tileCol < g.TilesN() && TILE * kTile < g.k && Shape(tenB, TILE)
    requires
      forall i | 0 <= i < SliceEnd(g, kTile) - TILE * kTile ::
        var address := Access(g.b, TILE * kTile, TILE * tileCol);
        && RowWithin(g.b, address, g.b.stride, i) && g.b.End() <= |words|
        && tenB[i] == Line(words, RowAt(address, g.b.stride, i))
    ensures TILE * tileCol + TILE <= g.b.stride
    ensures SliceOfB(g, words, TILE * tileCol, TILE * kTile, SliceEnd(g, kTile) - TILE * kTile, tenB)
  {
    TileInStride(g, |words|, tileCol);
    hide Access, RowAt, Matrix.Start;
    forall r | TILE * kTile <= r < SliceEnd(g, kTile)
      ensures g.b.Word(r, TILE * tileCol) + TILE <= |words|
              && tenB[r - TILE * kTile] == Line(words, g.b.Word(r, TILE * tileCol))
    {
      RowOfMatrix(g.b, TILE * kTile, TILE * tileCol, r - TILE * kTile);
    }
  }

  /** What the three tensor instructions of a slice do to the accumulator, wherever the
      stores of other Minions fall between them. */
  lemma SliceAccumulates(g: Args, memory: seq<int>, atA: seq<int>, atB: seq<int>, scratchpad: Lines, tenB: Lines,
                         acc: Lines, acc': Lines, tileRow: nat, tileCol: nat, kTile: nat)
    requires |atA| == |atB| == |memory| && g.Valid(|memory|)
    requires SameInputs(g, memory, atA) && SameInputs(g, memory, atB)
    requires tileRow < g.TilesM() && tileCol < g.TilesN() && TILE * tileRow < g.m && TILE * kTile < g.k
    requires Shape(scratchpad, 48) && Shape(tenB, TILE) && Shape(acc, TILE) && Shape(acc', TILE)
    requires kTile > 0 ==> Accumulated(g, memory, acc, tileRow, tileCol, TILE * kTile)
    requires TILE * kTile + TILE <= g.a.stride && SliceOfA(g, atA, tileRow, kTile, scratchpad)
    requires TILE * tileCol + TILE <= g.b.stride
             && SliceOfB(g, atB, TILE * tileCol, TILE * kTile, SliceEnd(g, kTile) - TILE * kTile, tenB)
    requires forall i, j | 0 <= i <= LastRow(g, tileRow) && 0 <= j < TILE ::
               acc'[i][j] == (if kTile == 0 then 0 else acc[i][j])
                             + PartialDot(scratchpad[i], tenB, j, SliceEnd(g, kTile) - TILE * kTile)
    ensures Accumulated(g, memory, acc', tileRow, tileCol, SliceEnd(g, kTile))
  {
    forall i, j | 0 <= i <= LastRow(g, tileRow) && 0 <= j < TILE
      ensures acc'[i][j] == Dot(g, memory, TILE * tileRow + i, TILE * tileCol + j, SliceEnd(g, kTile))
    {
      ElementAccumulates(g, memory, atA, atB, scratchpad, tenB, tileRow, tileCol, kTile, i, j);
      hide SameInputs, SliceOfA, SliceOfB, Matrix.Start, Matrix.End;
    }
  }

  lemma ElementAccumulates(g: Args, memory: seq<int>, atA: seq<int>, atB: seq<int>, scratchpad: Lines, tenB: Lines,
                           tileRow: nat, tileCol: nat, kTile: nat, i: nat, j: nat)
    requires |atA| == |atB| == |memory| && g.Valid(|memory|)
    requires SameInputs(g, memory, atA) && SameInputs(g, memory, atB)
    requires tileCol < g.TilesN() && TILE * tileRow < g.m && TILE * kTile < g.k
    requires Shape(scratchpad, 48) && Shape(tenB, TILE)
    requires TILE * kTile + TILE <= g.a.stride && SliceOfA(g, atA, tileRow, kTile, scratchpad)
    requires TILE * tileCol + TILE <= g.b.stride
             && SliceOfB(g, atB, TILE * tileCol, TILE * kTile, SliceEnd(g, kTile) - TILE * kTile, tenB)
    requires i <= LastRow(g, tileRow) && j < TILE
    ensures Dot(g, memory, TILE * tileRow + i, TILE * tileCol + j, SliceEnd(g, kTile)) ==
            Dot(g, memory, TILE * tileRow + i, TILE * tileCol + j, TILE * kTile)
            + PartialDot(scratchpad[i], tenB, j, SliceEnd(g, kTile) - TILE * kTile)
  {
    hide SameInputs, SliceOfB, Matrix.Start, Matrix.End, Dot, PartialDot;
    var n, r := SliceEnd(g, kTile) - TILE * kTile, TILE * tileRow + i;
    assert scratchpad[r - TILE * tileRow] == Line(atA, g.a.Word(r, TILE * kTile));
    SliceAdds(g, memory, atA, atB, r, TILE * tileCol, j, TILE * kTile, n, scratchpad[i], tenB);
  }

  /** Every row of the tile has been stored. */
  predicate TileStored(g: Args, log: seq<Row>, tileRow: nat, tileCol: nat) {
    TILE * tileRow < g.m && forall i | TILE * tileRow <= i <= TILE * tileRow + LastRow(g, tileRow) :: Row(i, tileCol) in log
  }

  /** Every store that `log` records, `log'` records too. */
  predicate Grew(log: seq<Row>, log': seq<Row>) {
    forall e | e in log :: e in log'
  }

  lemma LogGrows(a: seq<Row>, b: seq<Row>, c: seq<Row>)
    requires Grew(a, b) && Grew(b, c)
    ensures Grew(a, c)
  {
  }

  /** The kernel of one Minion, running among others that may store rows of their own
      between any two of its steps. `log` is every store since it began, in order. */
  class Minion {
    const unit: TensorUnit
    const dram: Dram
    ghost const g: Args
    ghost const before: seq<int>
    ghost var log: seq<Row>

    ghost predicate Valid()
      reads this, unit, dram
    {
      && unit.Valid() && g.Valid(|before|)
      && dram.words == Exec(g, before, log)
    }

    constructor (dram: Dram, ghost g: Args)
      requires g.Valid(|dram.words|)
      ensures Valid() && this.dram == dram && this.g == g && before == dram.words && fresh(unit)
    {
      this.dram, this.g, this.before, this.log := dram, g, dram.words, [];
      unit := new TensorUnit();
    }

    /** Other Minions store rows of C. */
    method Others(args: Args)
      requires Valid() && args == g
      modifies this`log, dram
      ensures Valid() && Grew(old(log), log)
    {
      var others: seq<Row> := *;
      ExecAppends(g, before, log, others);
      log := log + others;
      dram.words := Exec(args, dram.words, others);
    }

    /** `tensor_store` of the rows up to `arows` of the accumulator. */
    method Store(args: Args, tileRow: nat, tileCol: nat)
      requires Valid() && args == g && tileRow < g.TilesM() && tileCol < g.TilesN()
      requires Accumulated(g, before, unit.accumulator, tileRow, tileCol, g.k)
      modifies this`log, dram
      ensures Valid() && Grew(old(log), log)
      ensures TileStored(g, log, tileRow, tileCol)
    {
      TileRowExists(g, |before|, tileRow);
      hide Access, RowAt, Args.Valid, Exec, StoreRow, Accumulated, LastRow, Args.TilesM, Args.TilesN, SameInputs,
           RowAddress, RowValues, Matrix.Start, Matrix.End, Row.In;
      var arows := LastRow(args, tileRow);
      var address := Access(args.c, TILE * tileRow, TILE * tileCol);
      for i := 0 to arows + 1
        invariant Valid() && Grew(old(log), log)
        invariant Accumulated(g, before, unit.accumulator, tileRow, tileCol, g.k)
        invariant forall r | TILE * tileRow <= r < TILE * tileRow + i :: Row(r, tileCol) in log
      {
        Others(args);
        ghost var e := Row(TILE * tileRow + i, tileCol);
        StoreIsLogged(g, before, log, dram.words, unit.accumulator, tileRow, tileCol, i);
        dram.words := Splice(dram.words, RowAt(address, args.c.stride, i), unit.accumulator[i]);
        log := log + [e];
      }
    }

    /** Loads a tile of A, and a tile of B, as they are at two moments. */
    method LoadA(args: Args, tileRow: nat, kTile: nat) returns (ghost atA: seq<int>)
      requires Valid() && args == g && tileRow < g.TilesM() && TILE * kTile < g.k
      modifies this`log, dram, unit`scratchpad
      ensures Valid() && Grew(old(log), log)
      ensures |atA| == |before| && SameInputs(g, before, atA)
      ensures TILE * tileRow < g.m && TILE * kTile + TILE <= g.a.stride && SliceOfA(g, atA, tileRow, kTile, unit.scratchpad)
    {
      LoadAWithin(g, |before|, tileRow, kTile);
      hide Access, RowAt, Args.Valid, Exec, LastRow, SameInputs, SliceOfA, Grew, Matrix.End;
      Others(args);
      atA := dram.words;
      unit.Load(dram, Access(args.a, TILE * tileRow, TILE * kTile), 0, LastRow(args, tileRow), args.a.stride, g.a);
      LoadIsSliceOfA(g, atA, tileRow, kTile, unit.scratchpad);
      ExecStaysInC(g, before, log);
    }

    method LoadB(args: Args, tileCol: nat, kTile: nat) returns (ghost atB: seq<int>)
      requires Valid() && args == g && tileCol < g.TilesN() && TILE * kTile < g.k
      modifies this`log, dram, unit`tenB
      ensures Valid() && Grew(old(log), log)
      ensures |atB| == |before| && SameInputs(g, before, atB)
      ensures TILE * tileCol + TILE <= g.b.stride
      ensures SliceOfB(g, atB, TILE * tileCol, TILE * kTile, SliceEnd(g, kTile) - TILE * kTile, unit.tenB)
    {
      LoadBWithin(g, |before|, tileCol, kTile);
      hide Access, RowAt, Args.Valid, Exec, SameInputs, SliceOfB, Grew, Matrix.End;
      var acols := SliceEnd(args, kTile) - TILE * kTile - 1;
      Others(args);
      atB := dram.words;
      unit.LoadB(dram, Access(args.b, TILE * kTile, TILE * tileCol), acols, args.b.stride, g.b);
      LoadIsSliceOfB(g, atB, tileCol, kTile, unit.tenB);
      ExecStaysInC(g, before, log);
    }

    /** One turn of the k-loop of `compute_tile`. */
    method Slice(args: Args, tileRow: nat, tileCol: nat, kTile: nat)
      requires Valid() && args == g && tileRow < g.TilesM() && tileCol < g.TilesN() && TILE * kTile < g.k
      requires kTile > 0 ==> Accumulated(g, before, unit.accumulator, tileRow, tileCol, TILE * kTile)
      modifies this`log, dram, unit
      ensures Valid() && Grew(old(log), log)
      ensures Accumulated(g, before, unit.accumulator, tileRow, tileCol, SliceEnd(g, kTile))
    {
      hide Args.Valid, Exec, Accumulated, LastRow, SameInputs, SliceOfA, SliceOfB, Grew;
      var acols := SliceEnd(args, kTile) - TILE * kTile - 1;
      ghost var acc := unit.accumulator;
      var atA := LoadA(args, tileRow, kTile);
      ghost var logA := log;
      var atB := LoadB(args, tileCol, kTile);
      LogGrows(old(log), logA, log);
      unit.Fma32(LastRow(args, tileRow), acols, 0, kTile == 0);
      SliceAccumulates(g, before, atA, atB, unit.scratchpad, unit.tenB, acc, unit.accumulator, tileRow, tileCol, kTile);
    }

    /** `compute_tile`: stores every row of the tile, with the values of the product. */
    method ComputeTile(args: Args, tileRow: nat, tileCol: nat)
      requires Valid() && args == g && tileRow < g.TilesM() && tileCol < g.TilesN()
      modifies this`log, dram, unit
      ensures Valid() && Grew(old(log), log)
      ensures TileStored(g, log, tileRow, tileCol)
    {
      hide Accumulated;
      var kTile := 0;
      while TILE * kTile < args.k
        invariant Valid() && Grew(old(log), log)
        invariant kTile > 0 ==> TILE * (kTile - 1) < args.k
        invariant kTile > 0 ==> Accumulated(g, before, unit.accumulator, tileRow, tileCol, SliceEnd(g, kTile - 1))
        decreases args.k - TILE * kTile
      {
        Slice(args, tileRow, tileCol, kTile);
        kTile := kTile + 1;
      }
      Store(args, tileRow, tileCol);
    }

    /** `entry_point` on hart `hart` of `shire`: whatever the other Minions do meanwhile, all
        rows of its own tiles are stored. */
    method EntryPoint(args: Args, shire: nat, hart: nat)
      requires Valid() && args == g
      modifies this`log, dram, unit
      ensures Valid() && Grew(old(log), log)
      ensures hart % 2 == 0 && shire < g.shires ==> Finished(g, log, shire, hart % 64 / 2)
    {
      hide Args.Valid, Reached, Grew, Exec, Finished, WorkSplit.ShireBlock;
      GrewNot(log);
      Participants(g, |before|, shire, hart % 64 / 2);
      if hart % 2 != 0 {
        return;
      }
      var minion := hart % 64 / 2;
      if shire * MINIONS + minion >= args.shires * MINIONS {
        return;
      }
      var block := WorkSplit.ShireBlock(args.TilesM() * args.TilesN(), args.shires, shire);
      RunBlock(args, shire, minion, block);
      AllReached(g, log, block, shire, minion, Arith.Max(block.end, minion));
    }

    method RunBlock(args: Args, shire: nat, minion: nat, block: WorkSplit.Block)
      requires Valid() && args == g && minion < MINIONS && g.shires > 0
      requires block == WorkSplit.ShireBlock(g.TilesM() * g.TilesN(), g.shires, shire)
      modifies this`log, dram, unit
      ensures Valid() && Grew(old(log), log)
      ensures Reached(g, log, block, minion, Arith.Max(block.end, minion))
    {
      hide Args.Valid, Args.TilesM, Args.TilesN, Reached, Grew, Exec, LastRow, WorkSplit.ShireBlock, TileStored;
      var local := minion;
      NothingToReach(g, log, block, minion);
      GrewNot(log);
      while local < block.end
        invariant Valid() && Grew(old(log), log) && local % MINIONS == minion
        invariant Reached(g, log, block, minion, local) && minion <= local
        decreases block.end - local
      {
        ghost var was := log;
        TileInGrid(args, |before|, block, shire, local);
        var tile := block.base + local;
        ComputeTile(args, tile / args.TilesN(), tile % args.TilesN());
        LogGrows(old(log), was, log);
        ReachedNext(g, |before|, was, log, block, minion, local);
        local := local + MINIONS;
      }
      ReachedEnough(g, log, block, minion, local);
    }
  }

  /** The store of row `i` of a tile whose sums are complete is a store of a row of the
      product, aligned and within the allocation of C. */
  lemma StoreIsRow(g: Args, memory: seq<int>, now: seq<int>, acc: Lines, tileRow: nat, tileCol: nat, i: nat)
    requires g.Valid(|memory|) && tileRow < g.TilesM() && tileCol < g.TilesN() && Shape(acc, TILE)
    requires SameInputs(g, memory, now) && Accumulated(g, memory, acc, tileRow, tileCol, g.k)
    requires i <= LastRow(g, tileRow)
    ensures
      var e := Row(TILE * tileRow + i, tileCol);
      var address := Access(g.c, TILE * tileRow, TILE * tileCol);
      && e.In(g) && address % TILE == 0
      && RowWithin(g.c, address, g.c.stride, i)
      && RowAt(address, g.c.stride, i) + TILE <= |now|
      && StoreRow(g, now, e) == Splice(now, RowAt(address, g.c.stride, i), acc[i])
  {
    hide Access, RowAt, RowWithin, RowAddress, Matrix.Start, Matrix.End, Accumulated, SameInputs, RowValues, Dot,
         LastRow, Args.TilesM, Args.TilesN, Args.Valid;
    var e := Row(TILE * tileRow + i, tileCol);
    SameLength(g, memory, now);
    AccessIsRow(g, |memory|, tileRow, tileCol, i);
    RowValuesDependOnInputs(g, memory, now, e);
    RowIsAccumulated(g, memory, acc, tileRow, tileCol, i);
  }

  lemma StoreIsLogged(g: Args, memory: seq<int>, log: seq<Row>, now: seq<int>, acc: Lines, tileRow: nat, tileCol: nat, i: nat)
    requires g.Valid(|memory|) && tileRow < g.TilesM() && tileCol < g.TilesN() && Shape(acc, TILE)
    requires now == Exec(g, memory, log) && Accumulated(g, memory, acc, tileRow, tileCol, g.k)
    requires i <= LastRow(g, tileRow)
    ensures
      var (e, at) := (Row(TILE * tileRow + i, tileCol), RowAt(Access(g.c, TILE * tileRow, TILE * tileCol), g.c.stride, i));
      at + TILE <= |now| && Exec(g, memory, log + [e]) == Splice(now, at, acc[i])
  {
    hide Access, RowAt, RowWithin, Accumulated, SameInputs, StoreRow, Exec, LastRow, Row.In, Args.TilesM, Args.TilesN;
    SameAfter(g, memory, log, now);
    StoreIsRow(g, memory, now, acc, tileRow, tileCol, i);
    ExecOne(g, memory, log, Row(TILE * tileRow + i, tileCol));
  }

  lemma SameAfter(g: Args, memory: seq<int>, log: seq<Row>, now: seq<int>)
    requires g.Valid(|memory|) && now == Exec(g, memory, log)
    ensures SameInputs(g, memory, now)
  {
    ExecStaysInC(g, memory, log);
  }

  lemma SameLength(g: Args, memory: seq<int>, now: seq<int>)
    requires SameInputs(g, memory, now)
    ensures |now| == |memory|
  {
  }

  lemma AccessIsRow(g: Args, size: nat, tileRow: nat, tileCol: nat, i: nat)
    requires g.Valid(size) && tileRow < g.TilesM() && tileCol < g.TilesN() && i <= LastRow(g, tileRow)
    ensures
      var e := Row(TILE * tileRow + i, tileCol);
      var address := Access(g.c, TILE * tileRow, TILE * tileCol);
      && e.In(g) && address % TILE == 0
      && RowWithin(g.c, address, g.c.stride, i)
      && RowAt(address, g.c.stride, i) == RowAddress(g, size, e)
  {
    hide Access, RowAt, RowWithin, Matrix.Start, Matrix.End;
    TileInStride(g, size, tileCol);
    RowOfMatrix(g.c, TILE * tileRow, TILE * tileCol, i);
    TileAddressAligned(g.c, TILE * tileRow, TILE * tileCol);
  }

  lemma RowIsAccumulated(g: Args, memory: seq<int>, acc: Lines, tileRow: nat, tileCol: nat, i: nat)
    requires g.Valid(|memory|) && tileRow < g.TilesM() && tileCol < g.TilesN() && Shape(acc, TILE)
    requires Accumulated(g, memory, acc, tileRow, tileCol, g.k) && i <= LastRow(g, tileRow)
    ensures acc[i] == RowValues(g, memory, Row(TILE * tileRow + i, tileCol))
  {
    hide Matrix.Start, Matrix.End, Dot;
    var r := RowValues(g, memory, Row(TILE * tileRow + i, tileCol));
    forall x | 0 <= x < TILE
      ensures acc[i][x] == r[x]
    {
      var j := TILE * tileCol + x;
      assert r[j - TILE * tileCol] == Dot(g, memory, TILE * tileRow + i, j, g.k);
    }
  }

  // --- All Minions together ------------------------------------------------------------

  /** The tile to which a row belongs, counting row by row through the grid. */
  function TileOf(g: Args, e: Row): nat {
    e.i / TILE * g.TilesN() + e.t
  }

  lemma TileInGrid(g: Args, size: nat, block: WorkSplit.Block, shire: nat, local: nat)
    requires g.Valid(size) && local < block.end
    requires block == WorkSplit.ShireBlock(g.TilesM() * g.TilesN(), g.shires, shire)
    ensures
      var tile := block.base + local;
      g.TilesN() > 0 && tile / g.TilesN() < g.TilesM() && tile % g.TilesN() < g.TilesN()
  {
    Arith.QuotientBelow(block.base + local, g.TilesM(), g.TilesN());
  }

  lemma TileOfRow(g: Args, e: Row)
    requires 1 <= g.m && 1 <= g.n && e.In(g)
    ensures TileOf(g, e) < g.TilesM() * g.TilesN()
    ensures TileOf(g, e) / g.TilesN() == e.i / TILE && TileOf(g, e) % g.TilesN() == e.t
  {
    Arith.DivModUnique(TileOf(g, e), g.TilesN(), e.i / TILE, e.t);
    Arith.MulMonotone(e.i / TILE + 1, g.TilesM(), g.TilesN());
  }

  lemma RowInTile(g: Args, i: nat, tileRow: nat)
    requires i < g.m && i / TILE == tileRow
    ensures TILE * tileRow < g.m && TILE * tileRow <= i <= TILE * tileRow + LastRow(g, tileRow)
  {
  }

  /** Every row that the loop should have stored before position `local` of the block is. */
  predicate Reached(g: Args, log: seq<Row>, block: WorkSplit.Block, minion: nat, local: nat) {
    forall i, t | 0 <= i < g.m && 0 <= t < g.TilesN() && Covers(block, minion, TileOf(g, Row(i, t)))
                  && TileOf(g, Row(i, t)) < block.base + local :: Row(i, t) in log
  }

  predicate Covers(block: WorkSplit.Block, minion: nat, tile: nat) {
    block.base <= tile < block.base + block.end && (tile - block.base) % MINIONS == minion
  }

  lemma GrewNot(log: seq<Row>)
    ensures Grew(log, log)
  {
  }

  lemma NothingToReach(g: Args, log: seq<Row>, block: WorkSplit.Block, minion: nat)
    requires minion < MINIONS
    ensures Reached(g, log, block, minion, minion)
  {
  }

  lemma OneTilePerTurn(block: WorkSplit.Block, minion: nat, local: nat, tile: nat)
    requires local % MINIONS == minion && Covers(block, minion, tile) && tile < block.base + local + MINIONS
    ensures tile < block.base + local || tile == block.base + local
  {
  }

  lemma ReachedNext(g: Args, size: nat, was: seq<Row>, log: seq<Row>, block: WorkSplit.Block, minion: nat, local: nat)
    requires g.Valid(size) && Reached(g, was, block, minion, local) && Grew(was, log) && local % MINIONS == minion
    requires g.TilesN() > 0
    requires TileStored(g, log, (block.base + local) / g.TilesN(), (block.base + local) % g.TilesN())
    ensures Reached(g, log, block, minion, local + MINIONS)
  {
    hide Args.Valid, Args.TilesM, Args.TilesN, LastRow;
    forall i, t | 0 <= i < g.m && 0 <= t < g.TilesN() && Covers(block, minion, TileOf(g, Row(i, t)))
                  && TileOf(g, Row(i, t)) < block.base + local + MINIONS
      ensures Row(i, t) in log
    {
      ReachedRow(g, size, was, log, block, minion, local, i, t);
    }
  }

  lemma ReachedRow(g: Args, size: nat, was: seq<Row>, log: seq<Row>, block: WorkSplit.Block, minion: nat, local: nat,
                   i: nat, t: nat)
    requires g.Valid(size) && Reached(g, was, block, minion, local) && Grew(was, log) && local % MINIONS == minion
    requires g.TilesN() > 0
    requires TileStored(g, log, (block.base + local) / g.TilesN(), (block.base + local) % g.TilesN())
    requires i < g.m && t < g.TilesN() && Covers(block, minion, TileOf(g, Row(i, t)))
    requires TileOf(g, Row(i, t)) < block.base + local + MINIONS
    ensures Row(i, t) in log
  {
    var tile := TileOf(g, Row(i, t));
    TileOfRow(g, Row(i, t));
    OneTilePerTurn(block, minion, local, tile);
    RowInTile(g, i, i / TILE);
    hide TileOf, Covers, Args.Valid, Args.TilesM, Args.TilesN, LastRow;
  }

  lemma ReachedEnough(g: Args, log: seq<Row>, block: WorkSplit.Block, minion: nat, local: nat)
    requires Reached(g, log, block, minion, local) && block.end <= local && minion <= local
    ensures Reached(g, log, block, minion, Arith.Max(block.end, minion))
  {
    hide TileOf, Args.TilesM, Args.TilesN;
  }

  /** The launched range, counted in Minions, is the launched shires. */
  lemma Participants(g: Args, size: nat, shire: nat, minion: nat)
    requires g.Valid(size) && minion < MINIONS
    ensures g.shires > 0 && (shire * MINIONS + minion >= g.shires * MINIONS <==> shire >= g.shires)
  {
  }

  lemma AllReached(g: Args, log: seq<Row>, block: WorkSplit.Block, shire: nat, minion: nat, local: nat)
    requires g.shires > 0 && block == WorkSplit.ShireBlock(g.TilesM() * g.TilesN(), g.shires, shire)
    requires Reached(g, log, block, minion, local) && block.end <= local
    ensures Finished(g, log, shire, minion)
  {
    hide TileOf, Args.TilesM, Args.TilesN;
  }

  /** Every row of every tile that the Minion owns has been stored. */
  predicate Finished(g: Args, log: seq<Row>, shire: nat, minion: nat)
    requires g.shires > 0
  {
    forall i, t | 0 <= i < g.m && 0 <= t < g.TilesN()
      && WorkSplit.Takes(g.TilesM() * g.TilesN(), g.shires, shire, minion, TileOf(g, Row(i, t))) :: Row(i, t) in log
  }

  /** Once every Minion of the launched shires has finished, in whatever order their stores
      fell, C is the product of A and B, and nothing outside C has changed. */
  lemma KernelComputesProduct(g: Args, memory: seq<int>, log: seq<Row>)
    requires g.Valid(|memory|)
    requires forall s, m | 0 <= s < g.shires && 0 <= m < MINIONS :: Finished(g, log, s, m)
    ensures forall i, j | 0 <= i < g.m && 0 <= j < g.n ::
              Exec(g, memory, log)[g.c.Word(i, j)] == Dot(g, memory, i, j, g.k)
    ensures forall p | 0 <= p < |memory| && !g.c.Inside(p) :: Exec(g, memory, log)[p] == memory[p]
  {
    forall e: Row | e.In(g)
      ensures e in log
    {
      TileOfRow(g, e);
      var s, m := WorkSplit.TileHasOneOwner(g.TilesM() * g.TilesN(), g.shires, TileOf(g, e));
      assert Finished(g, log, s, m);
      assert Row(e.i, e.t) in log;
    }
    ProductInAnyOrder(g, memory, log);
  }
}
