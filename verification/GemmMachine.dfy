/** All Minions of a launch of et-k-rs/src/bin/sgemm.rs as one machine: each runs the kernel
    on a tensor unit of its own, any schedule interleaves them, and one step moves at most
    one 64-byte row to or from device memory. */
module GemmMachine {
  import Arith
  import WorkSplit
  import opened Gemm
  import opened Sequences

  /** What a Minion does next: begin, take its next tile, load row `i` of the tile of A or of
      B for slice `k`, multiply slice `k`, store row `i`. A Minion that accesses memory out of
      place, or not aligned, has a fault and stops. */
  datatype Pc =
    | Begin | Head | LoadA(k: nat, i: nat) | LoadB(k: nat, i: nat) | Fma(k: nat) | Store(i: nat) | Done | Fault

  /** One Minion: `local` is its position in the block of its shire. */
  datatype Core = Core(pc: Pc, local: nat, scratchpad: Lines, tenB: Lines, acc: Lines) {
    predicate Shaped() {
      Shape(scratchpad, 48) && Shape(tenB, TILE) && Shape(acc, TILE)
    }
  }

  datatype State = State(words: seq<int>, cores: seq<Core>)

  predicate Shaped(s: State) {
    forall c | 0 <= c < |s.cores| :: s.cores[c].Shaped()
  }

  /** The tiles of the shire of Minion `c`. */
  function Block(g: Args, c: nat): WorkSplit.Block
    requires g.shires > 0
  {
    WorkSplit.ShireBlock(g.TilesM() * g.TilesN(), g.shires, c / MINIONS)
  }

  function TileRow(g: Args, c: nat, local: nat): nat
    requires g.shires > 0 && g.TilesN() > 0
  {
    (Block(g, c).base + local) / g.TilesN()
  }

  function TileCol(g: Args, c: nat, local: nat): nat
    requires g.shires > 0 && g.TilesN() > 0
  {
    (Block(g, c).base + local) % g.TilesN()
  }

  /** The 64 bytes at `p` are aligned and within the allocation of `x`. */
  predicate Fine(x: Matrix, p: nat, size: nat) {
    p % TILE == 0 && x.stride % TILE == 0 && x.base <= p && p + TILE <= x.End() && x.End() <= size
  }

  /** What follows the `k`-th slice: the next one, or the stores. */
  function NextSlice(g: Args, k: nat): Pc {
    if TILE * k < g.k then LoadA(k, 0) else Store(0)
  }

  /** `tensor_fma32` on the first `arows + 1` rows, with `n` terms each. */
  function Multiply(acc: Lines, a: Lines, b: Lines, arows: nat, n: nat, mulOnly: bool): (r: Lines)
    requires Shape(acc, TILE) && Shape(a, 48) && Shape(b, TILE) && arows < TILE && n <= TILE
    ensures Shape(r, TILE)
    ensures forall i, j | 0 <= i <= arows && 0 <= j < TILE ::
              r[i][j] == (if mulOnly then 0 else acc[i][j]) + PartialDot(a[i], b, j, n)
  {
    seq(TILE, i requires 0 <= i < TILE =>
      if i > arows then acc[i]
      else seq(TILE, j requires 0 <= j < TILE => (if mulOnly then 0 else acc[i][j]) + PartialDot(a[i], b, j, n)))
  }

  function StepLoadA(g: Args, words: seq<int>, c: nat, core: Core, k: nat, i: nat): (r: Core)
    requires g.shires > 0 && g.TilesN() > 0 && core.Shaped()
    ensures r.Shaped()
  {
    var row := TILE * TileRow(g, c, core.local);
    var p := RowAt(Access(g.a, row, TILE * k), g.a.stride, i);
    if row >= g.m || i >= TILE || !Fine(g.a, p, |words|) then core.(pc := Fault)
    else
      core.(scratchpad := core.scratchpad[i := Line(words, p)],
            pc := if i < LastRow(g, TileRow(g, c, core.local)) then LoadA(k, i + 1) else LoadB(k, 0))
  }

  function StepLoadB(g: Args, words: seq<int>, c: nat, core: Core, k: nat, i: nat): (r: Core)
    requires g.shires > 0 && g.TilesN() > 0 && core.Shaped()
    ensures r.Shaped()
  {
    var p := RowAt(Access(g.b, TILE * k, TILE * TileCol(g, c, core.local)), g.b.stride, i);
    if TILE * k >= g.k || i >= TILE || !Fine(g.b, p, |words|) then core.(pc := Fault)
    else
      core.(tenB := core.tenB[i := Line(words, p)],
            pc := if i + 1 < SliceEnd(g, k) - TILE * k then LoadB(k, i + 1) else Fma(k))
  }

  function StepFma(g: Args, c: nat, core: Core, k: nat): (r: Core)
    requires g.shires > 0 && g.TilesN() > 0 && core.Shaped()
    ensures r.Shaped()
  {
    var row := TILE * TileRow(g, c, core.local);
    if row >= g.m || TILE * k >= g.k then core.(pc := Fault)
    else
      core.(acc := Multiply(core.acc, core.scratchpad, core.tenB, LastRow(g, TileRow(g, c, core.local)),
                            SliceEnd(g, k) - TILE * k, k == 0),
            pc := NextSlice(g, k + 1))
  }

  /** Where row `i` of the Minion's tile of C is stored. */
  function StoreAt(g: Args, c: nat, core: Core, i: nat): nat
    requires g.shires > 0 && g.TilesN() > 0
  {
    RowAt(Access(g.c, TILE * TileRow(g, c, core.local), TILE * TileCol(g, c, core.local)), g.c.stride, i)
  }

  predicate StoreFaults(g: Args, size: nat, c: nat, core: Core, i: nat)
    requires g.shires > 0 && g.TilesN() > 0
  {
    TILE * TileRow(g, c, core.local) >= g.m || i >= TILE || !Fine(g.c, StoreAt(g, c, core, i), size)
  }

  function StepStore(g: Args, size: nat, c: nat, core: Core, i: nat): (r: Core)
    requires g.shires > 0 && g.TilesN() > 0 && core.Shaped()
    ensures r.Shaped()
  {
    if StoreFaults(g, size, c, core, i) then core.(pc := Fault)
    else if i < LastRow(g, TileRow(g, c, core.local)) then core.(pc := Store(i + 1))
    else core.(pc := Head, local := core.local + MINIONS)
  }

  function StepCore(g: Args, words: seq<int>, c: nat, core: Core): (r: Core)
    requires g.shires > 0 && g.TilesN() > 0 && core.Shaped()
    ensures r.Shaped()
  {
    match core.pc
    case Begin => if c >= g.shires * MINIONS then core.(pc := Done) else core.(pc := Head, local := c % MINIONS)
    case Head => core.(pc := if core.local < Block(g, c).end then NextSlice(g, 0) else Done)
    case LoadA(k, i) => StepLoadA(g, words, c, core, k, i)
    case LoadB(k, i) => StepLoadB(g, words, c, core, k, i)
    case Fma(k) => StepFma(g, c, core, k)
    case Store(i) => StepStore(g, |words|, c, core, i)
    case Done => core
    case Fault => core
  }

  function StepWords(g: Args, words: seq<int>, c: nat, core: Core): (r: seq<int>)
    requires g.shires > 0 && g.TilesN() > 0 && core.Shaped()
    ensures |r| == |words|
  {
    if core.pc.Store? && !StoreFaults(g, |words|, c, core, core.pc.i) then
      Splice(words, StoreAt(g, c, core, core.pc.i), core.acc[core.pc.i])
    else words
  }

  function Step(g: Args, s: State, c: nat): (r: State)
    requires g.shires > 0 && g.TilesN() > 0 && Shaped(s)
    ensures Shaped(r) && |r.cores| == |s.cores| && |r.words| == |s.words|
  {
    if c >= |s.cores| then s
    else
      State(StepWords(g, s.words, c, s.cores[c]), s.cores[c := StepCore(g, s.words, c, s.cores[c])])
  }

  function Run(g: Args, s: State, schedule: seq<nat>): (r: State)
    requires g.shires > 0 && g.TilesN() > 0 && Shaped(s)
    ensures Shaped(r) && |r.cores| == |s.cores| && |r.words| == |s.words|
    decreases |schedule|
  {
    if schedule == [] then s else Run(g, Step(g, s, schedule[0]), schedule[1..])
  }

  // --- What every step keeps -----------------------------------------------------------

  /** The first `i` lines of the scratchpad are rows of A. */
  predicate LoadedA(g: Args, memory: seq<int>, tileRow: nat, k: nat, scratchpad: Lines, i: nat)
    requires g.Valid(|memory|) && TILE * tileRow + i <= g.m && TILE * k + TILE <= g.a.stride && Shape(scratchpad, 48)
  {
    i <= TILE && forall r | TILE * tileRow <= r < TILE * tileRow + i ::
      && g.a.Word(r, TILE * k) + TILE <= |memory|
      && scratchpad[r - TILE * tileRow] == Line(memory, g.a.Word(r, TILE * k))
  }

  predicate Mine(g: Args, c: nat, core: Core) {
    c < g.shires * MINIONS && core.local % MINIONS == c % MINIONS
  }

  /** The Minion works on a tile of the grid. */
  predicate InTile(g: Args, size: nat, c: nat, core: Core)
    requires g.Valid(size)
  {
    Mine(g, c, core) && core.local < Block(g, c).end
  }

  lemma InTileIsInGrid(g: Args, size: nat, c: nat, core: Core)
    requires g.Valid(size) && InTile(g, size, c, core)
    ensures TileRow(g, c, core.local) < g.TilesM() && TileCol(g, c, core.local) < g.TilesN()
    ensures TILE * TileRow(g, c, core.local) < g.m && TILE * TileCol(g, c, core.local) + TILE <= g.b.stride
  {
    TileInGrid(g, size, Block(g, c), c / MINIONS, core.local);
    TileRowExists(g, size, TileRow(g, c, core.local));
    TileInStride(g, size, TileCol(g, c, core.local));
  }

  /** Slice `k` is under way: the sums over the slices before it are complete. */
  predicate InSlice(g: Args, memory: seq<int>, c: nat, core: Core, k: nat)
    requires g.Valid(|memory|)
  {
    && InTile(g, |memory|, c, core) && core.Shaped() && TILE * k < g.k
    && (k > 0 ==>
          && TileRow(g, c, core.local) < g.TilesM() && TileCol(g, c, core.local) < g.TilesN()
          && Accumulated(g, memory, core.acc, TileRow(g, c, core.local), TileCol(g, c, core.local), TILE * k))
  }

  predicate HasA(g: Args, memory: seq<int>, c: nat, core: Core, k: nat, n: nat)
    requires g.Valid(|memory|)
  {
    var tileRow := TileRow(g, c, core.local);
    && core.Shaped() && TILE * tileRow + n <= g.m && TILE * k + TILE <= g.a.stride
    && LoadedA(g, memory, tileRow, k, core.scratchpad, n)
  }

  predicate HasB(g: Args, memory: seq<int>, c: nat, core: Core, k: nat, n: nat)
    requires g.Valid(|memory|)
  {
    var tileCol := TileCol(g, c, core.local);
    && core.Shaped() && TILE * k + n <= g.k && TILE * tileCol + TILE <= g.b.stride
    && SliceOfB(g, memory, TILE * tileCol, TILE * k, n, core.tenB)
  }

  /** The sums of the tile are complete. */
  predicate Summed(g: Args, memory: seq<int>, c: nat, core: Core)
    requires g.Valid(|memory|)
  {
    && InTile(g, |memory|, c, core) && core.Shaped()
    && TileRow(g, c, core.local) < g.TilesM() && TileCol(g, c, core.local) < g.TilesN()
    && Accumulated(g, memory, core.acc, TileRow(g, c, core.local), TileCol(g, c, core.local), g.k)
  }

  /** How far the Minion has come, in terms of what the memory held at first. */
  predicate CoreOk(g: Args, memory: seq<int>, c: nat, core: Core)
    requires g.Valid(|memory|)
  {
    var tileRow := TileRow(g, c, core.local);
    && core.Shaped()
    && match core.pc
       case Begin => true
       case Head => Mine(g, c, core)
       case LoadA(k, i) =>
         && InSlice(g, memory, c, core, k) && TILE * tileRow < g.m && i <= LastRow(g, tileRow)
         && HasA(g, memory, c, core, k, i)
       case LoadB(k, i) =>
         && InSlice(g, memory, c, core, k) && TILE * tileRow < g.m && i < SliceEnd(g, k) - TILE * k
         && HasA(g, memory, c, core, k, LastRow(g, tileRow) + 1) && HasB(g, memory, c, core, k, i)
       case Fma(k) =>
         && InSlice(g, memory, c, core, k) && TILE * tileRow < g.m
         && HasA(g, memory, c, core, k, LastRow(g, tileRow) + 1)
         && HasB(g, memory, c, core, k, SliceEnd(g, k) - TILE * k)
       case Store(i) => Summed(g, memory, c, core) && TILE * tileRow < g.m && i <= LastRow(g, tileRow)
       case Done => c >= g.shires * MINIONS || (Mine(g, c, core) && Block(g, c).end <= core.local)
       case Fault => false
  }

  lemma EnterSlice(g: Args, memory: seq<int>, c: nat, core: Core, k: nat)
    requires g.Valid(|memory|) && InSlice(g, memory, c, core, k)
    ensures CoreOk(g, memory, c, core.(pc := LoadA(k, 0)))
  {
    InTileIsInGrid(g, |memory|, c, core);
    PadToTile(g.k, g.a.stride, k);
    hide Accumulated, Matrix.Start, Block, LastRow;
  }

  lemma StepHeadKeeps(g: Args, memory: seq<int>, words: seq<int>, c: nat, core: Core)
    requires g.Valid(|memory|) && CoreOk(g, memory, c, core) && (core.pc.Begin? || core.pc.Head?)
    ensures CoreOk(g, memory, c, StepCore(g, words, c, core))
  {
    if core.pc.Head? && core.local < Block(g, c).end {
      EnterSlice(g, memory, c, core, 0);
    }
    hide Block, LastRow, Accumulated;
  }

  /** A row of A that is read now is as it was at first, aligned and in place. */
  lemma ReadA(g: Args, memory: seq<int>, words: seq<int>, tileRow: nat, k: nat, i: nat)
    requires g.Valid(|memory|) && SameInputs(g, memory, words) && tileRow < g.TilesM()
    requires TILE * tileRow < g.m && TILE * k < g.k && i <= LastRow(g, tileRow)
    ensures
      var (r, p) := (TILE * tileRow + i, RowAt(Access(g.a, TILE * tileRow, TILE * k), g.a.stride, i));
      && TILE * k + TILE <= g.a.stride && p == g.a.Word(r, TILE * k) && Fine(g.a, p, |words|)
      && p + TILE <= |memory| && Line(words, p) == Line(memory, p)
  {
    PadToTile(g.k, g.a.stride, k);
    RowOfMatrix(g.a, TILE * tileRow, TILE * k, i);
    RowAligned(g.a, TILE * tileRow, TILE * k, i);
    hide Access, RowAt, Matrix.Start, LastRow, Args.TilesM, Args.TilesN;
  }

  lemma RowAligned(x: Matrix, r: nat, c: nat, i: nat)
    requires x.Aligned() && c % TILE == 0
    ensures RowAt(Access(x, r, c), x.stride, i) % TILE == 0
  {
    TileAddressAligned(x, r, c);
    Arith.MultipleOf(i, x.stride, TILE);
    SumAligned(Access(x, r, c), i * x.stride, 0);
  }

  lemma ReadB(g: Args, memory: seq<int>, words: seq<int>, tileCol: nat, k: nat, i: nat)
    requires g.Valid(|memory|) && SameInputs(g, memory, words) && tileCol < g.TilesN()
    requires TILE * k + i < g.k
    ensures
      var (r, p) := (TILE * k + i, RowAt(Access(g.b, TILE * k, TILE * tileCol), g.b.stride, i));
      && TILE * tileCol + TILE <= g.b.stride && p == g.b.Word(r, TILE * tileCol) && Fine(g.b, p, |words|)
      && p + TILE <= |memory| && Line(words, p) == Line(memory, p)
  {
    TileInStride(g, |memory|, tileCol);
    RowOfMatrix(g.b, TILE * k, TILE * tileCol, i);
    RowAligned(g.b, TILE * k, TILE * tileCol, i);
    hide Access, RowAt, Matrix.Start, Args.TilesM, Args.TilesN;
  }

  lemma StepLoadAKeeps(g: Args, memory: seq<int>, words: seq<int>, c: nat, core: Core)
    requires g.Valid(|memory|) && SameInputs(g, memory, words) && CoreOk(g, memory, c, core) && core.pc.LoadA?
    ensures CoreOk(g, memory, c, StepCore(g, words, c, core))
  {
    var tileRow, k, i := TileRow(g, c, core.local), core.pc.k, core.pc.i;
    InTileIsInGrid(g, |memory|, c, core);
    ReadA(g, memory, words, tileRow, k, i);
    hide Access, RowAt, Accumulated, SameInputs, Block, Matrix.Start, Matrix.End, Args.TilesM, Args.TilesN, Fine;
    var core' := StepCore(g, words, c, core);
    assert LoadedA(g, memory, tileRow, k, core'.scratchpad, i + 1);
    NothingOfB(g, memory, c, core', k);
    hide LoadedA, SliceOfB;
  }

  lemma NothingOfB(g: Args, memory: seq<int>, c: nat, core: Core, k: nat)
    requires g.Valid(|memory|) && InTile(g, |memory|, c, core) && core.Shaped() && TILE * k < g.k
    ensures HasB(g, memory, c, core, k, 0)
  {
    InTileIsInGrid(g, |memory|, c, core);
  }

  lemma StepLoadBKeeps(g: Args, memory: seq<int>, words: seq<int>, c: nat, core: Core)
    requires g.Valid(|memory|) && SameInputs(g, memory, words) && CoreOk(g, memory, c, core) && core.pc.LoadB?
    ensures CoreOk(g, memory, c, StepCore(g, words, c, core))
  {
    var tileCol, k, i := TileCol(g, c, core.local), core.pc.k, core.pc.i;
    InTileIsInGrid(g, |memory|, c, core);
    ReadB(g, memory, words, tileCol, k, i);
    hide Access, RowAt, Accumulated, SameInputs, Block, Matrix.Start, Matrix.End, Args.TilesM, Args.TilesN, Fine, LoadedA;
    var core' := StepCore(g, words, c, core);
    assert SliceOfB(g, memory, TILE * tileCol, TILE * k, i + 1, core'.tenB);
    hide SliceOfB;
  }

  lemma StepFmaKeeps(g: Args, memory: seq<int>, words: seq<int>, c: nat, core: Core)
    requires g.Valid(|memory|) && CoreOk(g, memory, c, core) && core.pc.Fma?
    ensures CoreOk(g, memory, c, StepCore(g, words, c, core))
  {
    hide SameInputs, Block, Matrix.Start, Matrix.End, Args.TilesM, Args.TilesN, Multiply, SliceOfA, SliceOfB, LoadedA,
         Accumulated, PartialDot;
    var tileRow, tileCol, k := TileRow(g, c, core.local), TileCol(g, c, core.local), core.pc.k;
    InTileIsInGrid(g, |memory|, c, core);
    var core' := StepCore(g, words, c, core);
    LoadedIsSlice(g, memory, tileRow, k, core.scratchpad);
    SameItself(g, memory);
    SliceAccumulates(g, memory, memory, memory, core.scratchpad, core.tenB, core.acc, core'.acc, tileRow, tileCol, k);
    if TILE * (k + 1) < g.k {
      EnterSlice(g, memory, c, core', k + 1);
    }
  }

  lemma SameItself(g: Args, memory: seq<int>)
    ensures SameInputs(g, memory, memory)
  {
  }

  lemma LoadedIsSlice(g: Args, memory: seq<int>, tileRow: nat, k: nat, scratchpad: Lines)
    requires g.Valid(|memory|) && TILE * tileRow < g.m && TILE * k + TILE <= g.a.stride && Shape(scratchpad, 48)
    requires LoadedA(g, memory, tileRow, k, scratchpad, LastRow(g, tileRow) + 1)
    ensures SliceOfA(g, memory, tileRow, k, scratchpad)
  {
  }

  /** A store is that of a row of the product, aligned and in place. */
  lemma StoreStoresRow(g: Args, memory: seq<int>, words: seq<int>, c: nat, core: Core)
    requires g.Valid(|memory|) && SameInputs(g, memory, words) && CoreOk(g, memory, c, core) && core.pc.Store?
    ensures
      var (tileRow, tileCol, i) := (TileRow(g, c, core.local), TileCol(g, c, core.local), core.pc.i);
      var e := Row(TILE * tileRow + i, tileCol);
      && e.In(g) && |words| == |memory| && !StoreFaults(g, |words|, c, core, i)
      && StepWords(g, words, c, core) == StoreRow(g, words, e)
  {
    hide Access, RowAt, Accumulated, SameInputs, Block, Matrix.Start, Args.TilesM, Args.TilesN, StoreRow, LastRow,
         TileRow, TileCol, Row.In, RowAddress, RowValues, InTile, Dot;
    var tileRow, tileCol, i := TileRow(g, c, core.local), TileCol(g, c, core.local), core.pc.i;
    InTileIsInGrid(g, |memory|, c, core);
    StoreIsRow(g, memory, words, core.acc, tileRow, tileCol, i);
    RowAligned(g.c, TILE * tileRow, TILE * tileCol, i);
    SameLength(g, memory, words);
  }

  lemma StepStoreKeeps(g: Args, memory: seq<int>, words: seq<int>, c: nat, core: Core)
    requires g.Valid(|memory|) && SameInputs(g, memory, words) && CoreOk(g, memory, c, core) && core.pc.Store?
    ensures CoreOk(g, memory, c, StepCore(g, words, c, core))
  {
    StoreStoresRow(g, memory, words, c, core);
    NextTurn(core.local, c);
    hide Accumulated, SameInputs, Block, Matrix.Start, Matrix.End, StoreRow, StepWords, StoreFaults, TileRow, TileCol,
         LastRow, Row.In, Args.TilesM, Args.TilesN, Args.Valid, RowAddress, RowValues;
  }

  lemma NextTurn(local: nat, c: nat)
    ensures local % MINIONS == c % MINIONS ==> (local + MINIONS) % MINIONS == c % MINIONS
  {
  }

  lemma StepKeepsCore(g: Args, memory: seq<int>, words: seq<int>, c: nat, core: Core)
    requires g.Valid(|memory|) && SameInputs(g, memory, words) && CoreOk(g, memory, c, core)
    ensures CoreOk(g, memory, c, StepCore(g, words, c, core))
  {
    match core.pc {
      case Begin => StepHeadKeeps(g, memory, words, c, core);
      case Head => StepHeadKeeps(g, memory, words, c, core);
      case LoadA(_, _) => StepLoadAKeeps(g, memory, words, c, core);
      case LoadB(_, _) => StepLoadBKeeps(g, memory, words, c, core);
      case Fma(_) => StepFmaKeeps(g, memory, words, c, core);
      case Store(_) => StepStoreKeeps(g, memory, words, c, core);
      case Done =>
      case Fault =>
    }
  }

  // --- What has been stored ---------------------------------------------------------------

  /** Minion `c` has stored row `e`: its tile is past, or is being stored and its row is. */
  predicate Past(g: Args, c: nat, core: Core, e: Row)
    requires g.shires > 0 && g.TilesN() > 0
  {
    && !core.pc.Begin? && c < g.shires * MINIONS && Covers(Block(g, c), c % MINIONS, TileOf(g, e))
    && (TileOf(g, e) < Block(g, c).base + core.local
        || (core.pc.Store? && TileOf(g, e) == Block(g, c).base + core.local
            && e.i < TILE * TileRow(g, c, core.local) + core.pc.i))
  }

  ghost predicate PastStored(g: Args, memory: seq<int>, words: seq<int>, c: nat, core: Core)
    requires g.Valid(|memory|) && |words| == |memory|
  {
    forall e: Row | e.In(g) && Past(g, c, core, e) :: Stored(g, memory, words, e)
  }

  ghost predicate Inv(g: Args, memory: seq<int>, s: State)
    requires g.Valid(|memory|)
  {
    && Shaped(s)
    && SameInputs(g, memory, s.words)
    && (forall p | 0 <= p < |memory| && !g.c.Inside(p) :: s.words[p] == memory[p])
    && (forall c | 0 <= c < |s.cores| :: CoreOk(g, memory, c, s.cores[c]))
    && (forall c | 0 <= c < |s.cores| :: PastStored(g, memory, s.words, c, s.cores[c]))
  }

  /** The row stored, if any, is one of the product. */
  lemma StepStores(g: Args, memory: seq<int>, words: seq<int>, c: nat, core: Core)
    requires g.Valid(|memory|) && SameInputs(g, memory, words) && CoreOk(g, memory, c, core)
    ensures StepWords(g, words, c, core) == words || exists e: Row :: e.In(g) && StepWords(g, words, c, core) == StoreRow(g, words, e)
  {
    if core.pc.Store? {
      StoreStoresRow(g, memory, words, c, core);
    }
  }

  lemma RowStaysInC(g: Args, memory: seq<int>, words: seq<int>, e: Row)
    requires g.Valid(|memory|) && SameInputs(g, memory, words)
    ensures SameInputs(g, memory, StoreRow(g, words, e))
    ensures forall p | 0 <= p < |memory| && !g.c.Inside(p) :: StoreRow(g, words, e)[p] == words[p]
  {
    ExecStaysInC(g, words, [e]);
    assert Exec(g, words, [e]) == StoreRow(g, words, e);
  }

  /** A step of another Minion leaves stored what is stored. */
  lemma OthersStayStored(g: Args, memory: seq<int>, words: seq<int>, words': seq<int>, c: nat, core: Core)
    requires g.Valid(|memory|) && SameInputs(g, memory, words) && PastStored(g, memory, words, c, core)
    requires words' == words || exists e: Row :: e.In(g) && words' == StoreRow(g, words, e)
    ensures |words'| == |words| && PastStored(g, memory, words', c, core)
  {
    if words' != words {
      var d: Row :| d.In(g) && words' == StoreRow(g, words, d);
      forall e: Row | e.In(g) && Past(g, c, core, e)
        ensures Stored(g, memory, words', e)
      {
        StoreKeepsStored(g, memory, words, d, e);
      }
    }
  }

  /** What the step of a Minion adds to its past is the row that it stores. */
  lemma PastGrows(g: Args, memory: seq<int>, words: seq<int>, c: nat, core: Core, e: Row)
    requires g.Valid(|memory|) && SameInputs(g, memory, words) && CoreOk(g, memory, c, core) && e.In(g)
    requires Past(g, c, StepCore(g, words, c, core), e)
    ensures Past(g, c, core, e) ||
            (core.pc.Store? && e == Row(TILE * TileRow(g, c, core.local) + core.pc.i, TileCol(g, c, core.local)))
  {
    hide Accumulated, SliceOfB, LoadedA, SameInputs, Matrix.Start, Matrix.End, Matrix.Word;
    if core.pc.Store? {
      StoreStoresRow(g, memory, words, c, core);
      TileOfRow(g, e);
      RowInTile(g, e.i, e.i / TILE);
      OneTilePerTurn(Block(g, c), c % MINIONS, core.local, TileOf(g, e));
      hide Block, TileOf, Args.TilesM, Args.TilesN, StoreFaults, StepWords;
    } else {
      NotStored(g, memory, words, c, core, e);
    }
  }

  lemma NotStored(g: Args, memory: seq<int>, words: seq<int>, c: nat, core: Core, e: Row)
    requires g.Valid(|memory|) && CoreOk(g, memory, c, core) && e.In(g) && !core.pc.Store?
    requires Past(g, c, StepCore(g, words, c, core), e)
    ensures Past(g, c, core, e)
  {
    hide Accumulated, SliceOfB, LoadedA, Matrix.Start, Matrix.End, Matrix.Word, Block, Args.TilesM;
    TileOfRow(g, e);
    RowInTile(g, e.i, e.i / TILE);
    if core.pc.Begin? {
      NoneBefore(g, c, e);
    }
  }

  /** The first tile of a Minion is at its own position. */
  lemma NoneBefore(g: Args, c: nat, e: Row)
    requires g.shires > 0 && g.TilesN() > 0
    ensures Covers(Block(g, c), c % MINIONS, TileOf(g, e)) ==> TileOf(g, e) >= Block(g, c).base + c % MINIONS
  {
  }

  lemma OwnIsStored(g: Args, memory: seq<int>, words: seq<int>, c: nat, core: Core)
    requires g.Valid(|memory|) && SameInputs(g, memory, words) && CoreOk(g, memory, c, core)
    requires PastStored(g, memory, words, c, core)
    ensures |words| == |memory| && PastStored(g, memory, StepWords(g, words, c, core), c, StepCore(g, words, c, core))
  {
    var words', core' := StepWords(g, words, c, core), StepCore(g, words, c, core);
    SameLength(g, memory, words);
    StepStores(g, memory, words, c, core);
    OthersStayStored(g, memory, words, words', c, core);
    forall e: Row | e.In(g) && Past(g, c, core', e)
      ensures Stored(g, memory, words', e)
    {
      PastGrows(g, memory, words, c, core, e);
      if !Past(g, c, core, e) {
        StoreStoresRow(g, memory, words, c, core);
        StoreKeepsStored(g, memory, words, e, e);
      }
      hide Past, CoreOk, SameInputs, Stored, StepCore, StepWords, StoreRow;
    }
  }

  lemma StepKeepsInv(g: Args, memory: seq<int>, s: State, c: nat)
    requires g.Valid(|memory|) && Inv(g, memory, s)
    ensures Inv(g, memory, Step(g, s, c))
  {
    if c < |s.cores| {
      var s' := Step(g, s, c);
      SameLength(g, memory, s.words);
      StepStores(g, memory, s.words, c, s.cores[c]);
      hide CoreOk, PastStored, SameInputs, StoreRow, StepWords, StepCore, Args.Valid, Args.TilesN;
      StepKeepsCore(g, memory, s.words, c, s.cores[c]);
      OwnIsStored(g, memory, s.words, c, s.cores[c]);
      if s'.words != s.words {
        var e: Row :| e.In(g) && s'.words == StoreRow(g, s.words, e);
        RowStaysInC(g, memory, s.words, e);
      }
      forall d | 0 <= d < |s.cores| && d != c
        ensures PastStored(g, memory, s'.words, d, s'.cores[d])
      {
        OthersStayStored(g, memory, s.words, s'.words, d, s.cores[d]);
      }
    }
  }

  lemma {:induction false} RunKeepsInv(g: Args, memory: seq<int>, s: State, schedule: seq<nat>)
    requires g.Valid(|memory|) && Inv(g, memory, s)
    ensures Inv(g, memory, Run(g, s, schedule))
    decreases |schedule|
  {
    if schedule != [] {
      StepKeepsInv(g, memory, s, schedule[0]);
      RunKeepsInv(g, memory, Step(g, s, schedule[0]), schedule[1..]);
    }
  }

  // --- Main results ---------------------------------------------------------------------------

  /** A launch on at least the shires that the arguments name, whatever the tensor units hold. */
  predicate Launched(g: Args, s: State) {
    && Shaped(s) && g.shires * MINIONS <= |s.cores|
    && forall c | 0 <= c < |s.cores| :: s.cores[c].pc.Begin?
  }

  lemma LaunchIsInv(g: Args, s: State)
    requires g.Valid(|s.words|) && Launched(g, s)
    ensures Inv(g, s.words, s)
  {
  }

  /** In every schedule every access is aligned and within the allocation it is meant for. */
  lemma NoMinionFaults(g: Args, s: State, schedule: seq<nat>, c: nat)
    requires g.Valid(|s.words|) && Launched(g, s) && c < |s.cores|
    ensures !Run(g, s, schedule).cores[c].pc.Fault?
  {
    LaunchIsInv(g, s);
    RunKeepsInv(g, s.words, s, schedule);
    assert CoreOk(g, s.words, c, Run(g, s, schedule).cores[c]);
  }

  lemma RowIsStored(g: Args, memory: seq<int>, s: State, e: Row)
    requires g.Valid(|memory|) && Inv(g, memory, s) && g.shires * MINIONS <= |s.cores| && e.In(g)
    requires forall c | 0 <= c < |s.cores| :: s.cores[c].pc.Done?
    ensures |s.words| == |memory| && Stored(g, memory, s.words, e)
  {
    TileOfRow(g, e);
    var shire, minion := WorkSplit.TileHasOneOwner(g.TilesM() * g.TilesN(), g.shires, TileOf(g, e));
    var c := shire * MINIONS + minion;
    Arith.DivModUnique(c, MINIONS, shire, minion);
    Arith.MulMonotone(shire + 1, g.shires, MINIONS);
    assert CoreOk(g, memory, c, s.cores[c]) && PastStored(g, memory, s.words, c, s.cores[c]);
    assert Past(g, c, s.cores[c], e);
  }

  /** Whatever the schedule: once every Minion has returned, C is the product of A and B as
      they were at the launch; and at all times nothing outside C has changed. */
  lemma AnyScheduleComputesProduct(g: Args, s: State, schedule: seq<nat>)
    requires g.Valid(|s.words|) && Launched(g, s)
    ensures
      var s' := Run(g, s, schedule);
      && (forall p | 0 <= p < |s.words| && !g.c.Inside(p) :: s'.words[p] == s.words[p])
      && ((forall c | 0 <= c < |s'.cores| :: s'.cores[c].pc.Done?) ==>
            forall i, j | 0 <= i < g.m && 0 <= j < g.n :: s'.words[g.c.Word(i, j)] == Dot(g, s.words, i, j, g.k))
  {
    var s' := Run(g, s, schedule);
    LaunchIsInv(g, s);
    RunKeepsInv(g, s.words, s, schedule);
    if forall c | 0 <= c < |s'.cores| :: s'.cores[c].pc.Done? {
      forall i, j | 0 <= i < g.m && 0 <= j < g.n
        ensures s'.words[g.c.Word(i, j)] == Dot(g, s.words, i, j, g.k)
      {
        var e := Row(i, j / TILE);
        RowIsStored(g, s.words, s', e);
        StoredElement(g, s.words, s'.words, e, j);
      }
    }
  }

  // --- Every launch can come to its end -------------------------------------------------------

  function BlockLeft(g: Args, c: nat, core: Core): nat
    requires g.shires > 0
  {
    var end := Block(g, c).end;
    if core.pc.Begin? then end + 1 else if core.local < end then end - core.local else 0
  }

  function SlicesLeft(g: Args, core: Core): nat {
    match core.pc
    case Head => g.k + 2
    case LoadA(k, _) => if k <= g.k then g.k + 1 - k else 0
    case LoadB(k, _) => if k <= g.k then g.k + 1 - k else 0
    case Fma(k) => if k <= g.k then g.k + 1 - k else 0
    case _ => 0
  }

  function Phase(core: Core): nat {
    match core.pc
    case LoadA(_, _) => 3
    case LoadB(_, _) => 2
    case Fma(_) => 1
    case _ => 0
  }

  function RowsLeft(core: Core): nat {
    if (core.pc.LoadA? || core.pc.LoadB? || core.pc.Store?) && core.pc.i <= TILE then TILE - core.pc.i else 0
  }

  predicate Closer(g: Args, c: nat, core: Core, core': Core)
    requires g.shires > 0
  {
    || BlockLeft(g, c, core') < BlockLeft(g, c, core)
    || (BlockLeft(g, c, core') == BlockLeft(g, c, core)
        && (|| SlicesLeft(g, core') < SlicesLeft(g, core)
            || (SlicesLeft(g, core') == SlicesLeft(g, core)
                && (|| Phase(core') < Phase(core)
                    || (Phase(core') == Phase(core) && RowsLeft(core') < RowsLeft(core))))))
  }

  /** Every step of a Minion brings it closer to its end. */
  lemma StepIsCloser(g: Args, memory: seq<int>, words: seq<int>, c: nat, core: Core)
    requires g.Valid(|memory|) && SameInputs(g, memory, words) && CoreOk(g, memory, c, core)
    ensures
      var core' := StepCore(g, words, c, core);
      core.pc.Done? || core'.pc.Done? || Closer(g, c, core, core')
  {
    StepKeepsCore(g, memory, words, c, core);
    hide Accumulated, SliceOfB, LoadedA, SameInputs, Matrix.Start, Matrix.End, Matrix.Word, Args.TilesM, Args.TilesN,
         TileRow, TileCol, Multiply, Args.Valid, Fine, StoreFaults;
  }

  lemma {:induction false} RunAppend(g: Args, s: State, a: seq<nat>, b: seq<nat>)
    requires g.shires > 0 && g.TilesN() > 0 && Shaped(s)
    ensures Run(g, s, a + b) == Run(g, Run(g, s, a), b)
    decreases |a|
  {
    if a == [] {
      assert a + b == b;
    } else {
      assert (a + b)[0] == a[0] && (a + b)[1..] == a[1..] + b;
      RunAppend(g, Step(g, s, a[0]), a[1..], b);
    }
  }

  /** Run alone, a Minion returns. */
  lemma {:induction false} MinionReturns(g: Args, memory: seq<int>, s: State, c: nat) returns (schedule: seq<nat>)
    requires g.Valid(|memory|) && Inv(g, memory, s) && c < |s.cores|
    ensures
      var s' := Run(g, s, schedule);
      && Inv(g, memory, s') && s'.cores[c].pc.Done?
      && forall d | 0 <= d < |s.cores| && d != c :: s'.cores[d] == s.cores[d]
    decreases BlockLeft(g, c, s.cores[c]), SlicesLeft(g, s.cores[c]), Phase(s.cores[c]), RowsLeft(s.cores[c])
  {
    schedule := [];
    if !s.cores[c].pc.Done? {
      var next := Step(g, s, c);
      StepKeepsInv(g, memory, s, c);
      StepIsCloser(g, memory, s.words, c, s.cores[c]);
      hide CoreOk, PastStored, SameInputs, StepWords, StepCore, Args.Valid, BlockLeft, SlicesLeft, Phase, RowsLeft, Inv;
      var rest := [];
      if !next.cores[c].pc.Done? {
        rest := MinionReturns(g, memory, next, c);
      }
      schedule := [c] + rest;
      assert schedule[1..] == rest;
    }
  }

  /** From wherever a schedule has led, every Minion can still return. */
  lemma {:induction false} LaunchCanEnd(g: Args, memory: seq<int>, s: State, n: nat) returns (schedule: seq<nat>)
    requires g.Valid(|memory|) && Inv(g, memory, s) && n <= |s.cores|
    ensures Inv(g, memory, Run(g, s, schedule))
    ensures forall c | 0 <= c < n :: Run(g, s, schedule).cores[c].pc.Done?
    decreases n
  {
    schedule := [];
    if n > 0 {
      schedule := LaunchCanEnd(g, memory, s, n - 1);
      var mid := Run(g, s, schedule);
      var rest := MinionReturns(g, memory, mid, n - 1);
      RunAppend(g, s, schedule, rest);
      schedule := schedule + rest;
    }
  }
}
