/** The host side of the GEMM, et-rs/src/blas.rs: how its matrices are allocated, which
    arguments it accepts, and that these make the kernel's assumptions true. */
module Blas {
  import Arith
  import Gemm
  import GemmMachine
  import opened Wrappers

  const ALIGN: nat := 64
  const U32_END: nat := 0x1_0000_0000
  const U64_END: nat := 0x1_0000_0000_0000_0000

  datatype Error = ZeroDimension | Shires | Scaling | Unaligned | ShortRow | Overflow | MissingShire

  /** A matrix argument, in bytes. */
  datatype Operand = Operand(addr: nat, stride: nat, rows: nat, cols: nat)

  function RoundUp(n: nat): (r: nat)
    ensures n <= r < n + ALIGN && r % ALIGN == 0
  {
    (n + ALIGN - 1) / ALIGN * ALIGN
  }

  /** `alloc_tensor_matrix`: the row stride and the size of the region it asks for. */
  function AllocMatrix(rows: nat, cols: nat): (r: Result<(nat, nat), Error>)
    ensures r.Ok? ==>
              && 0 < rows && 0 < cols
              && r.value.0 % ALIGN == 0 && cols * 4 <= r.value.0 < cols * 4 + ALIGN
              && r.value.1 == rows * r.value.0
  {
    if rows == 0 || cols == 0 then Err(ZeroDimension)
    else if RoundUp(cols * 4) >= U32_END then Err(Overflow)
    else if rows * RoundUp(cols * 4) >= U64_END then Err(Overflow)
    else Ok((RoundUp(cols * 4), rows * RoundUp(cols * 4)))
  }

  function CheckOperand(x: Operand): Result<(), Error> {
    if x.stride < x.cols * 4 then Err(ShortRow)
    else if x.rows > 0 && x.addr + (x.rows - 1) * x.stride + x.cols * 4 >= U64_END then Err(Overflow)
    else Ok(())
  }

  predicate Launchable(shires: nat, available: set<nat>) {
    forall s | 0 <= s < shires :: s in available
  }

  /** The checks of `sgemm`, in their order. */
  function Check(a: Operand, b: Operand, c: Operand, alpha: int, beta: int, shires: nat, available: set<nat>)
    : Result<(), Error>
  {
    if a.rows == 0 || b.cols == 0 || a.cols == 0 then Err(ZeroDimension)
    else if !(1 <= shires <= 63) then Err(Shires)
    else if alpha != 1 || beta != 0 then Err(Scaling)
    else if a.addr % ALIGN != 0 || b.addr % ALIGN != 0 || c.addr % ALIGN != 0 then Err(Unaligned)
    else if a.stride % ALIGN != 0 || b.stride % ALIGN != 0 || c.stride % ALIGN != 0 then Err(Unaligned)
    else if CheckOperand(a).Err? then CheckOperand(a)
    else if CheckOperand(b).Err? then CheckOperand(b)
    else if CheckOperand(c).Err? then CheckOperand(c)
    else if !Launchable(shires, available) then Err(MissingShire)
    else Ok(())
  }

  /** `sgemm` takes three dimensions, from which it derives the shape of each operand. */
  predicate Shaped(a: Operand, b: Operand, c: Operand, m: nat, n: nat, k: nat) {
    a.rows == m && a.cols == k && b.rows == k && b.cols == n && c.rows == m && c.cols == n
  }

  function ToMatrix(x: Operand): Gemm.Matrix {
    Gemm.Matrix(x.addr / 4, x.stride / 4, x.rows, x.cols)
  }

  function ToArgs(a: Operand, b: Operand, c: Operand, shires: nat): Gemm.Args {
    Gemm.Args(a.rows, b.cols, a.cols, ToMatrix(a), ToMatrix(b), ToMatrix(c), shires)
  }

  /** The region of the operand, as `alloc_tensor_matrix` sizes it, is within `bytes`. */
  predicate Allocated(x: Operand, bytes: nat) {
    x.addr + x.rows * x.stride <= bytes
  }

  predicate Apart(x: Operand, y: Operand) {
    x.addr + x.rows * x.stride <= y.addr || y.addr + y.rows * y.stride <= x.addr
  }

  lemma InWords(x: Operand)
    requires x.addr % ALIGN == 0 && x.stride % ALIGN == 0
    ensures ToMatrix(x).Aligned()
    ensures 4 * ToMatrix(x).base == x.addr && 4 * ToMatrix(x).stride == x.stride
    ensures 4 * ToMatrix(x).End() == x.addr + x.rows * x.stride
  {
    Quarter(x.addr);
    Quarter(x.stride);
    Arith.TimesFour(x.rows, x.stride / 4);
  }

  lemma Quarter(n: nat)
    requires n % ALIGN == 0
    ensures 4 * (n / 4) == n && n / 4 % Gemm.TILE == 0
  {
  }

  function Scaled(alpha: int, product: int, beta: int, was: int): int {
    alpha * product + beta * was
  }

  /** Arguments that `sgemm` accepts, for matrices allocated apart by `alloc_tensor_matrix`,
      are what the kernel assumes. */
  lemma AcceptedIsValid(a: Operand, b: Operand, c: Operand, m: nat, n: nat, k: nat, alpha: int, beta: int,
                        shires: nat, available: set<nat>, words: nat)
    requires Shaped(a, b, c, m, n, k) && Check(a, b, c, alpha, beta, shires, available) == Ok(())
    requires Allocated(a, 4 * words) && Allocated(b, 4 * words) && Allocated(c, 4 * words)
    requires Apart(a, c) && Apart(b, c)
    ensures ToArgs(a, b, c, shires).Valid(words)
  {
    InWords(a);
    InWords(b);
    InWords(c);
    hide Gemm.Matrix.End, ToMatrix;
  }

  /** `sgemm` accepts what `alloc_tensor_matrix` returns, on shires that are there. */
  lemma AllocatedIsAccepted(a: Operand, b: Operand, c: Operand, m: nat, n: nat, k: nat, shires: nat, available: set<nat>)
    requires Shaped(a, b, c, m, n, k) && 1 <= shires <= 63 && Launchable(shires, available)
    requires forall x | x in [a, b, c] ::
               && x.addr % ALIGN == 0
               && AllocMatrix(x.rows, x.cols) == Ok((x.stride, x.rows * x.stride))
               && x.addr + x.rows * x.stride < U64_END
    ensures Check(a, b, c, 1, 0, shires, available) == Ok(())
  {
    assert a in [a, b, c] && b in [a, b, c] && c in [a, b, c];
    LastRowEnds(a);
    LastRowEnds(b);
    LastRowEnds(c);
    hide AllocMatrix;
  }

  lemma LastRowEnds(x: Operand)
    requires AllocMatrix(x.rows, x.cols) == Ok((x.stride, x.rows * x.stride)) && x.addr + x.rows * x.stride < U64_END
    ensures CheckOperand(x).Ok? && x.stride % ALIGN == 0 && x.rows > 0 && x.cols > 0
  {
    Arith.Distribute(x.rows - 1, 1, x.stride);
  }

  /** `sgemm`, from the checks of the host to the memory that the kernel leaves: whatever the
      schedule of the Minions, once all have returned C is `alpha` times the product of A and B
      plus `beta` times what it was, for any scaling that is accepted, and nothing outside C
      has changed; and none of them makes an access that is not aligned or not within its
      matrix. */
  lemma SgemmComputesProduct(a: Operand, b: Operand, c: Operand, m: nat, n: nat, k: nat, alpha: int, beta: int,
                             shires: nat, available: set<nat>, s: GemmMachine.State, schedule: seq<nat>)
    requires Shaped(a, b, c, m, n, k) && Check(a, b, c, alpha, beta, shires, available) == Ok(())
    requires Allocated(a, 4 * |s.words|) && Allocated(b, 4 * |s.words|) && Allocated(c, 4 * |s.words|)
    requires Apart(a, c) && Apart(b, c) && GemmMachine.Launched(ToArgs(a, b, c, shires), s)
    ensures
      var g := ToArgs(a, b, c, shires);
      && g.Valid(|s.words|)
      && var s' := GemmMachine.Run(g, s, schedule);
      && (forall x | 0 <= x < |s'.cores| :: !s'.cores[x].pc.Fault?)
      && (forall p | 0 <= p < |s.words| && !g.c.Inside(p) :: s'.words[p] == s.words[p])
      && ((forall x | 0 <= x < |s'.cores| :: s'.cores[x].pc.Done?) ==>
            forall i, j | 0 <= i < m && 0 <= j < n ::
              s'.words[g.c.Word(i, j)] == Scaled(alpha, Gemm.Dot(g, s.words, i, j, k), beta, s.words[g.c.Word(i, j)]))
  {
    AcceptedIsValid(a, b, c, m, n, k, alpha, beta, shires, available, |s.words|);
    assert alpha == 1 && beta == 0;
    var g := ToArgs(a, b, c, shires);
    hide ToMatrix, Check, Allocated, Apart, Shaped, GemmMachine.Launched, Gemm.Args.Valid, Gemm.Dot;
    GemmMachine.AnyScheduleComputesProduct(g, s, schedule);
    forall x | 0 <= x < |s.cores|
      ensures !GemmMachine.Run(g, s, schedule).cores[x].pc.Fault?
    {
      GemmMachine.NoMinionFaults(g, s, schedule, x);
    }
  }
}
