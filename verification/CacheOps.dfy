/** The range operations of et-k-rs/src/cache.rs: a byte range is turned into the cache
    lines it touches, and these are handed to the hardware sixteen at a time. */
module CacheOps {
  import opened Arith
  import opened CacheHierarchy

  const LINE_BYTES: nat := 64
  const BATCH: nat := 16
  const VA_LIMIT: nat := 0x1_0000_0000_0000

  datatype Operation = FlushVa | EvictVa

  /** `n & !63`. */
  function LineFloor(n: nat): nat {
    n - n % LINE_BYTES
  }

  function LineCount(addr: nat, len: nat): nat {
    if len == 0 then 0 else (LineFloor(addr + len + 63) - LineFloor(addr)) / LINE_BYTES
  }

  /** Line `line` contains a byte of `[addr, addr + len)`. */
  predicate Touched(addr: nat, len: nat, line: nat) {
    exists b: nat | addr <= b < addr + len :: b / LINE_BYTES == line
  }

  /** The counted lines are exactly those that contain a byte of the range. */
  lemma LineCountCovers(addr: nat, len: nat, line: nat)
    ensures addr / LINE_BYTES <= line < addr / LINE_BYTES + LineCount(addr, len) <==> Touched(addr, len, line)
  {
    if len > 0 {
      assert addr / LINE_BYTES + LineCount(addr, len) == (addr + len + 63) / LINE_BYTES;
      var b := if line == addr / LINE_BYTES then addr else line * LINE_BYTES;
      assert addr / LINE_BYTES <= line < (addr + len + 63) / LINE_BYTES ==>
          addr <= b < addr + len && b / LINE_BYTES == line;
    }
  }

  /** The `evict_va`/`flush_va` operand: destination, line address, lines minus one. */
  function EncodeCsr(dest: nat, lineAddr: nat, hwCount: nat): nat {
    dest * 0x400_0000_0000_0000 + LineFloor(lineAddr % VA_LIMIT) + hwCount
  }

  function DecodeCsr(csr: nat): (nat, nat, nat) {
    (csr / 0x400_0000_0000_0000 % 4, LineFloor(csr % VA_LIMIT), csr % BATCH)
  }

  lemma CsrRoundTrips(dest: nat, lineAddr: nat, hwCount: nat)
    requires dest < 4 && hwCount < BATCH && lineAddr % LINE_BYTES == 0 && lineAddr < VA_LIMIT
    ensures DecodeCsr(EncodeCsr(dest, lineAddr, hwCount)) == (dest, lineAddr, hwCount)
  {
    var csr := EncodeCsr(dest, lineAddr, hwCount);
    var q := lineAddr / LINE_BYTES;
    assert lineAddr == LINE_BYTES * q;
    DivModUnique(csr, 0x400_0000_0000_0000, dest, lineAddr + hwCount);
    DivModUnique(csr, VA_LIMIT, 1024 * dest, lineAddr + hwCount);
    DivModUnique(lineAddr + hwCount, LINE_BYTES, q, hwCount);
    DivModUnique(csr, BATCH, 0x40_0000_0000_0000 * dest + 4 * q, hwCount);
  }

  function Apply(op: Operation, same: bool, l: Line, who: Role, dest: nat): Line
    requires dest <= LEVELS
  {
    if op.FlushVa? then Flush(same, l, who, dest) else Evict(same, l, who, dest)
  }

  /** The line numbers `first`, `first + 1`, ... in order. */
  function Consecutive(first: nat, n: nat): (r: seq<nat>)
    ensures |r| == n && forall k | 0 <= k < n :: r[k] == first + k
  {
    seq(n, k requires 0 <= k < n => first + k)
  }

  /** One Minion's cache-operation port over the lines of device memory. */
  class CachePort {
    const same: bool
    const who: Role
    var lines: seq<Line>
    /** Every line operated on, in the order issued. */
    var issued: seq<nat>

    constructor (same: bool, who: Role, lines: seq<Line>)
      ensures this.same == same && this.who == who && this.lines == lines && issued == []
    {
      this.same, this.who, this.lines, issued := same, who, lines, [];
    }

    /** `evict_va_hw` or `flush_va_hw`: the hardware operates on `hwCount + 1` lines. */
    method IssueHw(op: Operation, dest: nat, lineAddr: nat, hwCount: nat)
      requires dest <= LEVELS && hwCount < BATCH && lineAddr % LINE_BYTES == 0
      requires lineAddr + (hwCount + 1) * LINE_BYTES <= VA_LIMIT && lineAddr / LINE_BYTES + hwCount < |lines|
      modifies this
      ensures |lines| == |old(lines)|
      ensures forall k | 0 <= k < |lines| ::
                lines[k] == if lineAddr / LINE_BYTES <= k <= lineAddr / LINE_BYTES + hwCount
                            then Apply(op, same, old(lines)[k], who, dest) else old(lines)[k]
      ensures issued == old(issued) + Consecutive(lineAddr / LINE_BYTES, hwCount + 1)
    {
      var (target, first, count) := DecodeCsr(EncodeCsr(dest, lineAddr, hwCount));
      CsrRoundTrips(dest, lineAddr, hwCount);
      for i := 0 to count + 1
        invariant |lines| == |old(lines)|
        invariant forall k | 0 <= k < |lines| ::
            lines[k] == if first / LINE_BYTES <= k < first / LINE_BYTES + i
                        then Apply(op, same, old(lines)[k], who, target) else old(lines)[k]
        invariant issued == old(issued) + Consecutive(first / LINE_BYTES, i)
      {
        var k := first / LINE_BYTES + i;
        lines := lines[k := Apply(op, same, lines[k], who, target)];
        issued := issued + [k];
      }
    }

    /** `do_evict` and `do_flush`, whose loops are the same: the operation reaches every
        line that the range touches, each exactly once and in order, and no other. */
    method DoRange(op: Operation, dest: nat, addr: nat, len: nat)
      requires dest <= LEVELS && addr + len + 63 < VA_LIMIT && (addr + len + 63) / LINE_BYTES <= |lines|
      modifies this
      ensures |lines| == |old(lines)|
      ensures forall k | 0 <= k < |lines| ::
                lines[k] == if Touched(addr, len, k)
                            then Apply(op, same, old(lines)[k], who, dest) else old(lines)[k]
      ensures issued == old(issued) + Consecutive(addr / LINE_BYTES, LineCount(addr, len))
    {
      var n := LineCount(addr, len);
      var first := addr / LINE_BYTES;
      forall k: nat
        ensures first <= k < first + n <==> Touched(addr, len, k)
      {
        LineCountCovers(addr, len, k);
      }
      if n == 0 {
        return;
      }
      var line := LineFloor(addr);
      var rem := n;
      while rem > 0
        invariant 0 <= rem <= n && line == (first + (n - rem)) * LINE_BYTES
        invariant |lines| == |old(lines)|
        invariant forall k | 0 <= k < |lines| ::
            lines[k] == if first <= k < first + (n - rem)
                        then Apply(op, same, old(lines)[k], who, dest) else old(lines)[k]
        invariant issued == old(issued) + Consecutive(first, n - rem)
      {
        var batch := if rem < BATCH then rem else BATCH;
        IssueHw(op, dest, line, batch - 1);
        line := line + batch * LINE_BYTES;
        rem := rem - batch;
      }
    }
  }
}
