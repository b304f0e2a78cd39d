/** The DRAM bump allocator of et-rs/src/device.rs, and its histories of allocations, marks,
    resets and kernel loads. */
module Allocator {
  import Arith
  import opened Wrappers

  const CACHE_LINE: nat := 64

  /** The DRAM region and its DMA alignment, and the allocator's two positions. */
  datatype Heap = Heap(base: nat, size: nat, alignment: nat, next: nat, kernelEnd: nat) {
    function End(): nat {
      base + size
    }

    /** `max(dma_alignment, CACHE_LINE)`. */
    function Align(): (a: nat)
      ensures a >= CACHE_LINE
    {
      if alignment > CACHE_LINE then alignment else CACHE_LINE
    }

    predicate Ordered() {
      alignment >= 1 && base <= kernelEnd <= next <= End()
    }
  }

  datatype Region = Region(addr: nat, size: nat) {
    function End(): nat {
      addr + size
    }

    predicate Covers(a: nat) {
      addr <= a < End()
    }
  }

  /** Rounding up by masking, for a power of two. */
  function AlignUp(value: nat, align: nat): (r: nat)
    requires align > 0
    ensures value <= r < value + align && r % align == 0
  {
    var q := (value + align - 1) / align;
    Arith.DivModUnique(q * align, align, q, 0);
    q * align
  }

  function Bump(h: Heap, size: nat): (r: (Option<Region>, Heap)) {
    var start := AlignUp(h.next, h.Align());
    if start > h.End() || size > h.End() - start then (None, h)
    else (Some(Region(start, size)), h.(next := start + size))
  }

  /** A region of `size` bytes could start at `a`: it is aligned, beyond the position, and it
      ends within DRAM. */
  predicate Places(h: Heap, size: nat, a: nat) {
    h.next <= a && a % h.Align() == 0 && a + size <= h.End()
  }

  lemma AlignUpIsLeast(value: nat, align: nat, a: nat)
    requires align > 0 && value <= a && a % align == 0
    ensures AlignUp(value, align) <= a
  {
    var r := AlignUp(value, align);
    assert r == align * (r / align) && a == align * (a / align);
    if a < r {
      Arith.MulMonotone(a / align + 1, r / align, align);
    }
  }

  /** An allocation takes the first place there is, and fails only if there is none. */
  lemma BumpIsFirstFit(h: Heap, size: nat)
    ensures
      var (r, h') := Bump(h, size);
      && (r.Some? ==> Places(h, size, r.value.addr) && r.value.size == size && h' == h.(next := r.value.End()))
      && (r.None? ==> h' == h)
      && forall a: nat | Places(h, size, a) :: r.Some? && r.value.addr <= a
  {
    forall a: nat | Places(h, size, a)
      ensures AlignUp(h.next, h.Align()) <= a
    {
      AlignUpIsLeast(h.next, h.Align(), a);
    }
    hide AlignUp;
  }

  function Rewind(h: Heap, mark: nat): Heap {
    var target := if mark > h.kernelEnd then mark else h.kernelEnd;
    if target < h.next then h.(next := target) else h
  }

  /** The checks of `load_kernel` on one segment: within DRAM, and clear of what has been
      allocated since the last load. */
  predicate Loadable(h: Heap, s: Region) {
    && h.base <= s.addr && s.End() <= h.End()
    && !(s.size > 0 && s.addr < h.next && h.kernelEnd < s.End())
  }

  function OccupiedEnd(segments: seq<Region>, from: nat): (r: nat)
    ensures r >= from
    ensures forall s | s in segments :: s.End() <= r
    ensures r == from || exists s | s in segments :: r == s.End()
    decreases |segments|
  {
    if segments == [] then from
    else
      var rest := OccupiedEnd(segments[..|segments| - 1], from);
      var s := segments[|segments| - 1];
      if s.End() > rest then s.End() else rest
  }

  /** What `load_kernel` reserves once its segments are in place. */
  function Reserve(h: Heap, segments: seq<Region>): Heap
    requires h.alignment >= 1
  {
    ReserveTo(h, OccupiedEnd(segments, h.kernelEnd))
  }

  function ReserveTo(h: Heap, occupied: nat): Heap
    requires h.alignment >= 1
  {
    var end := AlignUp(occupied, h.alignment);
    var kernelEnd := if end < h.End() then end else h.End();
    h.(kernelEnd := kernelEnd, next := if h.next > kernelEnd then h.next else kernelEnd)
  }

  /** A kernel may end at `a`: aligned or at the end of DRAM, beyond every kernel so far and
      beyond these segments. */
  predicate EndsAt(h: Heap, segments: seq<Region>, a: nat)
    requires h.alignment >= 1
  {
    (a % h.alignment == 0 || a == h.End()) && h.kernelEnd <= a && forall s | s in segments :: s.End() <= a
  }

  /** A load reserves no more than it must: up to the first place where the kernel may end. */
  lemma ReserveIsLeast(h: Heap, segments: seq<Region>)
    requires h.Ordered() && forall s | s in segments :: s.End() <= h.End()
    ensures
      var h' := Reserve(h, segments);
      && EndsAt(h, segments, h'.kernelEnd) && (forall a: nat | EndsAt(h, segments, a) :: h'.kernelEnd <= a)
      && h' == h.(kernelEnd := h'.kernelEnd, next := Arith.Max(h.next, h'.kernelEnd))
  {
    var occupied := OccupiedEnd(segments, h.kernelEnd);
    forall a: nat | EndsAt(h, segments, a)
      ensures Reserve(h, segments).kernelEnd <= a
    {
      if a % h.alignment == 0 {
        AlignUpIsLeast(occupied, h.alignment, a);
      }
    }
    hide AlignUp, OccupiedEnd;
  }

  class DramAllocator {
    const base: nat
    const size: nat
    const alignment: nat
    var next: nat
    var kernelEnd: nat

    function State(): Heap
      reads this
    {
      Heap(base, size, alignment, next, kernelEnd)
    }

    constructor (base: nat, size: nat, alignment: nat)
      ensures State() == Heap(base, size, alignment, base, base)
    {
      this.base, this.size, this.alignment := base, size, alignment;
      next, kernelEnd := base, base;
    }

    method Alloc(size: nat) returns (r: Option<Region>)
      modifies this`next
      ensures (r, State()) == Bump(old(State()), size)
      ensures r.Some? ==>
                && Places(old(State()), size, r.value.addr) && r.value.size == size
                && State() == old(State()).(next := r.value.End())
      ensures r.None? ==> State() == old(State())
      ensures forall a: nat | Places(old(State()), size, a) :: r.Some? && r.value.addr <= a
    {
      BumpIsFirstFit(State(), size);
      hide AlignUp, Places;
      var align := if alignment > CACHE_LINE then alignment else CACHE_LINE;
      var start := AlignUp(next, align);
      var end := base + this.size;
      if start > end || size > end - start {
        return None;
      }
      next := start + size;
      r := Some(Region(start, size));
    }

    method Reserve(occupied: nat)
      requires alignment >= 1
      modifies this`next, this`kernelEnd
      ensures State() == ReserveTo(old(State()), occupied)
    {
      hide AlignUp;
      var end := AlignUp(occupied, alignment);
      kernelEnd := if end < base + size then end else base + size;
      next := if next > kernelEnd then next else kernelEnd;
    }

    method AllocMark() returns (mark: nat)
      ensures mark == next
    {
      mark := next;
    }

    method ResetTo(mark: nat)
      modifies this`next
      ensures State() == Rewind(old(State()), mark)
      ensures next == Arith.Min(old(next), Arith.Max(mark, kernelEnd)) && kernelEnd == old(kernelEnd)
    {
      var target := if mark > kernelEnd then mark else kernelEnd;
      if target < next {
        next := target;
      }
    }
  }

  // --- Histories -------------------------------------------------------------------

  /** A mark: the position, and how many regions were live when it was taken. */
  datatype Mark = Mark(at: nat, live: nat)

  /** The allocator with the regions not reclaimed, in order of allocation, of which those
      from `since` on were allocated after the last load; the marks not used yet; and the
      segments of every kernel ever loaded. */
  datatype History = History(heap: Heap, live: seq<Region>, since: nat, marks: seq<Mark>, images: seq<Region>)

  datatype Event =
    | Allocate(size: nat)
    | TakeMark
    /** A reset to the `m`-th open mark, which closes it and all later ones. */
    | Reset(m: nat)
    | Load(segments: seq<Region>)

  function Next(h: History, e: Event): History {
    match e
    case Allocate(size) =>
      var (r, heap) := Bump(h.heap, size);
      if r.None? then h else h.(heap := heap, live := h.live + [r.value])
    case TakeMark => h.(marks := h.marks + [Mark(h.heap.next, |h.live|)])
    case Reset(m) =>
      if m >= |h.marks| || h.marks[m].live > |h.live| then h
      else
        var k := h.marks[m].live;
        h.(heap := Rewind(h.heap, h.marks[m].at), live := h.live[..k],
           since := if h.since < k then h.since else k, marks := h.marks[..m])
    case Load(segments) =>
      if h.heap.alignment >= 1 && forall s | s in segments :: Loadable(h.heap, s) then
        h.(heap := Reserve(h.heap, segments), since := |h.live|, images := h.images + segments)
      else h
  }

  function Exec(h: History, events: seq<Event>): History
    decreases |events|
  {
    if events == [] then h else Exec(Next(h, events[0]), events[1..])
  }

  predicate Within(h: Heap, r: Region) {
    h.base <= r.addr && r.End() <= h.End() && r.addr % h.Align() == 0
  }

  predicate Inv(h: History) {
    && h.heap.Ordered()
    && h.since <= |h.live|
    && (forall i | 0 <= i < |h.live| :: Within(h.heap, h.live[i]) && h.live[i].End() <= h.heap.next)
    && (forall i, j | 0 <= i < j < |h.live| :: h.live[i].End() <= h.live[j].addr)
    && (forall i | h.since <= i < |h.live| :: h.heap.kernelEnd <= h.live[i].addr)
    && (forall s | s in h.images :: s.End() <= h.heap.kernelEnd)
    && (forall m | 0 <= m < |h.marks| :: MarkOk(h, h.marks[m]))
    && (forall m, n | 0 <= m < n < |h.marks| :: h.marks[m].at <= h.marks[n].at && h.marks[m].live <= h.marks[n].live)
  }

  /** What was live when the mark was taken lies below it. */
  predicate MarkOk(h: History, m: Mark) {
    && m.at <= h.heap.next && m.live <= |h.live|
    && forall i | 0 <= i < m.live :: h.live[i].End() <= m.at
  }

  function Fresh(base: nat, size: nat, alignment: nat): History {
    History(Heap(base, size, alignment, base, base), [], 0, [], [])
  }

  lemma AllocateKeepsInv(h: History, size: nat)
    requires Inv(h)
    ensures Inv(Next(h, Allocate(size)))
  {
  }

  lemma ResetKeepsInv(h: History, m: nat)
    requires Inv(h)
    ensures Inv(Next(h, Reset(m)))
  {
    if m < |h.marks| {
      assert MarkOk(h, h.marks[m]);
    }
    hide Bump, OccupiedEnd, AlignUp;
  }

  lemma LoadKeepsInv(h: History, segments: seq<Region>)
    requires Inv(h)
    ensures Inv(Next(h, Load(segments)))
  {
    if forall s | s in segments :: Loadable(h.heap, s) {
      assert OccupiedEnd(segments, h.heap.kernelEnd) <= h.heap.End();
    }
  }

  lemma NextKeepsInv(h: History, e: Event)
    requires Inv(h)
    ensures Inv(Next(h, e)) && h.heap.kernelEnd <= Next(h, e).heap.kernelEnd
  {
    match e {
      case Allocate(size) => AllocateKeepsInv(h, size);
      case TakeMark =>
      case Reset(m) => ResetKeepsInv(h, m);
      case Load(segments) =>
        LoadKeepsInv(h, segments);
        if forall s | s in segments :: Loadable(h.heap, s) {
          assert OccupiedEnd(segments, h.heap.kernelEnd) <= h.heap.End();
        }
    }
  }

  lemma {:induction false} ExecKeepsInv(h: History, events: seq<Event>)
    requires Inv(h)
    ensures Inv(Exec(h, events)) && h.heap.kernelEnd <= Exec(h, events).heap.kernelEnd
    decreases |events|
  {
    if events != [] {
      NextKeepsInv(h, events[0]);
      ExecKeepsInv(Next(h, events[0]), events[1..]);
    }
  }

  /** Over all histories: the positions stay in order, and the regions not reclaimed are
      disjoint, aligned and inside DRAM; those allocated since the last load lie above every
      kernel image ever loaded. */
  lemma HistoriesAreSound(base: nat, size: nat, alignment: nat, events: seq<Event>)
    requires alignment >= 1
    ensures
      var h := Exec(Fresh(base, size, alignment), events);
      && h.heap.base <= h.heap.kernelEnd <= h.heap.next <= h.heap.End()
      && (forall i | 0 <= i < |h.live| :: Within(h.heap, h.live[i]))
      && (forall i, j | 0 <= i < j < |h.live| :: h.live[i].End() <= h.live[j].addr)
      && (forall i, s | h.since <= i < |h.live| && s in h.images :: s.End() <= h.live[i].addr)
  {
    ExecKeepsInv(Fresh(base, size, alignment), events);
  }

  predicate Closes(e: Event, m: nat) {
    e.Reset? && e.m <= m
  }

  /** The mark is still open, and what was live when it was taken still is. */
  predicate StillOpen(h: History, m: nat, mark: Mark, live: seq<Region>) {
    m < |h.marks| && h.marks[m] == mark && mark.live == |live| && live <= h.live
  }

  lemma {:induction false} MarkStaysOpen(h: History, events: seq<Event>, m: nat, mark: Mark, live: seq<Region>)
    requires Inv(h) && StillOpen(h, m, mark, live) && forall e | e in events :: !Closes(e, m)
    ensures Inv(Exec(h, events)) && StillOpen(Exec(h, events), m, mark, live)
    decreases |events|
  {
    if events != [] {
      var e := events[0];
      NextKeepsInv(h, e);
      assert e in events && !Closes(e, m);
      assert StillOpen(Next(h, e), m, mark, live) by {
        hide Bump, Rewind, Reserve;
        if e.Reset? && e.m < |h.marks| {
          assert h.marks[m].live <= h.marks[e.m].live;
          assert mark.live <= h.marks[e.m].live;
        }
      }
      hide Inv, Next, StillOpen;
      MarkStaysOpen(Next(h, e), events[1..], m, mark, live);
    }
  }

  /** `alloc_mark` and `reset_to` bracket whatever happens between them, other than resets to
      this mark or an earlier one: afterwards what was live at the mark is live again, nothing
      more is, and the next region starts from where it would have then, unless a kernel has
      been loaded further up. */
  lemma ResetReclaims(h: History, events: seq<Event>)
    requires Inv(h) && forall e | e in events :: !Closes(e, |h.marks|)
    ensures
      var later := Exec(Next(h, TakeMark), events);
      var after := Next(later, Reset(|h.marks|));
      && after.live == h.live && |after.marks| == |h.marks|
      && after.heap == later.heap.(next := Arith.Max(h.heap.next, later.heap.kernelEnd))
  {
    var mark := Mark(h.heap.next, |h.live|);
    NextKeepsInv(h, TakeMark);
    MarkStaysOpen(Next(h, TakeMark), events, |h.marks|, mark, h.live);
    var later := Exec(Next(h, TakeMark), events);
    assert MarkOk(later, later.marks[|h.marks|]);
  }

  /** A segment is accepted exactly if it lies in DRAM and has no address between the end of the
      last kernel and the position, where regions allocated since may be; with nothing there,
      it is refused only if it straddles that point. */
  lemma LoadableIff(h: Heap, s: Region)
    requires h.Ordered()
    ensures Loadable(h, s) <==>
            && h.base <= s.addr && s.End() <= h.End()
            && (forall a: nat | s.Covers(a) :: !(h.kernelEnd <= a < h.next))
            && !(s.addr < h.kernelEnd == h.next < s.End())
  {
    if s.size > 0 && s.addr < h.next && h.kernelEnd < s.End() && h.kernelEnd < h.next {
      var a := Arith.Max(s.addr, h.kernelEnd);
      assert s.Covers(a);
    }
  }

  /** A load touches no region allocated since the load before. */
  lemma LoadSparesLiveRegions(h: History, segments: seq<Region>, i: nat, s: Region)
    requires Inv(h) && h.since <= i < |h.live| && s in segments && Loadable(h.heap, s)
    ensures s.size == 0 || s.End() <= h.live[i].addr || h.live[i].End() <= s.addr
  {
  }

  /** The regions in use need not be above every image: from a fresh 4 KiB region, one
      allocation and then a kernel at 1024. */
  lemma KernelAboveARegion(h: History, segments: seq<Region>)
    requires h == Fresh(0, 4096, 64) && segments == [Region(1024, 64)]
    ensures
      var after := Next(Next(h, Allocate(64)), Load(segments));
      after.live == [Region(0, 64)] && after.images == segments && after.live[0].End() <= segments[0].addr
  {
    Arith.DivModUnique(63, 64, 0, 63);
    var h1 := Next(h, Allocate(64));
    assert h1.live == [Region(0, 64)] && h1.heap == Heap(0, 4096, 64, 64, 0);
    assert forall s | s in segments :: Loadable(h1.heap, s);
    assert h1.images + segments == segments;
  }

  /** A load leaves the regions allocated since the one before above all its segments exactly
      when none of its segments starts at or beyond the allocator's position. */
  lemma AboveTheImageIff(h: History, segments: seq<Region>)
    requires Inv(h) && h.since < |h.live| && forall s | s in segments :: Loadable(h.heap, s) && s.size > 0
    ensures (forall i, s | h.since <= i < |h.live| && s in segments :: s.End() <= h.live[i].addr) <==>
            (forall s | s in segments :: s.addr < h.heap.next)
  {
    var i := h.since;
    forall s | s in segments
      ensures s.End() <= h.live[i].addr <==> s.addr < h.heap.next
    {
    }
  }
}
