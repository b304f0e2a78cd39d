/** `load_kernel` of et-rs/src/device.rs: the segments of an ELF image are checked, then
    written to device memory by DMA, then reserved. */
module Loader {
  import opened LittleEndian
  import opened Wrappers
  import opened Dma
  import opened Leftovers
  import Allocator
  import Elf
  import Staging
  import opened Transport

  const ZERO_CHUNK: nat := 0x10_0000

  datatype Error = BadImage(elf: Elf.Error) | OutsideDram | OverlapsLive | Transfer(error: Transport.Error)

  /** How the transfers of a load have ended: if it has failed before any of them, well. */
  function Sent(r: Result<nat, Error>): Outcome {
    if r.Err? && r.error.Transfer? then Failed(r.error.error) else Done
  }

  /** A segment as it should be in memory: its file bytes, then zeros. */
  function Contents(image: seq<Byte>, s: Elf.Segment): (r: seq<Byte>)
    requires Elf.SegmentOk(image, s)
    ensures |r| == s.memSize
  {
    image[s.fileOffset..s.fileOffset + s.fileSize] + Zeros(s.memSize - s.fileSize)
  }

  /** The segment's bytes of the file are in memory, and the rest of it is zero. */
  predicate InPlace(memory: seq<Byte>, image: seq<Byte>, s: Elf.Segment)
    requires Elf.SegmentOk(image, s)
  {
    && s.End() <= |memory|
    && forall a | s.vaddr <= a < s.End() ::
         memory[a] == if a < s.vaddr + s.fileSize then image[s.fileOffset + (a - s.vaddr)] else 0
  }

  function RegionOf(s: Elf.Segment): Allocator.Region {
    Allocator.Region(s.vaddr, s.memSize)
  }

  function Regions(segments: seq<Elf.Segment>): (r: seq<Allocator.Region>)
    ensures |r| == |segments|
  {
    seq(|segments|, i requires 0 <= i < |segments| => RegionOf(segments[i]))
  }

  /** Every segment passes the checks of `load_kernel`. */
  predicate Loadable(h: Allocator.Heap, segments: seq<Elf.Segment>) {
    forall i | 0 <= i < |segments| :: Allocator.Loadable(h, Regions(segments)[i])
  }

  lemma LoadableFits(h: Allocator.Heap, segments: seq<Elf.Segment>)
    requires Loadable(h, segments)
    ensures forall s | s in segments :: s.End() <= h.End()
  {
    forall s | s in segments
      ensures s.End() <= h.End()
    {
      var i :| 0 <= i < |segments| && segments[i] == s;
      assert Allocator.Loadable(h, Regions(segments)[i]);
    }
  }

  predicate Covered(segments: seq<Elf.Segment>, a: nat) {
    exists s | s in segments :: s.vaddr <= a < s.End()
  }

  class KernelLoader {
    const engine: Staging.Engine
    const heap: Allocator.DramAllocator

    constructor (engine: Staging.Engine, heap: Allocator.DramAllocator)
      ensures this.engine == engine && this.heap == heap
    {
      this.engine, this.heap := engine, heap;
    }

    ghost predicate Ready()
      reads this, engine, heap
    {
      engine.Valid() && heap.State().Ordered() && heap.State().End() <= |engine.hardware.memory|
    }

    /** After a transfer with this outcome the device and the engine agree on what is in flight,
        unless a bad status was met by the order in which the code drains its tags. */
    predicate Settled(r: Outcome) {
      !engine.drainFirst || r != Failed(DeviceStatus)
    }

    /** Writes the next `part` of the `data` that goes to `base`, of which the first `from` bytes
        have been written since `was`. */
    method WritePart(part: seq<Byte>, at: nat, ghost was: State, ghost base: nat, ghost data: seq<Byte>,
                     ghost from: nat, ghost start: seq<Happening>) returns (r: Outcome)
      requires engine.Valid() && Wf(was) && PartWritten(was, engine.hardware, base, data, from)
      requires from + |part| <= |data| && part == data[from..from + |part|] && at == base + from
      requires base + |data| <= |engine.hardware.memory| && Told(engine.world, start, engine.log, Done)
      modifies engine`hardware, engine`log, engine`staging, engine`leaked, engine`sources
      ensures engine.Intact() && (Settled(r) ==> engine.Valid()) && SamePinned(engine.pinned, old(engine.hardware), engine.hardware)
      ensures Spares(was, engine.hardware, true, 0, base, |data|) && Told(engine.world, start, engine.log, r)
      ensures |engine.hardware.memory| == |old(engine.hardware).memory|
      ensures r.Done? ==> PartWritten(was, engine.hardware, base, data, from + |part|)
    {
      hide Spares, Clear, Stable, Contained, NoUploads, Told;
      ghost var mid, asked := engine.hardware, engine.log;
      r := engine.MemcpyH2d(part, at, 0);
      ToldOn(engine.world, start, asked, engine.log, r);
      SparesSize(mid, engine.hardware, true, 0, at, |part|);
      SparesOn(was, mid, engine.hardware, 0, base, |data|, base, |data|, at, |part|);
      if r.Done? && Clear(was, true, 0, base, data) {
        NextPart(mid, engine.hardware, base, data, from, |part|);
      }
    }

    /** Clears the last `tail` bytes of what goes to `base`, from `at` on, a chunk at a time. */
    method ZeroFill(at: nat, tail: nat, ghost was: State, ghost base: nat, ghost data: seq<Byte>,
                    ghost from: nat, ghost start: seq<Happening>) returns (r: Outcome)
      requires engine.Valid() && Wf(was) && at == base + from && PartWritten(was, engine.hardware, base, data, from)
      requires |data| == from + tail && data[from..] == Zeros(tail)
      requires base + |data| <= |engine.hardware.memory| && Told(engine.world, start, engine.log, Done)
      modifies engine`hardware, engine`log, engine`staging, engine`leaked, engine`sources
      ensures engine.Intact() && (Settled(r) ==> engine.Valid()) && SamePinned(engine.pinned, old(engine.hardware), engine.hardware)
      ensures Spares(was, engine.hardware, true, 0, base, |data|) && Told(engine.world, start, engine.log, r)
      ensures r.Done? ==> PartWritten(was, engine.hardware, base, data, |data|)
    {
      PartSpares(was, engine.hardware, base, data, from);
      assert engine.Intact();
      hide PartWritten, Spares, Told, Contained, Wf, Zeros, SamePinned, Staging.Engine.Valid, Staging.Engine.Intact;
      PinnedStay(engine.pinned, engine.hardware, engine.hardware, engine.hardware);
      r := Done;
      var zeros := Zeros(if tail < ZERO_CHUNK then tail else ZERO_CHUNK);
      var done := 0;
      while done < tail
        invariant done <= tail && r.Done? && engine.Valid() && engine.Intact()
        invariant SamePinned(engine.pinned, old(engine.hardware), engine.hardware)
        invariant |engine.hardware.memory| == |old(engine.hardware).memory|
        invariant PartWritten(was, engine.hardware, base, data, from + done)
        invariant Spares(was, engine.hardware, true, 0, base, |data|) && Told(engine.world, start, engine.log, Done)
      {
        var len := if tail - done < |zeros| then tail - done else |zeros|;
        ZerosJoin(data, from, tail, |zeros|, done, len);
        ghost var mid := engine.hardware;
        r := WritePart(zeros[..len], at + done, was, base, data, from + done, start);
        PinnedStay(engine.pinned, old(engine.hardware), mid, engine.hardware);
        if r.Failed? {
          return;
        }
        done := done + len;
      }
    }

    /** Writes one segment: its file bytes, then zeros. */
    method LoadSegment(image: seq<Byte>, s: Elf.Segment) returns (r: Outcome)
      requires engine.Valid() && Elf.SegmentOk(image, s) && s.End() <= |engine.hardware.memory|
      modifies engine`hardware, engine`log, engine`staging, engine`leaked, engine`sources
      ensures engine.Intact() && (Settled(r) ==> engine.Valid()) && SamePinned(engine.pinned, old(engine.hardware), engine.hardware)
      ensures Spares(old(engine.hardware), engine.hardware, true, 0, s.vaddr, s.memSize)
      ensures r.Done? ==> |engine.hardware.inFlight| == |old(engine.hardware).inFlight|
      ensures r.Done? && old(Unspoilt(engine.hardware, image, s)) ==> Loaded(engine.hardware, image, s)
      ensures Told(engine.world, old(engine.log), engine.log, r)
    {
      NothingTold(engine.world, engine.log);
      hide Spares, Clear, Stable, Contained, PartWritten, Told;
      var file := image[s.fileOffset..s.fileOffset + s.fileSize];
      var tail := s.memSize - s.fileSize;
      ghost var was, all := engine.hardware, Contents(image, s);
      assert all[0..0 + s.fileSize] == file && all[s.fileSize..] == Zeros(tail);
      NoPartWritten(was, s.vaddr, all);
      r := Done;
      if s.fileSize > 0 {
        r := WritePart(file, s.vaddr, was, s.vaddr, all, 0, old(engine.log));
        if r.Failed? {
          return;
        }
      }
      if tail > 0 {
        r := ZeroFill(s.vaddr + s.fileSize, tail, was, s.vaddr, all, s.fileSize, old(engine.log));
      }
      if r.Done? {
        AllWritten(was, engine.hardware, s.vaddr, all);
      }
    }

    /** Writes every segment; the order does not matter, since they are apart. */
    method LoadSegments(image: seq<Byte>, segments: seq<Elf.Segment>) returns (r: Outcome)
      requires engine.Valid() && Elf.Apart(segments)
      requires forall s | s in segments :: Elf.SegmentOk(image, s) && s.End() <= |engine.hardware.memory|
      modifies engine`hardware, engine`log, engine`staging, engine`leaked, engine`sources
      ensures engine.Intact() && (Settled(r) ==> engine.Valid()) && SamePinned(engine.pinned, old(engine.hardware), engine.hardware)
      ensures SparesRest(old(engine.hardware), engine.hardware, segments)
      ensures r.Done? ==> |engine.hardware.inFlight| == |old(engine.hardware).inFlight|
      ensures r.Done? ==> forall s | s in segments && old(Unspoilt(engine.hardware, image, s)) ::
                            Loaded(engine.hardware, image, s)
      ensures Told(engine.world, old(engine.log), engine.log, r)
    {
      NothingTold(engine.world, engine.log);
      hide Spares, Contained, NoUploads, Unspoilt, Loaded, Elf.SegmentOk, Elf.Apart, SparesRest, Told;
      r := Done;
      ghost var was := engine.hardware;
      NothingWritten(was, segments);
      for k := 0 to |segments|
        invariant engine.Valid() && r.Done? && SamePinned(engine.pinned, was, engine.hardware)
        invariant SparesRest(was, engine.hardware, segments) && |engine.hardware.memory| == |was.memory|
        invariant |engine.hardware.inFlight| == |was.inFlight| && Told(engine.world, old(engine.log), engine.log, Done)
        invariant forall i | k <= i < |segments| && Unspoilt(was, image, segments[i]) ::
                    Unspoilt(engine.hardware, image, segments[i])
        invariant forall i | 0 <= i < k && Unspoilt(was, image, segments[i]) :: Loaded(engine.hardware, image, segments[i])
      {
        ghost var mid, asked := engine.hardware, engine.log;
        r := LoadSegment(image, segments[k]);
        ToldOn(engine.world, old(engine.log), asked, engine.log, r);
        SparesSize(mid, engine.hardware, true, 0, segments[k].vaddr, segments[k].memSize);
        RestOn(was, mid, engine.hardware, segments, segments[k]);
        if r.Failed? {
          return;
        }
        forall i | 0 <= i < |segments| && i != k
          ensures Unspoilt(mid, image, segments[i]) ==> Unspoilt(engine.hardware, image, segments[i])
          ensures Loaded(mid, image, segments[i]) ==> Loaded(engine.hardware, image, segments[i])
        {
          OtherSegment(mid, engine.hardware, image, segments, k, i);
        }
      }
    }

    /** `load_kernel`. Nothing is written unless every check has passed. On success every
        segment is in place and stays so, provided that no command left over from a failed
        transfer could spoil it; and in any case nothing outside the segments is disturbed,
        and the next kernel can be loaded. */
    method LoadKernel(image: seq<Byte>) returns (r: Result<nat, Error>)
      requires Ready() && |image| < Elf.U64_END
      modifies engine`hardware, engine`log, engine`staging, engine`leaked, engine`sources, heap
      ensures r.Ok? || !engine.drainFirst || r.error != Error.Transfer(DeviceStatus) ==> Ready()
      ensures engine.Intact() && SamePinned(engine.pinned, old(engine.hardware), engine.hardware)
      ensures r.Err? && !r.error.Transfer? ==> engine.hardware == old(engine.hardware) && heap.State() == old(heap.State())
      ensures r.Err? && !r.error.Transfer? <==> !old(Accepts(image))
      ensures r.Err? && r.error.Transfer? ==> heap.State() == old(heap.State())
      ensures Told(engine.world, old(engine.log), engine.log, Sent(r))
      ensures old(Accepts(image)) ==>
                SparesRest(old(engine.hardware), engine.hardware, Elf.Loads(image, Elf.EntryCount(image)))
      ensures r.Ok? ==>
                && |engine.hardware.inFlight| == |old(engine.hardware).inFlight|
                && var segments := Elf.Loads(image, Elf.EntryCount(image));
                && (forall s | s in segments && old(Unspoilt(engine.hardware, image, s)) :: Loaded(engine.hardware, image, s))
                && r.value == Field(image, 24, 8) && Elf.EntryInside(r.value, segments)
                && heap.State() == Allocator.Reserve(old(heap.State()), Regions(segments))
    {
      NothingTold(engine.world, engine.log);
      hide Elf.SegmentOk, Elf.Apart, Elf.EntryInside, Elf.IsRiscv64, Elf.HasTable, Elf.Loads, Field, Loadable,
           SparesRest, Loaded, Unspoilt, Told, Allocator.ReserveTo, Allocator.OccupiedEnd, NoUploads, Contained;
      var parsed := Elf.Parse(image);
      if parsed.Err? {
        return Err(BadImage(parsed.error));
      }
      var segments := parsed.value.segments;
      var bad, occupied := CheckSegments(segments);
      if bad.Some? {
        return Err(bad.value);
      }
      LoadableFits(heap.State(), segments);
      ghost var was := engine.hardware;
      var sent := LoadSegments(image, segments);
      RestSize(was, engine.hardware, segments);
      if sent.Failed? {
        return Err(Error.Transfer(sent.error));
      }
      ReserveOrders(heap.State(), Regions(segments));
      heap.Reserve(occupied);
      r := Ok(parsed.value.entry);
    }

    /** What `load_kernel` asks of an image before it writes anything. */
    predicate Accepts(image: seq<Byte>)
      reads this, heap
    {
      Elf.WellFormed(image) && Loadable(heap.State(), Elf.Loads(image, Elf.EntryCount(image)))
    }

    /** The checks on all segments, and the end of what they occupy. */
    method CheckSegments(segments: seq<Elf.Segment>) returns (bad: Option<Error>, occupied: nat)
      ensures bad.None? <==> Loadable(heap.State(), segments)
      ensures bad.Some? ==> !bad.value.Transfer?
      ensures occupied == Allocator.OccupiedEnd(Regions(segments), heap.kernelEnd) || bad.Some?
    {
      occupied, bad := heap.kernelEnd, None;
      ghost var h, regions := heap.State(), Regions(segments);
      OccupiedEnds(regions, heap.kernelEnd);
      assert forall k | 0 <= k < |segments| :: regions[k] == RegionOf(segments[k]);
      hide Occupied, Allocator.Loadable, Regions;
      for k := 0 to |segments|
        invariant forall i | 0 <= i < k :: Allocator.Loadable(h, regions[i])
        invariant Occupied(regions, k, heap.kernelEnd, occupied)
      {
        var s := segments[k];
        LoadableIff(h, s);
        assert regions[k] == RegionOf(s);
        if s.vaddr < heap.base || s.End() > heap.base + heap.size {
          return Some(OutsideDram), occupied;
        }
        if s.memSize > 0 && s.vaddr < heap.next && heap.kernelEnd < s.End() {
          return Some(OverlapsLive), occupied;
        }
        OccupiedOn(regions, k, heap.kernelEnd, occupied);
        occupied := if s.End() > occupied then s.End() else occupied;
      }
    }
  }

  lemma LoadableIff(h: Allocator.Heap, s: Elf.Segment)
    ensures Allocator.Loadable(h, RegionOf(s)) <==>
            && !(s.vaddr < h.base || s.End() > h.base + h.size)
            && !(s.memSize > 0 && s.vaddr < h.next && h.kernelEnd < s.End())
  {
  }

  /** The first `k` regions end, at the latest, at `end`. */
  predicate Occupied(regions: seq<Allocator.Region>, k: nat, from: nat, end: nat) {
    k <= |regions| && end == Allocator.OccupiedEnd(regions[..k], from)
  }

  lemma OccupiedOn(regions: seq<Allocator.Region>, k: nat, from: nat, end: nat)
    requires k < |regions| && Occupied(regions, k, from, end)
    ensures Occupied(regions, k + 1, from, if regions[k].End() > end then regions[k].End() else end)
  {
    assert regions[..k + 1][..k] == regions[..k];
  }

  lemma OccupiedEnds(regions: seq<Allocator.Region>, from: nat)
    ensures Occupied(regions, 0, from, from)
    ensures forall end | Occupied(regions, |regions|, from, end) :: end == Allocator.OccupiedEnd(regions, from)
  {
    assert regions[..|regions|] == regions && regions[..0] == [];
  }

  /** Loading a kernel leaves every region allocated since the load before it untouched. */
  lemma LiveRegionsAreSpared(h: Allocator.History, segments: seq<Elf.Segment>, i: nat, a: nat)
    requires Allocator.Inv(h) && Loadable(h.heap, segments)
    requires h.since <= i < |h.live| && h.live[i].addr <= a < h.live[i].End()
    ensures !Covered(segments, a)
  {
    forall s | s in segments
      ensures !(s.vaddr <= a < s.End())
    {
      var k :| 0 <= k < |segments| && segments[k] == s;
      assert Allocator.Loadable(h.heap, Regions(segments)[k]);
    }
  }

  function Zeros(n: nat): (r: seq<Byte>)
    ensures |r| == n
  {
    seq(n, _ => 0)
  }

  lemma ZerosJoin(data: seq<Byte>, from: nat, tail: nat, chunk: nat, done: nat, len: nat)
    requires |data| == from + tail && data[from..] == Zeros(tail) && done + len <= tail && len <= chunk
    ensures Zeros(chunk)[..len] == data[from + done..from + done + len]
  {
    assert data[from + done..from + done + len] == data[from..][done..done + len];
  }

  predicate SamePinned(pinned: set<nat>, d: State, d': State) {
    forall b | b in pinned && b in d.buffers :: b in d'.buffers && d'.buffers[b] == d.buffers[b]
  }

  lemma PinnedStay(pinned: set<nat>, was: State, d: State, d': State)
    ensures SamePinned(pinned, was, was)
    ensures SamePinned(pinned, was, d) && SamePinned(pinned, d, d') ==> SamePinned(pinned, was, d')
  {
  }

  /** No leftover command can spoil the upload of a segment. */
  ghost predicate Unspoilt(d: State, image: seq<Byte>, s: Elf.Segment)
    requires Dma.Wf(d) && Elf.SegmentOk(image, s)
  {
    Clear(d, true, 0, s.vaddr, Contents(image, s))
  }

  /** The segment is in place, and nothing that is unfinished will change it. */
  ghost predicate Loaded(d: State, image: seq<Byte>, s: Elf.Segment)
    requires Dma.Wf(d) && Elf.SegmentOk(image, s)
  {
    Stable(d, s.vaddr, Contents(image, s))
  }

  /** Since `was`, the first `n` bytes of `data` have been written to `at`: nothing but its range
      was disturbed, and unless a leftover command could spoil it, they are there to stay. */
  ghost predicate PartWritten(was: State, d: State, at: nat, data: seq<Byte>, n: nat)
    requires Wf(was)
  {
    && n <= |data| && Wf(d) && Spares(was, d, true, 0, at, |data|)
    && |d.memory| == |was.memory| && |d.inFlight| == |was.inFlight|
    && (Clear(was, true, 0, at, data) ==> Clear(d, true, 0, at, data) && Stable(d, at, data[..n]))
  }

  lemma PartSpares(was: State, d: State, at: nat, data: seq<Byte>, n: nat)
    requires Wf(was) && PartWritten(was, d, at, data, n)
    ensures Spares(was, d, true, 0, at, |data|)
  {
  }

  lemma NoPartWritten(d: State, at: nat, data: seq<Byte>)
    requires Wf(d) && at + |data| <= |d.memory|
    ensures PartWritten(d, d, at, data, 0) && Spares(d, d, true, 0, at, |data|)
  {
    hide Spares, Clear, Stable;
    SparesItself(d, d, true, 0, at, |data|);
    NothingIsStable(d, at, data[..0]);
  }

  lemma AllWritten(was: State, d: State, at: nat, data: seq<Byte>)
    requires Wf(was) && PartWritten(was, d, at, data, |data|)
    ensures Wf(d) && |d.inFlight| == |was.inFlight|
    ensures Clear(was, true, 0, at, data) ==> Stable(d, at, data)
  {
    hide Spares, Clear, Stable;
    assert data[..|data|] == data;
  }

  lemma NextPart(d: State, d': State, at: nat, data: seq<Byte>, from: nat, len: nat)
    requires Wf(d) && Wf(d') && from + len <= |data| && |d'.inFlight| == |d.inFlight|
    requires Spares(d, d', true, 0, at + from, len) && Clear(d, true, 0, at, data) && Stable(d, at, data[..from])
    requires Clear(d, true, 0, at + from, data[from..from + len]) ==> Stable(d', at + from, data[from..from + len])
    ensures Clear(d', true, 0, at, data) && Stable(d', at, data[..from + len])
  {
    hide Clear, Stable, Spares;
    SliceOf(d, 0, at, data, from, from + len);
    SparesClear(d, d', true, 0, at + from, len, 0, at, data);
    SparesStable(d, d', true, 0, at + from, len, at, data[..from]);
    Joined(d', at, data[..from], data[from..from + len]);
    assert data[..from + len] == data[..from] + data[from..from + len];
  }

  /** Writing one segment does not disturb another. */
  lemma OtherSegment(d: State, d': State, image: seq<Byte>, segments: seq<Elf.Segment>, k: nat, i: nat)
    requires Wf(d) && Wf(d') && k < |segments| && i < |segments| && i != k && Elf.Apart(segments)
    requires Elf.SegmentOk(image, segments[i]) && Elf.SegmentOk(image, segments[k])
    requires Spares(d, d', true, 0, segments[k].vaddr, segments[k].memSize) && |d'.inFlight| == |d.inFlight|
    ensures Unspoilt(d, image, segments[i]) ==> Unspoilt(d', image, segments[i])
    ensures Loaded(d, image, segments[i]) ==> Loaded(d', image, segments[i])
  {
    hide Clear, Stable, Spares, Elf.SegmentOk;
    var s, t := segments[k], segments[i];
    if Unspoilt(d, image, t) {
      SparesClear(d, d', true, 0, s.vaddr, s.memSize, 0, t.vaddr, Contents(image, t));
    }
    if Loaded(d, image, t) {
      assert !Elf.Overlaps(s, t) && !Elf.Overlaps(t, s);
      SparesStable(d, d', true, 0, s.vaddr, s.memSize, t.vaddr, Contents(image, t));
    }
  }

  /** What the writing of segments has spared: everything else (compare `Spares`). */
  ghost predicate SparesRest(d: State, d': State, segments: seq<Elf.Segment>)
    requires Wf(d)
  {
    && |d'.memory| == |d.memory| && |d.inFlight| <= |d'.inFlight|
    && (forall i | 0 <= i < |d.inFlight| :: d.inFlight[i].Became(d'.inFlight[i]))
    && (forall i | 0 <= i < |d.inFlight| && d'.inFlight[i].toDevice && !d'.inFlight[i].done ::
          var b := d.inFlight[i].buffer; b in d'.buffers && d'.buffers[b] == d.buffers[b])
    && (forall i, a: nat | |d.inFlight| <= i < |d'.inFlight| && d'.inFlight[i].toDevice && d'.inFlight[i].Covers(a) ::
          Covered(segments, a))
    && forall a | 0 <= a < |d.memory| && !Covered(segments, a) ::
         d'.memory[a] == d.memory[a] || Sends(d, a, d'.memory[a])
  }

  lemma RestSize(d: State, d': State, segments: seq<Elf.Segment>)
    requires Wf(d) && SparesRest(d, d', segments)
    ensures |d'.memory| == |d.memory|
  {
  }

  lemma NothingWritten(d: State, segments: seq<Elf.Segment>)
    requires Wf(d)
    ensures SparesRest(d, d, segments)
  {
  }

  lemma RestOn(d: State, mid: State, d': State, segments: seq<Elf.Segment>, s: Elf.Segment)
    requires Wf(d) && Wf(mid) && SparesRest(d, mid, segments) && s in segments
    requires Spares(mid, d', true, 0, s.vaddr, s.memSize)
    ensures SparesRest(d, d', segments)
  {
    forall i | 0 <= i < |d.inFlight|
      ensures d.inFlight[i].Became(d'.inFlight[i])
    {
      assert d.inFlight[i].Became(mid.inFlight[i]) && mid.inFlight[i].Became(d'.inFlight[i]);
    }
    forall i, a: nat | |d.inFlight| <= i < |d'.inFlight| && d'.inFlight[i].toDevice && d'.inFlight[i].Covers(a)
      ensures Covered(segments, a)
    {
      if i < |mid.inFlight| {
        assert mid.inFlight[i].Became(d'.inFlight[i]) && mid.inFlight[i].Covers(a);
      }
    }
    forall a | 0 <= a < |d.memory| && !Covered(segments, a)
      ensures d'.memory[a] == d.memory[a] || Sends(d, a, d'.memory[a])
    {
      if d'.memory[a] != mid.memory[a] {
        SentByOld(d, mid, segments, a, d'.memory[a]);
      }
    }
    hide Sends, Covered;
  }

  lemma SentByOld(d: State, mid: State, segments: seq<Elf.Segment>, a: nat, byte: Byte)
    requires Wf(d) && Wf(mid) && SparesRest(d, mid, segments) && Sends(mid, a, byte) && !Covered(segments, a)
    ensures Sends(d, a, byte)
  {
    var i :| 0 <= i < |mid.inFlight| && mid.inFlight[i].toDevice && !mid.inFlight[i].done
             && mid.inFlight[i].Covers(a) && SentTo(mid, mid.inFlight[i], a) == byte;
    assert d.inFlight[i].Became(mid.inFlight[i]);
    assert SentTo(d, d.inFlight[i], a) == byte;
  }

  /** What was stable before a load, outside its segments, is stable after it. */
  lemma RestIsStable(d: State, d': State, segments: seq<Elf.Segment>, at: nat, data: seq<Byte>)
    requires Wf(d) && Wf(d') && SparesRest(d, d', segments) && Stable(d, at, data)
    requires forall a: nat | at <= a < at + |data| :: !Covered(segments, a)
    ensures Stable(d', at, data)
  {
    forall a: nat | at <= a < at + |data|
      ensures d'.memory[a] == data[a - at]
    {
      assert d'.memory[a] == d.memory[a] || Sends(d, a, d'.memory[a]);
    }
    forall i, a: nat | 0 <= i < |d'.inFlight| && d'.inFlight[i].Covers(a) && at <= a < at + |data|
      && d'.inFlight[i].toDevice && !d'.inFlight[i].done
      ensures SentTo(d', d'.inFlight[i], a) == data[a - at]
    {
      assert !Covered(segments, a);
      assert i < |d.inFlight| && d.inFlight[i].Became(d'.inFlight[i]) && d.inFlight[i].Covers(a);
    }
  }

  lemma LoadedIsInPlace(d: State, image: seq<Byte>, s: Elf.Segment)
    requires Wf(d) && Elf.SegmentOk(image, s) && Loaded(d, image, s)
    ensures InPlace(d.memory, image, s)
  {
    var all := Contents(image, s);
    StableRange(d, s.vaddr, all);
    var range := d.memory[s.vaddr..s.End()];
    forall a | s.vaddr <= a < s.End()
      ensures d.memory[a] == if a < s.vaddr + s.fileSize then image[s.fileOffset + (a - s.vaddr)] else 0
    {
      assert range[a - s.vaddr] == all[a - s.vaddr];
    }
  }

  lemma ReserveOrders(h: Allocator.Heap, regions: seq<Allocator.Region>)
    requires h.Ordered()
    ensures Allocator.Reserve(h, regions).Ordered()
  {
  }

  /** Every segment of the kernel is in place, and nothing that is unfinished will change it. */
  ghost predicate KernelLoaded(d: State, image: seq<Byte>)
    requires Wf(d)
  {
    Elf.WellFormed(image) && forall s | s in Elf.Loads(image, Elf.EntryCount(image)) :: Loaded(d, image, s)
  }

  /** No segment of the one kernel covers a byte of the other. */
  ghost predicate KernelsApart(first: seq<Byte>, second: seq<Byte>)
    requires Elf.WellFormed(first) && Elf.WellFormed(second)
  {
    forall s, a: nat | s in Elf.Loads(first, Elf.EntryCount(first)) && s.vaddr <= a < s.End() ::
      !Covered(Elf.Loads(second, Elf.EntryCount(second)), a)
  }

  lemma FirstStays(d: State, d': State, first: seq<Byte>, second: seq<Byte>)
    requires Wf(d) && Wf(d') && Elf.WellFormed(second) && KernelLoaded(d, first) && KernelsApart(first, second)
    requires SparesRest(d, d', Elf.Loads(second, Elf.EntryCount(second)))
    ensures KernelLoaded(d', first)
  {
    hide SparesRest, Stable, Elf.IsRiscv64, Elf.EntryInside, Elf.Apart, Field, Covered, Elf.Loads;
    var segments := Elf.Loads(second, Elf.EntryCount(second));
    forall s | s in Elf.Loads(first, Elf.EntryCount(first))
      ensures Loaded(d', first, s)
    {
      RestIsStable(d, d', segments, s.vaddr, Contents(first, s));
    }
  }

  lemma NothingIsSpoilt(d: State, image: seq<Byte>)
    requires Wf(d) && NoUploads(d.inFlight) && Elf.WellFormed(image)
    ensures forall s | s in Elf.Loads(image, Elf.EntryCount(image)) :: Unspoilt(d, image, s)
  {
    hide Elf.IsRiscv64, Elf.EntryInside, Elf.Apart, Field, Elf.Loads, Clear;
    forall s | s in Elf.Loads(image, Elf.EntryCount(image))
      ensures Unspoilt(d, image, s)
    {
      NoUploadsIsClear(d, true, 0, s.vaddr, Contents(image, s));
    }
  }

  lemma RestNoUploads(d: State, d': State, segments: seq<Elf.Segment>)
    requires Wf(d) && SparesRest(d, d', segments) && |d'.inFlight| == |d.inFlight| && NoUploads(d.inFlight)
    ensures NoUploads(d'.inFlight)
  {
    forall i | 0 <= i < |d.inFlight|
      ensures d.inFlight[i].Became(d'.inFlight[i])
    {
    }
  }

  /** Both kernels pass the checks, the second on the heap that the first leaves. */
  predicate BothAccepted(h: Allocator.Heap, first: seq<Byte>, second: seq<Byte>)
    requires h.alignment >= 1
  {
    && Elf.WellFormed(first) && Elf.WellFormed(second)
    && var segments := Elf.Loads(first, Elf.EntryCount(first));
    && Loadable(h, segments)
    && Loadable(Allocator.Reserve(h, Regions(segments)), Elf.Loads(second, Elf.EntryCount(second)))
  }

  /** A kernel stays in place while the next one is loaded, if their segments are apart, and
      nothing was left over to start with. Both are loaded exactly if both pass the checks
      and no transfer meets with a mishap. */
  method LoadBoth(loader: KernelLoader, first: seq<Byte>, second: seq<Byte>)
      returns (ok: bool, ghost sent: Outcome)
    requires loader.Ready() && |first| < Elf.U64_END && |second| < Elf.U64_END
    requires NoUploads(loader.engine.hardware.inFlight)
    modifies loader.engine`hardware, loader.engine`log, loader.engine`staging, loader.engine`leaked, loader.engine`sources, loader.heap
    ensures ok || !loader.engine.drainFirst ==> loader.Ready()
    ensures Told(loader.engine.world, old(loader.engine.log), loader.engine.log, sent)
    ensures ok <==> old(BothAccepted(loader.heap.State(), first, second)) && sent.Done?
    ensures ok ==>
              && Elf.WellFormed(first) && KernelLoaded(loader.engine.hardware, second)
              && (KernelsApart(first, second) ==> KernelLoaded(loader.engine.hardware, first))
  {
    hide Elf.SegmentOk, Elf.Apart, Elf.EntryInside, Elf.IsRiscv64, Elf.Loads, Field, Loadable,
         SparesRest, Loaded, Unspoilt, Allocator.ReserveTo, Allocator.OccupiedEnd, NoUploads, Contained, KernelsApart, Told;
    ghost var was := loader.engine.hardware;
    var one := loader.LoadKernel(first);
    sent := Sent(one);
    if one.Err? {
      return false, sent;
    }
    ghost var asked := loader.engine.log;
    NothingIsSpoilt(was, first);
    ghost var mid := loader.engine.hardware;
    RestNoUploads(was, mid, Elf.Loads(first, Elf.EntryCount(first)));
    var two := loader.LoadKernel(second);
    ok, sent := two.Ok?, Sent(two);
    ToldOn(loader.engine.world, old(loader.engine.log), asked, loader.engine.log, sent);
    if ok {
      NothingIsSpoilt(mid, second);
      if KernelsApart(first, second) {
        FirstStays(mid, loader.engine.hardware, first, second);
      }
    }
  }
}
