/** Kernel images: the ELF checks of et-rs/src/elf.rs, against what the System V ABI,
    chapter 5, "Program Header", says of a loadable image. */
module Elf {
  import opened LittleEndian
  import opened Wrappers

  const HEADER: nat := 64
  const ENTRY: nat := 56
  const RISCV: nat := 243
  const LOAD: nat := 1
  const U64_END: nat := 0x1_0000_0000_0000_0000

  datatype Segment = Segment(fileOffset: nat, vaddr: nat, fileSize: nat, memSize: nat) {
    function End(): nat {
      vaddr + memSize
    }
  }

  datatype Image = Image(entry: nat, segments: seq<Segment>)

  datatype Error =
    | Short | BadMagic | BadClass | BadEncoding | BadMachine | BadEntrySize | TableOverflow | TableOutOfBounds
    | FileOverflow | FileOutOfBounds | MemTooSmall | MemOverflow | Overlap | EntryOutside

  predicate HasTable(image: seq<Byte>) {
    && HEADER <= |image|
    && Field(image, 32, 8) + Field(image, 56, 2) * ENTRY <= |image|
  }

  function TableOffset(image: seq<Byte>): nat
    requires HEADER <= |image|
  {
    Field(image, 32, 8)
  }

  function EntryCount(image: seq<Byte>): nat
    requires HEADER <= |image|
  {
    Field(image, 56, 2)
  }

  /** The `i`-th program header starts here. */
  function EntryAt(image: seq<Byte>, i: nat): (p: nat)
    requires HasTable(image) && i < EntryCount(image)
    ensures p + ENTRY <= |image|
  {
    TableOffset(image) + i * ENTRY
  }

  function IsLoad(image: seq<Byte>, i: nat): bool
    requires HasTable(image) && i < EntryCount(image)
  {
    Field(image, EntryAt(image, i), 4) == LOAD
  }

  function SegmentAt(image: seq<Byte>, i: nat): Segment
    requires HasTable(image) && i < EntryCount(image)
  {
    var p := EntryAt(image, i);
    Segment(Field(image, p + 8, 8), Field(image, p + 16, 8), Field(image, p + 32, 8), Field(image, p + 40, 8))
  }

  /** The loadable segments among the first `n` program headers, in their order. */
  function Loads(image: seq<Byte>, n: nat): (r: seq<Segment>)
    requires HasTable(image) && n <= EntryCount(image)
    decreases n
  {
    if n == 0 then []
    else if IsLoad(image, n - 1) then Loads(image, n - 1) + [SegmentAt(image, n - 1)]
    else Loads(image, n - 1)
  }

  // --- What the format requires ----------------------------------------------------

  predicate SegmentOk(image: seq<Byte>, s: Segment) {
    && s.fileOffset + s.fileSize <= |image|
    && s.fileSize <= s.memSize
    && s.End() < U64_END
  }

  predicate Overlaps(s: Segment, t: Segment) {
    s.memSize > 0 && t.memSize > 0 && s.vaddr < t.End() && t.vaddr < s.End()
  }

  predicate Apart(segments: seq<Segment>) {
    forall i, j | 0 <= i < j < |segments| :: !Overlaps(segments[j], segments[i])
  }

  predicate EntryInside(entry: nat, segments: seq<Segment>) {
    segments == [] || exists s | s in segments :: s.vaddr <= entry < s.End()
  }

  predicate IsRiscv64(image: seq<Byte>) {
    && HEADER <= |image|
    && image[0..4] == [0x7f, 0x45, 0x4c, 0x46] && image[4] == 2 && image[5] == 1
    && Field(image, 18, 2) == RISCV && Field(image, 54, 2) == ENTRY
  }

  predicate WellFormed(image: seq<Byte>) {
    && IsRiscv64(image) && HasTable(image)
    && (var segments := Loads(image, EntryCount(image));
        && (forall s | s in segments :: SegmentOk(image, s))
        && Apart(segments)
        && EntryInside(Field(image, 24, 8), segments))
  }

  // --- The parser ---------------------------------------------------------------------

  /** `parse` accepts exactly the well-formed images, and returns their entry point and
      loadable segments. The image is shorter than 2^64 bytes, as any slice is. */
  method Parse(image: seq<Byte>) returns (r: Result<Image, Error>)
    requires |image| < U64_END
    ensures r.Ok? <==> WellFormed(image)
    ensures r.Ok? ==> r.value == Image(Field(image, 24, 8), Loads(image, EntryCount(image)))
  {
    var bad := CheckHeader(image);
    if bad.Some? {
      return Err(bad.value);
    }
    var phoff, phnum := Field(image, 32, 8), Field(image, 56, 2);
    var length := phnum * ENTRY;
    if phoff + length >= U64_END {
      return Err(TableOverflow);
    }
    if phoff + length > |image| {
      return Err(TableOutOfBounds);
    }
    hide Field, Loads, SegmentOk, Apart;
    var segments;
    bad, segments := CollectSegments(image, phoff, phnum);
    if bad.Some? {
      return Err(bad.value);
    }
    var entry := Field(image, 24, 8);
    var found := AnyContains(segments, entry);
    if segments != [] && !found {
      return Err(EntryOutside);
    }
    r := Ok(Image(entry, segments));
  }

  /** The loop over the program headers. */
  method CollectSegments(image: seq<Byte>, phoff: nat, phnum: nat) returns (bad: Option<Error>, segments: seq<Segment>)
    requires |image| < U64_END && HasTable(image) && phoff == TableOffset(image) && phnum == EntryCount(image)
    ensures bad.Some? ==> !WellFormed(image)
    ensures bad.None? ==>
              && segments == Loads(image, phnum)
              && (forall s | s in segments :: SegmentOk(image, s)) && Apart(segments)
  {
    bad, segments := None, [];
    for i := 0 to phnum
      invariant bad.None? && segments == Loads(image, i)
      invariant (forall s | s in segments :: SegmentOk(image, s)) && Apart(segments)
    {
      var base := phoff + i * ENTRY;
      assert base == EntryAt(image, i);
      hide Field, SegmentOk, Overlaps;
      if Field(image, base, 4) != LOAD {
        continue;
      }
      var s := Segment(Field(image, base + 8, 8), Field(image, base + 16, 8), Field(image, base + 32, 8),
                       Field(image, base + 40, 8));
      assert s == SegmentAt(image, i) && Loads(image, i + 1) == segments + [s];
      bad := CheckSegment(image, s, segments);
      if bad.Some? {
        RejectedForGood(image, i, segments, s);
        return;
      }
      segments := segments + [s];
    }
  }

  method CheckHeader(image: seq<Byte>) returns (bad: Option<Error>)
    ensures bad.None? <==> IsRiscv64(image)
  {
    if |image| < HEADER { return Some(Short); }
    if image[0..4] != [0x7f, 0x45, 0x4c, 0x46] { return Some(BadMagic); }
    if image[4] != 2 { return Some(BadClass); }
    if image[5] != 1 { return Some(BadEncoding); }
    if Field(image, 18, 2) != RISCV { return Some(BadMachine); }
    if Field(image, 54, 2) != ENTRY { return Some(BadEntrySize); }
    bad := None;
  }

  /** The checks on one segment, and its overlap with the ones before it. */
  method CheckSegment(image: seq<Byte>, s: Segment, before: seq<Segment>) returns (bad: Option<Error>)
    requires |image| < U64_END
    ensures bad.None? <==> SegmentOk(image, s) && forall t | t in before :: !Overlaps(s, t)
  {
    if s.fileOffset + s.fileSize >= U64_END { return Some(FileOverflow); }
    if s.fileOffset + s.fileSize > |image| { return Some(FileOutOfBounds); }
    if s.memSize < s.fileSize { return Some(MemTooSmall); }
    if s.End() >= U64_END { return Some(MemOverflow); }
    for k := 0 to |before|
      invariant forall t | t in before[..k] :: !Overlaps(s, t)
    {
      if Overlaps(s, before[k]) { return Some(Overlap); }
    }
    assert before[..|before|] == before;
    bad := None;
  }

  method AnyContains(segments: seq<Segment>, entry: nat) returns (found: bool)
    ensures found <==> exists s | s in segments :: s.vaddr <= entry < s.End()
  {
    for k := 0 to |segments|
      invariant forall s | s in segments[..k] :: !(s.vaddr <= entry < s.End())
    {
      if segments[k].vaddr <= entry < segments[k].End() { return true; }
    }
    assert segments[..|segments|] == segments;
    found := false;
  }

  /** Segments found early stay in the list. */
  lemma {:induction false} LoadsGrow(image: seq<Byte>, m: nat, n: nat)
    requires HasTable(image) && m <= n <= EntryCount(image)
    ensures Loads(image, m) <= Loads(image, n)
    decreases n
  {
    if m < n {
      LoadsGrow(image, m, n - 1);
    }
  }

  /** A segment that fails its checks makes the image ill-formed, whatever follows. */
  lemma RejectedForGood(image: seq<Byte>, i: nat, before: seq<Segment>, s: Segment)
    requires HasTable(image) && i < EntryCount(image) && Loads(image, i + 1) == before + [s]
    requires !(SegmentOk(image, s) && forall t | t in before :: !Overlaps(s, t))
    ensures !WellFormed(image)
  {
    LoadsGrow(image, i + 1, EntryCount(image));
    var all := Loads(image, EntryCount(image));
    assert all[|before|] == s && s in all;
    if SegmentOk(image, s) {
      var t :| t in before && Overlaps(s, t);
      var k :| 0 <= k < |before| && before[k] == t;
      assert all[k] == t;
    }
  }
}
