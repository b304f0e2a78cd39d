/** The file format that Elf reads, field by field as the System V ABI lays it out (chapter 4,
    "ELF Header", and chapter 5, "Program Header", with the widths of ELF64), and what the
    parser makes of a file so written. */
module ElfFormat {
  import opened Elf
  import opened LittleEndian
  import opened Sequences
  import opened Wrappers

  /** `Elf64_Ehdr`, after the 16 bytes of `e_ident`. */
  datatype FileHeader = FileHeader(
    ident: seq<Byte>, fileType: nat, machine: nat, version: nat, entry: nat, phoff: nat, shoff: nat, flags: nat,
    ehsize: nat, phentsize: nat, phnum: nat, shentsize: nat, shnum: nat, shstrndx: nat)
  {
    predicate Sized() {
      && |ident| == 16
      && fileType < Pow256(2) && machine < Pow256(2) && version < Pow256(4)
      && entry < Pow256(8) && phoff < Pow256(8) && shoff < Pow256(8) && flags < Pow256(4)
      && ehsize < Pow256(2) && phentsize < Pow256(2) && phnum < Pow256(2)
      && shentsize < Pow256(2) && shnum < Pow256(2) && shstrndx < Pow256(2)
    }
  }

  /** `Elf64_Phdr`. */
  datatype ProgramHeader = ProgramHeader(
    segmentType: nat, flags: nat, offset: nat, vaddr: nat, paddr: nat, filesz: nat, memsz: nat, align: nat)
  {
    predicate Sized() {
      && segmentType < Pow256(4) && flags < Pow256(4) && offset < Pow256(8) && vaddr < Pow256(8)
      && paddr < Pow256(8) && filesz < Pow256(8) && memsz < Pow256(8) && align < Pow256(8)
    }

    predicate IsLoad() {
      segmentType == 1
    }

    predicate Covers(a: nat) {
      vaddr <= a < vaddr + memsz
    }

    /** What a loader takes from it. */
    function Loaded(): Segment {
      Segment(offset, vaddr, filesz, memsz)
    }
  }

  function EncodeHeader(h: FileHeader): seq<Byte> {
    h.ident + (Encode(h.fileType, 2) + (Encode(h.machine, 2) + (Encode(h.version, 4) + (Encode(h.entry, 8)
    + (Encode(h.phoff, 8) + (Encode(h.shoff, 8) + (Encode(h.flags, 4) + (Encode(h.ehsize, 2)
    + (Encode(h.phentsize, 2) + (Encode(h.phnum, 2) + (Encode(h.shentsize, 2) + (Encode(h.shnum, 2)
    + Encode(h.shstrndx, 2)))))))))))))
  }

  function EncodeEntry(e: ProgramHeader): (r: seq<Byte>)
    ensures |r| == 56
  {
    Encode(e.segmentType, 4) + (Encode(e.flags, 4) + (Encode(e.offset, 8) + (Encode(e.vaddr, 8)
    + (Encode(e.paddr, 8) + (Encode(e.filesz, 8) + (Encode(e.memsz, 8) + Encode(e.align, 8)))))))
  }

  /** The table of program headers lies within a file of `size` bytes. */
  predicate TableFits(h: FileHeader, size: nat) {
    h.phoff + h.phnum * 56 <= size
  }

  /** The file begins with this header, and has this table where the header says, if there is
      room for it; the rest of the file may be anything. */
  predicate Written(image: seq<Byte>, h: FileHeader, table: seq<ProgramHeader>) {
    && h.Sized() && 64 <= |image| && image[0..64] == EncodeHeader(h)
    && (TableFits(h, |image|) ==>
          && |table| == h.phnum
          && forall i | 0 <= i < |table| ::
               && table[i].Sized() && h.phoff + i * 56 + 56 <= |image|
               && image[h.phoff + i * 56..h.phoff + i * 56 + 56] == EncodeEntry(table[i]))
  }

  // --- What a loader may accept ----------------------------------------------------

  /** A little-endian ELF64 file for RISC-V, with entries of the size above. */
  predicate ForRiscv64(h: FileHeader)
    requires |h.ident| == 16
  {
    && h.ident[0..4] == [0x7f, 0x45, 0x4c, 0x46] && h.ident[4] == 2 && h.ident[5] == 1
    && h.machine == 243 && h.phentsize == 56
  }

  /** Each segment has its bytes in the file, no fewer in memory, and an address range. */
  predicate EntryOk(e: ProgramHeader, size: nat) {
    e.offset + e.filesz <= size && e.filesz <= e.memsz && e.vaddr + e.memsz < 0x1_0000_0000_0000_0000
  }

  /** No address is covered by both. */
  ghost predicate Disjoint(d: ProgramHeader, e: ProgramHeader) {
    forall a: nat | d.Covers(a) :: !e.Covers(a)
  }

  ghost predicate LoadsDisjoint(table: seq<ProgramHeader>) {
    forall i, k | 0 <= i < k < |table| && table[i].IsLoad() && table[k].IsLoad() :: Disjoint(table[k], table[i])
  }

  predicate LoadsOk(table: seq<ProgramHeader>, size: nat) {
    forall e | e in table && e.IsLoad() :: EntryOk(e, size)
  }

  /** The entry point is in a segment, if there are any. */
  predicate EntryLoaded(table: seq<ProgramHeader>, entry: nat) {
    (forall e | e in table :: !e.IsLoad()) || exists e | e in table && e.IsLoad() :: e.Covers(entry)
  }

  ghost predicate Acceptable(h: FileHeader, table: seq<ProgramHeader>, size: nat)
    requires |h.ident| == 16
  {
    && ForRiscv64(h) && TableFits(h, size)
    && LoadsOk(table, size) && LoadsDisjoint(table) && EntryLoaded(table, h.entry)
  }

  /** The segments to load, in the order of the table. */
  function LoadsOf(table: seq<ProgramHeader>): seq<Segment>
    decreases |table|
  {
    if table == [] then []
    else
      var (rest, e) := (LoadsOf(table[..|table| - 1]), table[|table| - 1]);
      if e.IsLoad() then rest + [e.Loaded()] else rest
  }

  // --- Reading it back ----------------------------------------------------------------

  lemma Peel(all: seq<Byte>, at: nat, part: seq<Byte>, tail: seq<Byte>)
    requires at <= |all| && all[at..] == part + tail
    ensures at + |part| <= |all| && all[at..at + |part|] == part && all[at + |part|..] == tail
  {
    var rest := all[at..];
    assert rest[..|part|] == part && rest[|part|..] == tail;
    assert all[at..at + |part|] == rest[..|part|];
    assert all[at + |part|..] == rest[|part|..];
  }

  lemma ReadPart(image: seq<Byte>, from: nat, part: seq<Byte>, at: nat, v: nat, n: nat)
    requires from + |part| <= |image| && image[from..from + |part|] == part
    requires at + n <= |part| && part[at..at + n] == Encode(v, n) && v < Pow256(n)
    ensures Field(image, from + at, n) == v
  {
    SliceOfSlice(image, from, from + |part|, at, at + n);
    RoundTrip(v, n);
  }

  lemma EntryParts(e: ProgramHeader)
    ensures
      var b := EncodeEntry(e);
      && b[0..4] == Encode(e.segmentType, 4) && b[8..16] == Encode(e.offset, 8) && b[16..24] == Encode(e.vaddr, 8)
      && b[32..40] == Encode(e.filesz, 8) && b[40..48] == Encode(e.memsz, 8)
  {
    hide Encode;
    var b := EncodeEntry(e);
    var tail7 := Encode(e.align, 8);
    var tail6 := Encode(e.memsz, 8) + tail7;
    var tail5 := Encode(e.filesz, 8) + tail6;
    var tail4 := Encode(e.paddr, 8) + tail5;
    var tail3 := Encode(e.vaddr, 8) + tail4;
    var tail2 := Encode(e.offset, 8) + tail3;
    var tail1 := Encode(e.flags, 4) + tail2;
    assert b == Encode(e.segmentType, 4) + tail1 && b[0..] == b;
    hide EncodeEntry;
    Peel(b, 0, Encode(e.segmentType, 4), tail1);
    Peel(b, 4, Encode(e.flags, 4), tail2);
    Peel(b, 8, Encode(e.offset, 8), tail3);
    Peel(b, 16, Encode(e.vaddr, 8), tail4);
    Peel(b, 24, Encode(e.paddr, 8), tail5);
    Peel(b, 32, Encode(e.filesz, 8), tail6);
    Peel(b, 40, Encode(e.memsz, 8), tail7);
  }

  lemma HeaderParts(h: FileHeader)
    requires |h.ident| == 16
    ensures
      var b := EncodeHeader(h);
      && |b| == 64 && b[0..16] == h.ident && b[18..20] == Encode(h.machine, 2) && b[24..32] == Encode(h.entry, 8)
      && b[32..40] == Encode(h.phoff, 8) && b[54..56] == Encode(h.phentsize, 2) && b[56..58] == Encode(h.phnum, 2)
  {
    hide Encode;
    var b := EncodeHeader(h);
    var tail12 := Encode(h.shnum, 2) + Encode(h.shstrndx, 2);
    var tail11 := Encode(h.shentsize, 2) + tail12;
    var tail10 := Encode(h.phnum, 2) + tail11;
    var tail9 := Encode(h.phentsize, 2) + tail10;
    var tail8 := Encode(h.ehsize, 2) + tail9;
    var tail7 := Encode(h.flags, 4) + tail8;
    var tail6 := Encode(h.shoff, 8) + tail7;
    var tail5 := Encode(h.phoff, 8) + tail6;
    var tail4 := Encode(h.entry, 8) + tail5;
    var tail3 := Encode(h.version, 4) + tail4;
    var tail2 := Encode(h.machine, 2) + tail3;
    var tail1 := Encode(h.fileType, 2) + tail2;
    assert b == h.ident + tail1 && b[0..] == b;
    hide EncodeHeader;
    Peel(b, 0, h.ident, tail1);
    Peel(b, 16, Encode(h.fileType, 2), tail2);
    Peel(b, 18, Encode(h.machine, 2), tail3);
    Peel(b, 20, Encode(h.version, 4), tail4);
    Peel(b, 24, Encode(h.entry, 8), tail5);
    Peel(b, 32, Encode(h.phoff, 8), tail6);
    Peel(b, 40, Encode(h.shoff, 8), tail7);
    Peel(b, 48, Encode(h.flags, 4), tail8);
    Peel(b, 52, Encode(h.ehsize, 2), tail9);
    Peel(b, 54, Encode(h.phentsize, 2), tail10);
    Peel(b, 56, Encode(h.phnum, 2), tail11);
  }

  /** An entry is read as it was written. */
  lemma EntryReadsBack(image: seq<Byte>, from: nat, e: ProgramHeader)
    requires e.Sized() && from + 56 <= |image| && image[from..from + 56] == EncodeEntry(e)
    ensures
      && Field(image, from, 4) == e.segmentType && Field(image, from + 8, 8) == e.offset
      && Field(image, from + 16, 8) == e.vaddr && Field(image, from + 32, 8) == e.filesz
      && Field(image, from + 40, 8) == e.memsz
  {
    EntryParts(e);
    hide EncodeEntry, Encode, Field, Pow256;
    ReadPart(image, from, EncodeEntry(e), 0, e.segmentType, 4);
    ReadPart(image, from, EncodeEntry(e), 8, e.offset, 8);
    ReadPart(image, from, EncodeEntry(e), 16, e.vaddr, 8);
    ReadPart(image, from, EncodeEntry(e), 32, e.filesz, 8);
    ReadPart(image, from, EncodeEntry(e), 40, e.memsz, 8);
  }

  lemma HeaderReadsBack(image: seq<Byte>, h: FileHeader)
    requires h.Sized() && 64 <= |image| && image[0..64] == EncodeHeader(h)
    ensures
      && image[0..4] == h.ident[0..4] && image[4] == h.ident[4] && image[5] == h.ident[5]
      && Field(image, 18, 2) == h.machine && Field(image, 24, 8) == h.entry && Field(image, 32, 8) == h.phoff
      && Field(image, 54, 2) == h.phentsize && Field(image, 56, 2) == h.phnum
  {
    HeaderParts(h);
    var b := EncodeHeader(h);
    hide EncodeHeader, Encode, Field, Pow256;
    ReadPart(image, 0, b, 18, h.machine, 2);
    ReadPart(image, 0, b, 24, h.entry, 8);
    ReadPart(image, 0, b, 32, h.phoff, 8);
    ReadPart(image, 0, b, 54, h.phentsize, 2);
    ReadPart(image, 0, b, 56, h.phnum, 2);
    forall k | 0 <= k < 16
      ensures image[k] == h.ident[k]
    {
      assert image[0..64][k] == b[0..16][k];
    }
  }

  /** The program header at `i` is read as it was written. */
  lemma EntryIsRead(image: seq<Byte>, h: FileHeader, table: seq<ProgramHeader>, i: nat)
    requires Written(image, h, table) && TableFits(h, |image|) && i < |table|
    requires HasTable(image) && EntryCount(image) == h.phnum && TableOffset(image) == h.phoff
    ensures IsLoad(image, i) == table[i].IsLoad() && SegmentAt(image, i) == table[i].Loaded()
  {
    hide EncodeHeader, EncodeEntry, Field, Pow256;
    var from := h.phoff + i * 56;
    assert EntryAt(image, i) == from;
    hide HasTable;
    assert table[i].Sized() && from + 56 <= |image| && image[from..from + 56] == EncodeEntry(table[i]);
    hide Written, ProgramHeader.Sized, FileHeader.Sized;
    EntryReadsBack(image, from, table[i]);
  }

  /** The segments found are those written. */
  lemma {:induction false} LoadsReadBack(image: seq<Byte>, h: FileHeader, table: seq<ProgramHeader>, n: nat)
    requires Written(image, h, table) && TableFits(h, |image|) && n <= |table|
    requires HasTable(image) && EntryCount(image) == h.phnum == |table| && TableOffset(image) == h.phoff
    ensures Loads(image, n) == LoadsOf(table[..n])
    decreases n
  {
    hide Written, EntryCount, TableOffset, SegmentAt, IsLoad, HasTable, ProgramHeader.Loaded;
    if n > 0 {
      LoadsReadBack(image, h, table, n - 1);
      EntryIsRead(image, h, table, n - 1);
      assert table[..n][..n - 1] == table[..n - 1] && table[..n][n - 1] == table[n - 1];
    }
  }

  /** The segments to load are those of the LOAD entries. */
  lemma {:induction false} LoadsAreEntries(table: seq<ProgramHeader>)
    ensures forall e | e in table && e.IsLoad() :: e.Loaded() in LoadsOf(table)
    ensures forall s | s in LoadsOf(table) :: exists e | e in table :: e.IsLoad() && e.Loaded() == s
    decreases |table|
  {
    hide ProgramHeader.Loaded, ProgramHeader.IsLoad;
    if table != [] {
      var n := |table| - 1;
      var (rest, e) := (table[..n], table[n]);
      LoadsAreEntries(rest);
      assert table == rest + [e];
      forall s | s in LoadsOf(table)
        ensures exists e | e in table :: e.IsLoad() && e.Loaded() == s
      {
        if s in LoadsOf(rest) {
          var d :| d in rest && d.IsLoad() && d.Loaded() == s;
          assert d in table;
        } else {
          assert e in table && e.IsLoad() && e.Loaded() == s;
        }
      }
    }
  }

  lemma OverlapIff(d: ProgramHeader, e: ProgramHeader)
    ensures Overlaps(d.Loaded(), e.Loaded()) <==> !Disjoint(d, e)
  {
    if Overlaps(d.Loaded(), e.Loaded()) {
      var a := if d.vaddr < e.vaddr then e.vaddr else d.vaddr;
      assert d.Covers(a) && e.Covers(a);
    }
  }

  /** No two segments overlap exactly if no two LOAD entries share an address. */
  lemma {:induction false} ApartIff(table: seq<ProgramHeader>)
    ensures Apart(LoadsOf(table)) <==> LoadsDisjoint(table)
    decreases |table|
  {
    if table != [] {
      var n := |table| - 1;
      var (rest, e) := (table[..n], table[n]);
      ApartIff(rest);
      LoadsAreEntries(rest);
      ApartGrows(rest, e);
      DisjointGrows(rest, e);
      assert table == rest + [e];
    }
  }

  lemma DisjointGrows(rest: seq<ProgramHeader>, e: ProgramHeader)
    ensures LoadsDisjoint(rest + [e]) <==>
            LoadsDisjoint(rest) && (e.IsLoad() ==> forall d | d in rest && d.IsLoad() :: Disjoint(e, d))
  {
    hide Disjoint, ProgramHeader.IsLoad;
    var all := rest + [e];
    assert all[|rest|] == e && forall i | 0 <= i < |rest| :: all[i] == rest[i];
    if LoadsDisjoint(all) && e.IsLoad() {
      forall d | d in rest && d.IsLoad()
        ensures Disjoint(e, d)
      {
        var i :| 0 <= i < |rest| && rest[i] == d;
        assert all[i] == d;
      }
    }
  }

  lemma ApartGrows(rest: seq<ProgramHeader>, e: ProgramHeader)
    ensures Apart(LoadsOf(rest + [e])) <==>
            Apart(LoadsOf(rest)) && (e.IsLoad() ==> forall d | d in rest && d.IsLoad() :: Disjoint(e, d))
  {
    var before := LoadsOf(rest);
    assert (rest + [e])[..|rest|] == rest;
    LoadsAreEntries(rest);
    if e.IsLoad() {
      forall d | d in rest && d.IsLoad()
        ensures Overlaps(e.Loaded(), d.Loaded()) <==> !Disjoint(e, d)
      {
        OverlapIff(e, d);
      }
      PairsGrow(before, e.Loaded());
      hide Disjoint, Apart, Overlaps, ProgramHeader.IsLoad, ProgramHeader.Loaded;
      assert LoadsOf(rest + [e]) == before + [e.Loaded()];
      if forall d | d in rest && d.IsLoad() :: Disjoint(e, d) {
        forall s | s in before
          ensures !Overlaps(e.Loaded(), s)
        {
          var d :| d in rest && d.IsLoad() && d.Loaded() == s;
        }
      }
    }
  }

  lemma PairsGrow(before: seq<Segment>, s: Segment)
    ensures Apart(before + [s]) <==> Apart(before) && forall t | t in before :: !Overlaps(s, t)
  {
    hide Overlaps;
    var all := before + [s];
    assert all[|before|] == s && forall i | 0 <= i < |before| :: all[i] == before[i];
    if Apart(all) {
      forall t | t in before
        ensures !Overlaps(s, t)
      {
        var i :| 0 <= i < |before| && before[i] == t;
        assert all[i] == t;
      }
    }
  }

  /** The conditions on a file header are those checked. */
  lemma HeaderChecks(image: seq<Byte>, h: FileHeader, table: seq<ProgramHeader>)
    requires Written(image, h, table)
    ensures ForRiscv64(h) <==> IsRiscv64(image)
    ensures TableFits(h, |image|) <==> HasTable(image)
    ensures Field(image, 24, 8) == h.entry && EntryCount(image) == h.phnum && TableOffset(image) == h.phoff
  {
    HeaderReadsBack(image, h);
    hide EncodeHeader, EncodeEntry, Field, Pow256;
  }

  /** Each segment is checked as its LOAD entry is. */
  lemma EntriesChecked(image: seq<Byte>, table: seq<ProgramHeader>, entry: nat)
    ensures (forall s | s in LoadsOf(table) :: SegmentOk(image, s)) <==> LoadsOk(table, |image|)
    ensures EntryInside(entry, LoadsOf(table)) <==> EntryLoaded(table, entry)
  {
    LoadsAreEntries(table);
    hide LoadsOf;
    if LoadsOf(table) != [] {
      var s := LoadsOf(table)[0];
      assert s in LoadsOf(table);
    }
  }

  /** The segments found in the whole table are those written. */
  lemma TableReadsBack(image: seq<Byte>, h: FileHeader, table: seq<ProgramHeader>)
    requires Written(image, h, table) && HasTable(image)
    ensures Loads(image, EntryCount(image)) == LoadsOf(table)
  {
    HeaderChecks(image, h, table);
    hide EncodeHeader, EncodeEntry, Loads, LoadsOf, HasTable;
    assert |table| == h.phnum;
    hide Written, EntryCount, TableOffset;
    LoadsReadBack(image, h, table, |table|);
    assert table[..|table|] == table;
  }

  /** The checks on the parsed image are the conditions on what was written. */
  lemma WellFormedIff(image: seq<Byte>, h: FileHeader, table: seq<ProgramHeader>)
    requires Written(image, h, table)
    ensures WellFormed(image) <==> Acceptable(h, table, |image|)
    ensures WellFormed(image) ==> Loads(image, EntryCount(image)) == LoadsOf(table)
  {
    HeaderChecks(image, h, table);
    hide Written, EncodeHeader, EncodeEntry, Loads, LoadsOf, IsRiscv64, ForRiscv64, HasTable, TableFits, Apart,
         LoadsDisjoint, LoadsOk, EntryLoaded, SegmentOk, EntryInside, EntryCount, TableOffset;
    if HasTable(image) {
      TableReadsBack(image, h, table);
      ApartIff(table);
      EntriesChecked(image, table, h.entry);
    }
  }

  /** Parsing a file so written succeeds exactly under the conditions above, and gives the
      entry point and the LOAD entries written, in order. */
  method ReadBack(image: seq<Byte>, ghost h: FileHeader, ghost table: seq<ProgramHeader>)
    returns (r: Result<Image, Error>)
    requires |image| < U64_END && Written(image, h, table)
    ensures r.Ok? <==> Acceptable(h, table, |image|)
    ensures r.Ok? ==> r.value == Image(h.entry, LoadsOf(table))
  {
    WellFormedIff(image, h, table);
    HeaderReadsBack(image, h);
    hide Written, WellFormed, Acceptable, EncodeHeader, Field, Loads, LoadsOf;
    r := Parse(image);
  }
}
