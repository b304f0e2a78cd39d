/** Device trace buffers: the decoder of et-rs/src/trace.rs, and the writer `trace_str` of
    et-k-rs/src/lib.rs whose entries it reads back. */
module Trace {
  import opened Arith
  import opened LittleEndian
  import opened Sequences
  import opened Wrappers

  const MAGIC: nat := 1985229328
  const MAJOR: nat := 0
  const MINOR: nat := 6
  const STD_HEADER: nat := 64
  const ENTRY_HEADER: nat := 16
  const SIZE_HEADER: nat := 4

  datatype Entry = Entry(cycle: nat, hart: nat, rawType: nat, payload: seq<Byte>)

  datatype Header = Header(dataSize: nat, subSize: nat, subCount: nat)

  /** The bytes from the first entry to the end of one partition. */
  datatype Segment = Segment(start: nat, end: nat)

  /** `TraceBuffer::parse`: the header, unless it is short, or of another magic or version. */
  function ParseHeader(data: seq<Byte>): (r: Option<Header>)
    ensures r.Some? <==>
              && STD_HEADER <= |data| && Field(data, 0, 4) == MAGIC
              && Field(data, 4, 2) == MAJOR && Field(data, 6, 2) <= MINOR
  {
    if |data| < STD_HEADER || Field(data, 0, 4) != MAGIC then None
    else if Field(data, 4, 2) != MAJOR || Field(data, 6, 2) > MINOR then None
    else Some(Header(Field(data, 12, 4), Field(data, 16, 4), Field(data, 20, 2)))
  }

  /** A standard header: the fields that the decoder checks or keeps, and the rest. */
  function EncodeHeader(h: Header, minor: nat, kind: seq<Byte>, rest: seq<Byte>): (r: seq<Byte>)
    ensures |r| == 22 - 4 + |kind| + |rest|
  {
    Encode(MAGIC, 4) + Encode(MAJOR, 2) + Encode(minor, 2) + kind
    + Encode(h.dataSize, 4) + Encode(h.subSize, 4) + Encode(h.subCount, 2) + rest
  }

  lemma HeaderParts(h: Header, minor: nat, kind: seq<Byte>, rest: seq<Byte>)
    requires |kind| == 4
    ensures
      var all := EncodeHeader(h, minor, kind, rest);
      && all[0..4] == Encode(MAGIC, 4) && all[4..6] == Encode(MAJOR, 2) && all[6..8] == Encode(minor, 2)
      && all[8..] == kind + SizeParts(h, rest)
  {
    hide Encode;
  }

  function SizeParts(h: Header, rest: seq<Byte>): (r: seq<Byte>)
    ensures |r| == 10 + |rest|
  {
    Encode(h.dataSize, 4) + Encode(h.subSize, 4) + Encode(h.subCount, 2) + rest
  }

  lemma HeaderSizes(h: Header, minor: nat, kind: seq<Byte>, rest: seq<Byte>)
    requires |kind| == 4
    ensures
      var all := EncodeHeader(h, minor, kind, rest);
      all[12..16] == Encode(h.dataSize, 4) && all[16..20] == Encode(h.subSize, 4) && all[20..22] == Encode(h.subCount, 2)
  {
    hide Encode;
    HeaderParts(h, minor, kind, rest);
    var all := EncodeHeader(h, minor, kind, rest);
    assert all[12..] == all[8..][4..] == SizeParts(h, rest);
    hide EncodeHeader;
    SliceOfSlice(all, 12, |all|, 0, 4);
    SliceOfSlice(all, 12, |all|, 4, 8);
    SliceOfSlice(all, 12, |all|, 8, 10);
  }

  /** Whatever was put into a header of a version that is not too new is read from it. */
  lemma HeaderRoundTrips(h: Header, minor: nat, kind: seq<Byte>, rest: seq<Byte>)
    requires h.dataSize < Pow256(4) && h.subSize < Pow256(4) && h.subCount < Pow256(2)
    requires minor <= MINOR && |kind| == 4 && |rest| >= STD_HEADER - 22
    ensures ParseHeader(EncodeHeader(h, minor, kind, rest)) == Some(h)
  {
    HeaderParts(h, minor, kind, rest);
    HeaderSizes(h, minor, kind, rest);
    Widths();
    hide EncodeHeader, Encode, Decode, Pow256;
    RoundTrip(MAGIC, 4);
    RoundTrip(MAJOR, 2);
    RoundTrip(minor, 2);
    RoundTrip(h.dataSize, 4);
    RoundTrip(h.subSize, 4);
    RoundTrip(h.subCount, 2);
  }

  // --- What a buffer means, partition by partition -----------------------------------

  /** The entries between `off` and `end`, up to the first that does not fit. */
  function DecodeFrom(data: seq<Byte>, off: nat, end: nat): seq<Entry>
    requires end <= |data|
    decreases end - off
  {
    if off + ENTRY_HEADER > end then []
    else
      var next := off + ENTRY_HEADER + Field(data, off + 8, 4);
      if next > end then []
      else [EntryAt(data, off, next)] + DecodeFrom(data, next, end)
  }

  lemma DecodeOne(data: seq<Byte>, off: nat, end: nat, next: nat)
    requires off + ENTRY_HEADER <= next <= end <= |data| && next == off + ENTRY_HEADER + Field(data, off + 8, 4)
    ensures DecodeFrom(data, off, end) == [EntryAt(data, off, next)] + DecodeFrom(data, next, end)
  {
  }

  lemma DecodeNone(data: seq<Byte>, off: nat, end: nat)
    requires end <= |data| && (off + ENTRY_HEADER <= end ==> off + ENTRY_HEADER + Field(data, off + 8, 4) > end)
    ensures DecodeFrom(data, off, end) == []
  {
  }

  function EntryAt(data: seq<Byte>, off: nat, next: nat): Entry
    requires off + ENTRY_HEADER <= next <= |data|
  {
    Entry(Field(data, off, 8), Field(data, off + 12, 2), Field(data, off + 14, 2), data[off + ENTRY_HEADER..next])
  }

  /** The populated ones among partitions `i` up to `count`, each with its size header. */
  function SubSegments(data: seq<Byte>, stride: nat, i: nat, count: nat): seq<Segment>
    decreases count - i
  {
    if i >= count then []
    else
      var base := i * stride;
      (if base + SIZE_HEADER <= |data| && Field(data, base, 4) > SIZE_HEADER
       then [Segment(base + SIZE_HEADER, Min(base + Field(data, base, 4), |data|))] else [])
      + SubSegments(data, stride, i + 1, count)
  }

  /** One partition, and those after it. */
  lemma SubSegmentsAt(data: seq<Byte>, stride: nat, i: nat, count: nat, base: nat)
    requires i < count && base == i * stride
    ensures SubSegments(data, stride, i, count) ==
            (if base + SIZE_HEADER <= |data| && Field(data, base, 4) > SIZE_HEADER
             then [Segment(base + SIZE_HEADER, Min(base + Field(data, base, 4), |data|))] else [])
            + SubSegments(data, stride, i + 1, count)
  {
  }

  function Segments(data: seq<Byte>, h: Header): seq<Segment> {
    (if Min(h.dataSize, |data|) > STD_HEADER then [Segment(STD_HEADER, Min(h.dataSize, |data|))] else [])
    + (if h.subCount > 1 && h.subSize >= SIZE_HEADER then SubSegments(data, h.subSize, 1, h.subCount) else [])
  }

  predicate InBounds(data: seq<Byte>, segments: seq<Segment>) {
    forall s | s in segments :: s.start <= s.end <= |data|
  }

  /** The entries of all partitions, one after the other, each decoded on its own. */
  function EntriesOf(data: seq<Byte>, segments: seq<Segment>): seq<Entry>
    requires InBounds(data, segments)
    decreases |segments|
  {
    if segments == [] then []
    else DecodeFrom(data, segments[0].start, segments[0].end) + EntriesOf(data, segments[1..])
  }

  lemma {:induction false} SubSegmentsInBounds(data: seq<Byte>, stride: nat, i: nat, count: nat)
    ensures InBounds(data, SubSegments(data, stride, i, count))
    decreases count - i
  {
    if i < count {
      SubSegmentsInBounds(data, stride, i + 1, count);
    }
  }

  /** Past the end of the buffer there are no more partitions. */
  lemma {:induction false} NothingBeyond(data: seq<Byte>, stride: nat, i: nat, count: nat)
    requires i * stride + SIZE_HEADER > |data|
    ensures SubSegments(data, stride, i, count) == []
    decreases count - i
  {
    if i < count {
      MulMonotone(i, i + 1, stride);
      NothingBeyond(data, stride, i + 1, count);
    }
  }

  /** `segments`. */
  method CollectSegments(data: seq<Byte>, h: Header) returns (segments: seq<Segment>)
    ensures segments == Segments(data, h) && InBounds(data, segments)
  {
    segments := [];
    var end := Min(h.dataSize, |data|);
    if end > STD_HEADER {
      segments := [Segment(STD_HEADER, end)];
    }
    if h.subCount > 1 && h.subSize >= SIZE_HEADER {
      SubSegmentsInBounds(data, h.subSize, 1, h.subCount);
      var more := CollectSubSegments(data, h.subSize, h.subCount);
      segments := segments + more;
    } else {
      assert segments + [] == segments;
    }
  }

  /** Its loop stops at the first partition out of bounds, and yet finds them all. */
  method CollectSubSegments(data: seq<Byte>, stride: nat, count: nat) returns (segments: seq<Segment>)
    requires count > 1
    ensures segments == SubSegments(data, stride, 1, count)
  {
    hide Field, Min;
    segments := [];
    var i := 1;
    while i < count
      invariant i <= count
      invariant segments + SubSegments(data, stride, i, count) == SubSegments(data, stride, 1, count)
    {
      var base := i * stride;
      if base + SIZE_HEADER > |data| {
        NothingBeyond(data, stride, i, count);
        break;
      }
      ghost var rest := SubSegments(data, stride, i + 1, count);
      var size := Field(data, base, 4);
      if size > SIZE_HEADER {
        var s := Segment(base + SIZE_HEADER, Min(base + size, |data|));
        assert segments + ([s] + rest) == (segments + [s]) + rest;
        segments := segments + [s];
      } else {
        assert [] + rest == rest;
      }
      i := i + 1;
    }
    assert segments + [] == segments;
  }

  // --- The iterator ---------------------------------------------------------------------

  lemma EntriesFrom(data: seq<Byte>, segments: seq<Segment>, i: nat)
    requires InBounds(data, segments) && i < |segments|
    ensures segments[i].start <= segments[i].end <= |data|
    ensures EntriesOf(data, segments[i..]) ==
            DecodeFrom(data, segments[i].start, segments[i].end) + EntriesOf(data, segments[i + 1..])
  {
    assert segments[i] in segments && segments[i..][0] == segments[i] && segments[i..][1..] == segments[i + 1..];
  }

  lemma NoEntries(data: seq<Byte>, segments: seq<Segment>)
    requires InBounds(data, segments)
    ensures EntriesOf(data, segments[|segments|..]) == []
  {
  }

  class Entries {
    const data: seq<Byte>
    const segments: seq<Segment>
    var segment: nat
    var offset: nat
    var started: bool

    ghost predicate Valid()
      reads this
    {
      InBounds(data, segments) && segment <= |segments|
    }

    /** What the iterator has still to yield. */
    ghost function Remaining(): seq<Entry>
      requires Valid()
      reads this
    {
      if segment < |segments| && started then
        assert segments[segment] in segments;
        DecodeFrom(data, offset, segments[segment].end) + EntriesOf(data, segments[segment + 1..])
      else EntriesOf(data, segments[segment..])
    }

    constructor (data: seq<Byte>, segments: seq<Segment>)
      requires InBounds(data, segments)
      ensures Valid() && Remaining() == EntriesOf(data, segments)
      ensures this.data == data && this.segments == segments
    {
      this.data, this.segments := data, segments;
      segment, offset, started := 0, 0, false;
      new;
      assert segments[0..] == segments;
    }

    /** `next`: yields the first remaining entry, or ends when there is none. */
    method Next() returns (r: Option<Entry>)
      requires Valid()
      modifies this
      ensures Valid()
      ensures r.None? ==> old(Remaining()) == []
      ensures r.Some? ==> old(Remaining()) == [r.value] + Remaining()
    {
      hide EntryAt, Field, DecodeFrom, EntriesOf;
      while segment < |segments|
        invariant Valid() && Remaining() == old(Remaining())
        decreases |segments| - segment
      {
        var seg := segments[segment];
        assert seg in segments;
        EntriesFrom(data, segments, segment);
        if !started {
          offset, started := seg.start, true;
        }
        ghost var rest := EntriesOf(data, segments[segment + 1..]);
        assert Remaining() == DecodeFrom(data, offset, seg.end) + rest;
        if offset + ENTRY_HEADER > seg.end {
          DecodeNone(data, offset, seg.end);
          assert [] + rest == rest;
          segment, started := segment + 1, false;
          continue;
        }
        var next := offset + ENTRY_HEADER + Field(data, offset + 8, 4);
        if next > seg.end || next > |data| {
          DecodeNone(data, offset, seg.end);
          assert [] + rest == rest;
          segment, started := segment + 1, false;
          continue;
        }
        r := Some(EntryAt(data, offset, next));
        DecodeOne(data, offset, seg.end, next);
        offset := next;
        Regroup([r.value], DecodeFrom(data, next, seg.end), rest);
        return;
      }
      NoEntries(data, segments);
      r := None;
    }
  }

  /** `entries`, run to its end: the concatenation of the partitions' own decodings. */
  method DecodeAll(data: seq<Byte>) returns (all: Option<seq<Entry>>)
    ensures all.Some? <==> ParseHeader(data).Some?
    ensures all.Some? ==>
              && InBounds(data, Segments(data, ParseHeader(data).value))
              && all.value == EntriesOf(data, Segments(data, ParseHeader(data).value))
  {
    var h := ParseHeader(data);
    if h.None? {
      return None;
    }
    hide Segments, EntriesOf, DecodeFrom, Entries.Remaining, ParseHeader, InBounds;
    var segments := CollectSegments(data, h.value);
    var it := new Entries(data, segments);
    var found := [];
    while true
      invariant it.Valid() && found + it.Remaining() == EntriesOf(data, segments)
      decreases |it.Remaining()|
    {
      ghost var was := it.Remaining();
      var e := it.Next();
      if e.None? {
        break;
      }
      Regroup(found, [e.value], it.Remaining());
      found := found + [e.value];
    }
    all := Some(found);
  }

  // --- Corruption ---------------------------------------------------------------------

  predicate Agree(a: seq<Byte>, b: seq<Byte>, from: nat, to: nat) {
    |a| == |b| && to <= |a| && forall k | from <= k < to :: a[k] == b[k]
  }

  lemma FieldAgrees(a: seq<Byte>, b: seq<Byte>, from: nat, to: nat, at: nat, n: nat)
    requires Agree(a, b, from, to) && from <= at && at + n <= to
    ensures Field(a, at, n) == Field(b, at, n)
  {
    assert a[at..at + n] == b[at..at + n];
  }

  /** The bytes of `a` from `from` to `to` are those of `b`, `d` places further on. */
  predicate Moved(a: seq<Byte>, b: seq<Byte>, from: nat, to: nat, d: nat) {
    from <= to <= |a| && to + d <= |b| && a[from..to] == b[from + d..to + d]
  }

  lemma PartMoves(a: seq<Byte>, b: seq<Byte>, from: nat, to: nat, d: nat, i: nat, j: nat)
    requires Moved(a, b, from, to, d) && from <= i <= j <= to
    ensures Moved(a, b, i, j, d)
  {
    SliceOfSlice(a, from, to, i - from, j - from);
    SliceOfSlice(b, from + d, to + d, i - from, j - from);
  }

  lemma FieldMoves(a: seq<Byte>, b: seq<Byte>, from: nat, to: nat, d: nat, at: nat, n: nat)
    requires Moved(a, b, from, to, d) && from <= at && at + n <= to
    ensures Field(a, at, n) == Field(b, at + d, n)
  {
    PartMoves(a, b, from, to, d, at, at + n);
  }

  lemma EntryMoves(a: seq<Byte>, b: seq<Byte>, off: nat, end: nat, d: nat, next: nat)
    requires Moved(a, b, off, end, d) && off + ENTRY_HEADER <= next <= end
    ensures next <= |a| && next + d <= |b| && EntryAt(a, off, next) == EntryAt(b, off + d, next + d)
  {
    FieldMoves(a, b, off, end, d, off, 8);
    FieldMoves(a, b, off, end, d, off + 12, 2);
    FieldMoves(a, b, off, end, d, off + 14, 2);
    PartMoves(a, b, off, end, d, off + ENTRY_HEADER, next);
  }

  /** A partition's entries depend on its own bytes alone, and not on where in the buffer they
      are. */
  lemma {:induction false} PartitionMoves(a: seq<Byte>, b: seq<Byte>, off: nat, end: nat, d: nat)
    requires Moved(a, b, off, end, d)
    ensures DecodeFrom(a, off, end) == DecodeFrom(b, off + d, end + d)
    decreases end - off
  {
    assert off <= end <= |a| && end + d <= |b|;
    hide Moved, Field, EntryAt, DecodeFrom;
    if off + ENTRY_HEADER > end {
      DecodeNone(a, off, end);
      DecodeNone(b, off + d, end + d);
    } else {
      FieldMoves(a, b, off, end, d, off + 8, 4);
      var next := off + ENTRY_HEADER + Field(a, off + 8, 4);
      if next > end {
        DecodeNone(a, off, end);
        DecodeNone(b, off + d, end + d);
      } else {
        DecodeOne(a, off, end, next);
        DecodeOne(b, off + d, end + d, next + d);
        EntryMoves(a, b, off, end, d, next);
        PartMoves(a, b, off, end, d, next, end);
        PartitionMoves(a, b, next, end, d);
      }
    }
  }

  lemma PartitionIsIndependent(a: seq<Byte>, b: seq<Byte>, off: nat, end: nat)
    requires Agree(a, b, off, end)
    ensures DecodeFrom(a, off, end) == DecodeFrom(b, off, end)
  {
    if off <= end {
      assert a[off..end] == b[off + 0..end + 0];
      PartitionMoves(a, b, off, end, 0);
    }
  }

  /** The entries that end by `mid` come first. */
  lemma {:induction false} EntriesByMid(data: seq<Byte>, off: nat, mid: nat, end: nat)
    requires mid <= end <= |data|
    ensures DecodeFrom(data, off, mid) <= DecodeFrom(data, off, end)
    decreases mid - off
  {
    if off + ENTRY_HEADER <= mid {
      var next := off + ENTRY_HEADER + Field(data, off + 8, 4);
      if next <= mid {
        EntriesByMid(data, next, mid, end);
      }
    }
  }

  /** Whatever is overwritten from `bad` on, a partition keeps every entry that ends by
      then, in both buffers as its first ones. */
  lemma CorruptionSparesWhatPrecedes(a: seq<Byte>, b: seq<Byte>, start: nat, bad: nat, end: nat)
    requires |a| == |b| && bad <= end <= |a| && Agree(a, b, start, bad)
    ensures DecodeFrom(a, start, bad) <= DecodeFrom(a, start, end)
    ensures DecodeFrom(a, start, bad) <= DecodeFrom(b, start, end)
  {
    PartitionIsIndependent(a, b, start, bad);
    EntriesByMid(a, start, bad, end);
    EntriesByMid(b, start, bad, end);
  }

  /** A corrupt partition loses entries of its own only: those of all others are decoded as
      before, in their places. */
  lemma CorruptionStaysInside(a: seq<Byte>, b: seq<Byte>, before: seq<Segment>, bad: Segment, after: seq<Segment>)
    requires |a| == |b| && InBounds(a, before + [bad] + after)
    requires forall s | s in before + after :: Agree(a, b, s.start, s.end)
    ensures InBounds(a, before) && InBounds(a, after) && InBounds(b, before + [bad] + after)
    ensures EntriesOf(a, before + [bad] + after) ==
            EntriesOf(a, before) + DecodeFrom(a, bad.start, bad.end) + EntriesOf(a, after)
    ensures EntriesOf(b, before + [bad] + after) ==
            EntriesOf(a, before) + DecodeFrom(b, bad.start, bad.end) + EntriesOf(a, after)
  {
    assert forall s | s in before || s in after :: s in before + [bad] + after && s in before + after;
    assert bad in before + [bad] + after;
    SplitEntries(a, before, bad, after);
    SplitEntries(b, before, bad, after);
    SameEntries(a, b, before);
    SameEntries(a, b, after);
  }

  lemma {:induction false} EntriesAppend(data: seq<Byte>, a: seq<Segment>, b: seq<Segment>)
    requires InBounds(data, a) && InBounds(data, b)
    ensures InBounds(data, a + b) && EntriesOf(data, a + b) == EntriesOf(data, a) + EntriesOf(data, b)
    decreases |a|
  {
    hide DecodeFrom;
    if a == [] {
      assert a + b == b;
    } else {
      EntriesAppend(data, a[1..], b);
      assert (a + b)[0] == a[0] && (a + b)[1..] == a[1..] + b;
    }
  }

  lemma SplitEntries(data: seq<Byte>, before: seq<Segment>, s: Segment, after: seq<Segment>)
    requires InBounds(data, before) && s.start <= s.end <= |data| && InBounds(data, after)
    ensures InBounds(data, before + [s] + after)
    ensures EntriesOf(data, before + [s] + after) ==
            EntriesOf(data, before) + DecodeFrom(data, s.start, s.end) + EntriesOf(data, after)
  {
    EntriesAppend(data, before + [s], after);
    EntriesAppend(data, before, [s]);
    OneSegment(data, s);
    hide EntriesOf, DecodeFrom;
  }

  lemma OneSegment(data: seq<Byte>, s: Segment)
    requires s.start <= s.end <= |data|
    ensures EntriesOf(data, [s]) == DecodeFrom(data, s.start, s.end)
  {
    assert EntriesOf(data, [s][1..]) == [];
  }

  lemma {:induction false} SameEntries(a: seq<Byte>, b: seq<Byte>, segments: seq<Segment>)
    requires |a| == |b| && InBounds(a, segments) && InBounds(b, segments)
    requires forall s | s in segments :: Agree(a, b, s.start, s.end)
    ensures EntriesOf(a, segments) == EntriesOf(b, segments)
    decreases |segments|
  {
    if segments != [] {
      PartitionIsIndependent(a, b, segments[0].start, segments[0].end);
      SameEntries(a, b, segments[1..]);
    }
  }
}
