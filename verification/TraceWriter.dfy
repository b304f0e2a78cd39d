/** `trace_str` of et-k-rs/src/lib.rs, which appends text entries to a hart's trace
    partition, and what the decoder of Trace makes of them. */
module TraceWriter {
  import opened Arith
  import opened LittleEndian
  import opened Sequences
  import opened Trace

  const STRING_MAX: nat := 512
  const TYPE_STRING: nat := 0

  /** A hart's trace partition: `[base, base + size)` of device memory, unless tracing is off
      (base zero), and how much of it is in use. */
  datatype Partition = Partition(enabled: bool, buffer: seq<Byte>, offset: nat)

  type Cycle = n: nat | n < 0x1_0000_0000_0000_0000 witness 0

  datatype Call = Call(text: seq<Byte>, hart: nat, cycle: Cycle)

  function Align8(n: nat): (r: nat)
    ensures n <= r < n + 8 && r % 8 == 0
  {
    (n + 7) / 8 * 8
  }

  function StrLen(n: nat): (r: nat)
    ensures 1 <= r <= STRING_MAX
  {
    Min(Align8(n + 1), STRING_MAX)
  }

  /** The text and at least one NUL, which may cut it short. */
  function Payload(text: seq<Byte>): (r: seq<Byte>)
    ensures |r| == StrLen(|text|)
  {
    seq(StrLen(|text|), i requires 0 <= i => if i < |text| && i + 1 < StrLen(|text|) then text[i] else 0)
  }

  function Head(c: Call): (r: seq<Byte>)
    ensures |r| == ENTRY_HEADER
  {
    Encode(c.cycle, 8) + Encode(StrLen(|c.text|), 4) + Encode(c.hart % 0x1_0000, 2) + Encode(TYPE_STRING, 2)
  }

  predicate Fits(p: Partition, c: Call) {
    p.enabled && p.offset + ENTRY_HEADER + StrLen(|c.text|) <= |p.buffer|
  }

  /** A payload of `m` bytes can take a text of `n`: a multiple of 8 within the limit, with room
      for a NUL unless it is the limit itself. */
  predicate Takes(m: nat, n: nat) {
    0 < m <= STRING_MAX && m % 8 == 0 && (n < m || m == STRING_MAX)
  }

  /** A payload is the smallest that takes its text, and an entry is dropped only if tracing is
      off or no payload that takes its text has room. */
  lemma FitsIff(p: Partition, c: Call)
    ensures Takes(StrLen(|c.text|), |c.text|) && forall m | Takes(m, |c.text|) :: StrLen(|c.text|) <= m
    ensures Fits(p, c) <==>
            p.enabled && exists m | Takes(m, |c.text|) :: p.offset + ENTRY_HEADER + m <= |p.buffer|
  {
    forall m | Takes(m, |c.text|)
      ensures StrLen(|c.text|) <= m
    {
      if |c.text| < m {
        AlignsAtMost(|c.text| + 1, m);
      }
    }
    hide StrLen;
  }

  lemma AlignsAtMost(n: nat, m: nat)
    requires m % 8 == 0 && n <= m
    ensures Align8(n) <= m
  {
  }

  function Append(p: Partition, c: Call): Partition {
    if !Fits(p, c) then p
    else p.(buffer := Splice(p.buffer, p.offset, Head(c) + Payload(c.text)),
            offset := p.offset + ENTRY_HEADER + StrLen(|c.text|))
  }

  class HartTrace {
    const enabled: bool
    var buffer: seq<Byte>
    var offset: nat

    function State(): Partition
      reads this
    {
      Partition(enabled, buffer, offset)
    }

    constructor (p: Partition)
      ensures State() == p
    {
      enabled, buffer, offset := p.enabled, p.buffer, p.offset;
    }

    /** `trace_str`: the header fields, then the text byte by byte. */
    method TraceStr(c: Call)
      modifies this
      ensures State() == Append(old(State()), c)
    {
      var strLen := StrLen(|c.text|);
      var entryLen := ENTRY_HEADER + strLen;
      if !enabled || offset + entryLen > |buffer| {
        return;
      }
      hide Head, Payload;
      SpliceTwice(buffer, offset, Head(c), Payload(c.text));
      WriteHeader(c);
      WriteText(c.text);
      offset := offset + entryLen;
    }

    method WriteHeader(c: Call)
      requires offset + ENTRY_HEADER <= |buffer|
      modifies this`buffer
      ensures buffer == Splice(old(buffer), offset, Head(c))
    {
      var cycle, size, hart, kind :=
        Encode(c.cycle, 8), Encode(StrLen(|c.text|), 4), Encode(c.hart % 0x1_0000, 2), Encode(TYPE_STRING, 2);
      hide Encode;
      SpliceTwice(buffer, offset, cycle, size);
      SpliceTwice(buffer, offset, cycle + size, hart);
      SpliceTwice(buffer, offset, cycle + size + hart, kind);
      buffer := Splice(buffer, offset, cycle);
      buffer := Splice(buffer, offset + 8, size);
      buffer := Splice(buffer, offset + 12, hart);
      buffer := Splice(buffer, offset + 14, kind);
    }

    method WriteText(text: seq<Byte>)
      requires offset + ENTRY_HEADER + StrLen(|text|) <= |buffer|
      modifies this`buffer
      ensures buffer == Splice(old(buffer), offset + ENTRY_HEADER, Payload(text))
    {
      var start, strLen := offset + ENTRY_HEADER, StrLen(|text|);
      for i := 0 to strLen
        invariant |buffer| == |old(buffer)|
        invariant forall k | 0 <= k < |buffer| ::
                    buffer[k] == if start <= k < start + i then Payload(text)[k - start] else old(buffer)[k]
      {
        var byte := if i < |text| && i + 1 < strLen then text[i] else 0;
        buffer := buffer[start + i := byte];
      }
    }
  }

  // --- Reading back ---------------------------------------------------------------------

  function Run(p: Partition, calls: seq<Call>): Partition
    decreases |calls|
  {
    if calls == [] then p else Run(Append(p, calls[0]), calls[1..])
  }

  /** The decoder's reading of a C string: the bytes before the first NUL. */
  function UpToNul(s: seq<Byte>): (r: seq<Byte>)
    ensures |r| <= |s| && r <= s
    ensures forall k | 0 <= k < |r| :: r[k] != 0
    ensures |r| < |s| ==> s[|r|] == 0
  {
    if s == [] || s[0] == 0 then [] else [s[0]] + UpToNul(s[1..])
  }

  /** The texts of a run that fit, in order: their hart, and as much of the text as an
      entry holds, up to any NUL. */
  function Accepted(p: Partition, calls: seq<Call>): seq<(nat, seq<Byte>)>
    decreases |calls|
  {
    if calls == [] then []
    else
      (if Fits(p, calls[0])
       then [(calls[0].hart % 0x1_0000, UpToNul(calls[0].text[..Min(|calls[0].text|, STRING_MAX - 1)]))] else [])
      + Accepted(Append(p, calls[0]), calls[1..])
  }

  /** `string_entries`: the hart and the text of each string entry; others are skipped. */
  function Strings(entries: seq<Entry>): seq<(nat, seq<Byte>)>
    decreases |entries|
  {
    if entries == [] then []
    else
      (if entries[0].rawType == TYPE_STRING then [(entries[0].hart, UpToNul(entries[0].payload))] else [])
      + Strings(entries[1..])
  }

  /** Entries fill the partition from `off` to `end` exactly. */
  predicate Filled(data: seq<Byte>, off: nat, end: nat)
    requires end <= |data|
    decreases end - off
  {
    off == end || (
      && off + ENTRY_HEADER <= end
      && var next := off + ENTRY_HEADER + Field(data, off + 8, 4);
      && next <= end && Filled(data, next, end))
  }

  lemma {:induction false} FilledAgrees(a: seq<Byte>, b: seq<Byte>, off: nat, end: nat)
    requires Agree(a, b, off, end) && Filled(a, off, end)
    ensures Filled(b, off, end)
    decreases end - off
  {
    if off < end {
      FieldAgrees(a, b, off, end, off + 8, 4);
      FilledAgrees(a, b, off + ENTRY_HEADER + Field(a, off + 8, 4), end);
    }
  }

  /** One more entry at the end of a filled stretch is decoded last. */
  lemma {:induction false} OneMoreEntry(data: seq<Byte>, off: nat, mid: nat, end: nat)
    requires mid + ENTRY_HEADER <= end <= |data| && Filled(data, off, mid)
    requires end == mid + ENTRY_HEADER + Field(data, mid + 8, 4)
    ensures Filled(data, off, end)
    ensures DecodeFrom(data, off, end) == DecodeFrom(data, off, mid) + [EntryAt(data, mid, end)]
    decreases mid - off
  {
    if off == mid {
      assert DecodeFrom(data, mid, mid) == [] && DecodeFrom(data, end, end) == [];
    } else {
      var next := off + ENTRY_HEADER + Field(data, off + 8, 4);
      OneMoreEntry(data, next, mid, end);
      var e := EntryAt(data, off, next);
      assert [e] + (DecodeFrom(data, next, mid) + [EntryAt(data, mid, end)]) ==
             ([e] + DecodeFrom(data, next, mid)) + [EntryAt(data, mid, end)];
    }
  }

  lemma {:induction false} NulEndsText(text: seq<Byte>, rest: seq<Byte>)
    requires rest != [] && rest[0] == 0
    ensures UpToNul(text + rest) == UpToNul(text)
    decreases |text|
  {
    if text == [] {
      assert text + rest == rest;
    } else {
      assert (text + rest)[0] == text[0] && (text + rest)[1..] == text[1..] + rest;
      NulEndsText(text[1..], rest);
    }
  }

  /** The payload reads back as the text, cut to 511 bytes and to its first NUL. */
  lemma PayloadReadsBack(text: seq<Byte>)
    ensures UpToNul(Payload(text)) == UpToNul(text[..Min(|text|, STRING_MAX - 1)])
  {
    var m := Min(|text|, STRING_MAX - 1);
    assert Payload(text) == text[..m] + Payload(text)[m..];
    NulEndsText(text[..m], Payload(text)[m..]);
  }

  /** The entry just written has its fields where `trace_entry_header_t` has them, and decodes to
      what was written. */
  lemma WrittenEntry(p: Partition, c: Call)
    requires Fits(p, c)
    ensures
      var q := Append(p, c);
      && Field(q.buffer, p.offset, 8) == c.cycle && Field(q.buffer, p.offset + 8, 4) == StrLen(|c.text|)
      && Field(q.buffer, p.offset + 12, 2) == c.hart % 0x1_0000 && Field(q.buffer, p.offset + 14, 2) == TYPE_STRING
      && EntryAt(q.buffer, p.offset, q.offset) == Entry(c.cycle, c.hart % 0x1_0000, TYPE_STRING, Payload(c.text))
  {
    var all := Head(c) + Payload(c.text);
    HeadFields(c);
    hide Head, Payload, Encode, Decode;
    SpliceSlice(p.buffer, p.offset, all, 0, 8);
    SpliceSlice(p.buffer, p.offset, all, 8, 12);
    SpliceSlice(p.buffer, p.offset, all, 12, 14);
    SpliceSlice(p.buffer, p.offset, all, 14, 16);
    SpliceSlice(p.buffer, p.offset, all, 16, |all|);
  }

  lemma HeadFields(c: Call)
    ensures
      var all := Head(c) + Payload(c.text);
      && Decode(all[0..8]) == c.cycle && Decode(all[8..12]) == StrLen(|c.text|)
      && Decode(all[12..14]) == c.hart % 0x1_0000 && Decode(all[14..16]) == TYPE_STRING
      && all[16..|all|] == Payload(c.text)
  {
    Widths();
    FourParts(Encode(c.cycle, 8), Encode(StrLen(|c.text|), 4), Encode(c.hart % 0x1_0000, 2), Encode(TYPE_STRING, 2),
              Payload(c.text));
    RoundTrip(c.cycle, 8);
    RoundTrip(StrLen(|c.text|), 4);
    RoundTrip(c.hart % 0x1_0000, 2);
    RoundTrip(TYPE_STRING, 2);
    hide Encode, Decode, Payload;
  }

  lemma AppendDecodes(p: Partition, c: Call, start: nat)
    requires start <= p.offset <= |p.buffer| && Filled(p.buffer, start, p.offset) && Fits(p, c)
    ensures
      var q := Append(p, c);
      && start <= q.offset <= |q.buffer| && Filled(q.buffer, start, q.offset)
      && DecodeFrom(q.buffer, start, q.offset) ==
           DecodeFrom(p.buffer, start, p.offset) + [Entry(c.cycle, c.hart % 0x1_0000, TYPE_STRING, Payload(c.text))]
  {
    hide Head, Payload, DecodeFrom, Filled, EntryAt, Field, StrLen;
    var q := Append(p, c);
    assert Agree(p.buffer, q.buffer, start, p.offset);
    FilledAgrees(p.buffer, q.buffer, start, p.offset);
    PartitionIsIndependent(p.buffer, q.buffer, start, p.offset);
    WrittenEntry(p, c);
    OneMoreEntry(q.buffer, start, p.offset, q.offset);
  }

  lemma CallReadsBack(p: Partition, c: Call, start: nat)
    requires start <= p.offset <= |p.buffer| && Filled(p.buffer, start, p.offset)
    ensures
      var q := Append(p, c);
      && start <= q.offset <= |q.buffer| && Filled(q.buffer, start, q.offset)
      && (!Fits(p, c) ==> q == p)
      && (Fits(p, c) ==>
            Strings(DecodeFrom(q.buffer, start, q.offset)) ==
            Strings(DecodeFrom(p.buffer, start, p.offset))
            + [(c.hart % 0x1_0000, UpToNul(c.text[..Min(|c.text|, STRING_MAX - 1)]))])
  {
    if Fits(p, c) {
      AppendDecodes(p, c, start);
      PayloadReadsBack(c.text);
      var e := Entry(c.cycle, c.hart % 0x1_0000, TYPE_STRING, Payload(c.text));
      StringsAppend(DecodeFrom(p.buffer, start, p.offset), [e]);
      OneString(e);
      hide Strings, DecodeFrom, Filled, Append, Payload, UpToNul;
    }
  }

  /** For any sequence of `trace_str` calls on an empty partition, the decoder yields the
      texts that fit, in order, each with its hart; a text that does not fit is dropped and
      changes nothing. */
  lemma {:induction false} TextsReadBack(p: Partition, calls: seq<Call>, start: nat)
    requires start <= p.offset <= |p.buffer| && Filled(p.buffer, start, p.offset)
    ensures
      var q := Run(p, calls);
      && start <= q.offset <= |q.buffer|
      && Strings(DecodeFrom(q.buffer, start, q.offset)) ==
           Strings(DecodeFrom(p.buffer, start, p.offset)) + Accepted(p, calls)
    decreases |calls|
  {
    hide Strings, DecodeFrom, Filled, Append, Payload, UpToNul, StrLen;
    var before := Strings(DecodeFrom(p.buffer, start, p.offset));
    if calls == [] {
      assert before + [] == before;
    } else {
      var c := calls[0];
      var rest := Accepted(Append(p, c), calls[1..]);
      CallReadsBack(p, c, start);
      TextsReadBack(Append(p, c), calls[1..], start);
      if Fits(p, c) {
        var one := (c.hart % 0x1_0000, UpToNul(c.text[..Min(|c.text|, STRING_MAX - 1)]));
        assert (before + [one]) + rest == before + ([one] + rest);
      } else {
        assert [] + rest == rest;
      }
    }
  }

  lemma {:induction false} StringsAppend(a: seq<Entry>, b: seq<Entry>)
    ensures Strings(a + b) == Strings(a) + Strings(b)
    decreases |a|
  {
    hide UpToNul;
    if a == [] {
      assert a + b == b;
    } else {
      assert (a + b)[0] == a[0] && (a + b)[1..] == a[1..] + b;
      StringsAppend(a[1..], b);
    }
  }

  lemma OneString(e: Entry)
    requires e.rawType == TYPE_STRING
    ensures Strings([e]) == [(e.hart, UpToNul(e.payload))]
  {
    hide UpToNul;
    assert Strings([e][1..]) == [];
  }

  /** A text without NULs of up to 511 bytes is read back whole. */
  lemma WholeText(text: seq<Byte>)
    requires forall k | 0 <= k < |text| :: text[k] != 0
    ensures UpToNul(text[..Min(|text|, STRING_MAX - 1)]) == text[..Min(|text|, STRING_MAX - 1)]
  {
  }

  /** Every call finds room for its text. */
  predicate AllFit(p: Partition, calls: seq<Call>)
    decreases |calls|
  {
    calls == [] || (Fits(p, calls[0]) && AllFit(Append(p, calls[0]), calls[1..]))
  }

  function Said(calls: seq<Call>): (r: seq<(nat, seq<Byte>)>)
    ensures |r| == |calls|
  {
    seq(|calls|, i requires 0 <= i < |calls| => (calls[i].hart % 0x1_0000, calls[i].text))
  }

  /** Texts of up to 511 bytes without NULs, while there is room, are all read back whole. */
  lemma {:induction false} NothingIsLost(p: Partition, calls: seq<Call>)
    requires AllFit(p, calls)
    requires forall c | c in calls :: |c.text| < STRING_MAX && forall k | 0 <= k < |c.text| :: c.text[k] != 0
    ensures Accepted(p, calls) == Said(calls)
    decreases |calls|
  {
    hide Append, Fits, UpToNul;
    if calls != [] {
      var c := calls[0];
      assert c in calls && c.text[..Min(|c.text|, STRING_MAX - 1)] == c.text;
      WholeText(c.text);
      assert forall d | d in calls[1..] :: d in calls;
      NothingIsLost(Append(p, c), calls[1..]);
      assert Said(calls) == [(c.hart % 0x1_0000, c.text)] + Said(calls[1..]);
    }
  }
}
