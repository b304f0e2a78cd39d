/** A whole trace buffer: the partitions that several harts have written with `trace_str`,
    and the texts that et-rs/src/trace.rs reads from it. */
module TraceRoundTrip {
  import opened Arith
  import opened LittleEndian
  import opened Sequences
  import opened Trace
  import opened TraceWriter
  import opened Wrappers

  /** Where the entries of partition `i` begin, after its header. */
  function Start(i: nat): nat {
    if i == 0 then STD_HEADER else SIZE_HEADER
  }

  /** The buffer that the host reads: the partitions one stride apart, each with what its hart
      has written, the size of each in its header. */
  predicate Assembled(data: seq<Byte>, harts: seq<Partition>, stride: nat) {
    && 1 <= |harts| && SIZE_HEADER <= stride
    && ParseHeader(data) == Some(Header(harts[0].offset, stride, |harts|))
    && (forall i | 0 <= i < |harts| :: Placed(data, harts[i], i, i * stride))
  }

  predicate Placed(data: seq<Byte>, p: Partition, i: nat, base: nat) {
    && Start(i) <= p.offset <= |p.buffer| && base + p.offset <= |data|
    && Moved(p.buffer, data, Start(i), p.offset, base)
    && (i > 0 ==> Field(data, base, 4) == p.offset)
  }

  /** What is read from partition `i`. */
  lemma PartitionReadsBack(data: seq<Byte>, p: Partition, q: Partition, calls: seq<Call>, i: nat, base: nat)
    requires p.offset == Start(i) <= |p.buffer| && q == Run(p, calls) && Placed(data, q, i, base)
    ensures Strings(DecodeFrom(data, base + Start(i), base + q.offset)) == Accepted(p, calls)
  {
    hide Accepted, Run, Moved, Field, DecodeFrom, Strings, Filled;
    NothingYet(p.buffer, Start(i));
    TextsReadBack(p, calls, Start(i));
    PartitionMoves(q.buffer, data, Start(i), q.offset, base);
    assert [] + Accepted(p, calls) == Accepted(p, calls);
  }

  lemma NothingYet(data: seq<Byte>, at: nat)
    requires at <= |data|
    ensures DecodeFrom(data, at, at) == [] && Strings(DecodeFrom(data, at, at)) == [] && Filled(data, at, at)
  {
  }

  /** The texts of partition `i` and of those after it. */
  function Texts(empty: seq<Partition>, calls: seq<seq<Call>>, i: nat): seq<(nat, seq<Byte>)>
    requires |calls| == |empty|
    decreases |empty| - i
  {
    if i >= |empty| then [] else Accepted(empty[i], calls[i]) + Texts(empty, calls, i + 1)
  }

  /** Before the launch the partitions are empty; then each hart has written its texts. */
  predicate Written(empty: seq<Partition>, calls: seq<seq<Call>>, harts: seq<Partition>) {
    && |empty| == |calls| == |harts|
    && forall i | 0 <= i < |empty| ::
         empty[i].offset == Start(i) <= |empty[i].buffer| && harts[i] == Run(empty[i], calls[i])
  }

  lemma EmptyReadsNothing(data: seq<Byte>, p: Partition, q: Partition, calls: seq<Call>, i: nat, base: nat)
    requires p.offset == Start(i) <= |p.buffer| && q == Run(p, calls) && Placed(data, q, i, base) && q.offset == Start(i)
    ensures Accepted(p, calls) == []
  {
    PartitionReadsBack(data, p, q, calls, i, base);
    NothingYet(data, base + Start(i));
  }

  lemma {:induction false} SubPartitionsReadBack(data: seq<Byte>, stride: nat, empty: seq<Partition>,
                                                 calls: seq<seq<Call>>, harts: seq<Partition>, i: nat)
    requires Written(empty, calls, harts) && 1 <= i
    requires forall k | 0 <= k < |harts| :: Placed(data, harts[k], k, k * stride)
    ensures InBounds(data, SubSegments(data, stride, i, |harts|))
    ensures Strings(EntriesOf(data, SubSegments(data, stride, i, |harts|))) == Texts(empty, calls, i)
    decreases |harts| - i
  {
    hide Accepted, Run, DecodeFrom, Field, Moved, Strings, EntriesOf, SubSegments;
    SubSegmentsInBounds(data, stride, i, |harts|);
    if i < |harts| {
      SubPartitionsReadBack(data, stride, empty, calls, harts, i + 1);
      SubSegmentsAt(data, stride, i, |harts|, i * stride);
      OnePartition(data, empty[i], calls[i], harts[i], i, i * stride,
                   SubSegments(data, stride, i, |harts|), SubSegments(data, stride, i + 1, |harts|));
      assert [] + Texts(empty, calls, i + 1) == Texts(empty, calls, i + 1);
    } else {
      NoPartition(data, stride, i, |harts|);
    }
  }

  lemma NoPartition(data: seq<Byte>, stride: nat, i: nat, count: nat)
    requires i >= count
    ensures SubSegments(data, stride, i, count) == [] && EntriesOf(data, SubSegments(data, stride, i, count)) == []
    ensures Strings([]) == []
  {
  }

  lemma OnePartition(data: seq<Byte>, p: Partition, calls: seq<Call>, q: Partition, i: nat, base: nat,
                     here: seq<Segment>, rest: seq<Segment>)
    requires 1 <= i && p.offset == Start(i) <= |p.buffer| && q == Run(p, calls) && Placed(data, q, i, base)
    requires here == (if base + SIZE_HEADER <= |data| && Field(data, base, 4) > SIZE_HEADER
                      then [Segment(base + SIZE_HEADER, Min(base + Field(data, base, 4), |data|))] else []) + rest
    requires InBounds(data, here) && InBounds(data, rest)
    ensures Strings(EntriesOf(data, here)) == Accepted(p, calls) + Strings(EntriesOf(data, rest))
  {
    hide Accepted, Run, DecodeFrom, Moved, Strings, Field, EntriesOf, InBounds;
    if q.offset > SIZE_HEADER {
      PartitionReadsBack(data, p, q, calls, i, base);
      FirstThenRest(data, Segment(base + SIZE_HEADER, base + q.offset), rest);
    } else {
      EmptyReadsNothing(data, p, q, calls, i, base);
      assert here == rest;
      var texts := Strings(EntriesOf(data, rest));
      assert [] + texts == texts;
    }
  }

  lemma FirstThenRest(data: seq<Byte>, s: Segment, rest: seq<Segment>)
    requires s.start <= s.end <= |data| && InBounds(data, rest)
    ensures InBounds(data, [s] + rest)
    ensures Strings(EntriesOf(data, [s] + rest)) ==
            Strings(DecodeFrom(data, s.start, s.end)) + Strings(EntriesOf(data, rest))
  {
    assert ([s] + rest)[0] == s && ([s] + rest)[1..] == rest;
    StringsAppend(DecodeFrom(data, s.start, s.end), EntriesOf(data, rest));
    hide Strings, DecodeFrom;
  }

  /** From a buffer that any number of harts have written, the decoder reads the texts of every
      hart that found room, partition after partition, each hart's in the order in which it
      wrote them. */
  lemma AllTextsReadBack(data: seq<Byte>, stride: nat, empty: seq<Partition>, calls: seq<seq<Call>>, harts: seq<Partition>)
    requires Written(empty, calls, harts) && Assembled(data, harts, stride)
    ensures
      var h := ParseHeader(data).value;
      && InBounds(data, Segments(data, h))
      && Strings(EntriesOf(data, Segments(data, h))) == Texts(empty, calls, 0)
  {
    hide Accepted, Run, DecodeFrom, Field, Moved, Strings, ParseHeader;
    var q := harts[0];
    assert 0 * stride == 0 && Placed(data, q, 0, 0);
    var rest := if |harts| > 1 then SubSegments(data, stride, 1, |harts|) else [];
    SubPartitionsReadBack(data, stride, empty, calls, harts, 1);
    if |harts| == 1 {
      assert SubSegments(data, stride, 1, |harts|) == [];
    }
    if q.offset > STD_HEADER {
      FirstThenRest(data, Segment(STD_HEADER, q.offset), rest);
      PartitionReadsBack(data, empty[0], q, calls[0], 0, 0);
    } else {
      EmptyReadsNothing(data, empty[0], q, calls[0], 0, 0);
      assert [] + rest == rest;
      assert [] + Texts(empty, calls, 1) == Texts(empty, calls, 1);
    }
  }

  /** `string_entries`, run to its end. */
  method ReadTexts(data: seq<Byte>) returns (texts: Option<seq<(nat, seq<Byte>)>>)
    ensures texts.Some? <==> ParseHeader(data).Some?
    ensures forall stride, empty, calls, harts | Written(empty, calls, harts) && Assembled(data, harts, stride) ::
              texts == Some(Texts(empty, calls, 0))
  {
    hide Segments, EntriesOf, Assembled, ParseHeader, InBounds, Texts, Strings, Accepted, Run;
    var all := DecodeAll(data);
    forall stride, harts | Assembled(data, harts, stride)
      ensures all.Some?
    {
      HasHeader(data, harts, stride);
    }
    if all.None? {
      return None;
    }
    texts := Some(Strings(all.value));
    forall stride, empty, calls, harts | Written(empty, calls, harts) && Assembled(data, harts, stride)
      ensures texts == Some(Texts(empty, calls, 0))
    {
      AllTextsReadBack(data, stride, empty, calls, harts);
    }
  }

  lemma HasHeader(data: seq<Byte>, harts: seq<Partition>, stride: nat)
    requires Assembled(data, harts, stride)
    ensures ParseHeader(data).Some?
  {
  }
}
