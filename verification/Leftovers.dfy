/** What a device with unfinished commands, left over from failed transfers, keeps of its
    memory while other transfers come and go. */
module Leftovers {
  import opened LittleEndian
  import opened Dma

  /** No leftover command can spoil a transfer of `data` at `at` on the given queue: an
      upload is spoilt by an unfinished upload on another queue that would write another
      byte of the range, a download by one that would change it. */
  ghost predicate Clear(d: State, toDevice: bool, queue: nat, at: nat, data: seq<Byte>)
    requires Wf(d)
  {
    Safe(Job(toDevice, queue, at, data, {}, {}, {}, d))
  }

  /** The range at `at` holds `data`, and whatever unfinished command may still write there
      writes the same. */
  ghost predicate Stable(d: State, at: nat, data: seq<Byte>)
    requires Wf(d)
  {
    && at + |data| <= |d.memory|
    && (forall a: nat | at <= a < at + |data| :: d.memory[a] == data[a - at])
    && forall i, a: nat | 0 <= i < |d.inFlight| && d.inFlight[i].Covers(a) && at <= a < at + |data|
         && d.inFlight[i].toDevice && !d.inFlight[i].done ::
         SentTo(d, d.inFlight[i], a) == data[a - at]
  }

  /** New buffers may have been mapped between `d` and `d'`, and nothing else. */
  predicate Mapped(d: State, d': State) {
    && d'.memory == d.memory && d'.inFlight == d.inFlight
    && forall b | b in d.buffers :: b in d'.buffers && d'.buffers[b] == d.buffers[b]
  }

  /** What a transfer of `total` bytes at `at` may have done between `d` and `d'`: what was in
      flight is at most further along, and sends what it did; what is new writes at most to the
      range of an upload, from its queue; and outside that range only the old commands have written. */
  predicate Spares(d: State, d': State, toDevice: bool, queue: nat, at: nat, total: nat)
    requires Wf(d)
  {
    && |d'.memory| == |d.memory| && |d.inFlight| <= |d'.inFlight|
    && (forall i | 0 <= i < |d.inFlight| :: d.inFlight[i].Became(d'.inFlight[i]))
    && (forall i | 0 <= i < |d.inFlight| && d'.inFlight[i].toDevice && !d'.inFlight[i].done ::
          var b := d.inFlight[i].buffer; b in d'.buffers && d'.buffers[b] == d.buffers[b])
    && (forall i | |d.inFlight| <= i < |d'.inFlight| && d'.inFlight[i].toDevice ::
          toDevice && d'.inFlight[i].queue == queue && at <= d'.inFlight[i].addr && d'.inFlight[i].addr + d'.inFlight[i].len <= at + total)
    && forall a | 0 <= a < |d.memory| && !(toDevice && at <= a < at + total) ::
         d'.memory[a] == d.memory[a] || Sends(d, a, d'.memory[a])
  }

  lemma SparesItself(d: State, d': State, toDevice: bool, queue: nat, at: nat, total: nat)
    requires Wf(d) && Mapped(d, d')
    ensures Spares(d, d', toDevice, queue, at, total)
  {
  }

  lemma MappedThenSpares(d: State, mid: State, d': State, toDevice: bool, queue: nat, at: nat, total: nat)
    requires Wf(d) && Wf(mid) && Mapped(d, mid) && Spares(mid, d', toDevice, queue, at, total)
    ensures Spares(d, d', toDevice, queue, at, total)
  {
    forall a | 0 <= a < |d.memory| && Sends(mid, a, d'.memory[a])
      ensures Sends(d, a, d'.memory[a])
    {
      var i :| 0 <= i < |mid.inFlight| && mid.inFlight[i].toDevice && !mid.inFlight[i].done
               && mid.inFlight[i].Covers(a) && SentTo(mid, mid.inFlight[i], a) == d'.memory[a];
      assert SentTo(d, d.inFlight[i], a) == d'.memory[a];
    }
  }

  lemma SparesSize(d: State, d': State, toDevice: bool, queue: nat, at: nat, total: nat)
    requires Wf(d) && Spares(d, d', toDevice, queue, at, total)
    ensures |d'.memory| == |d.memory|
  {
  }

  /** Two transfers within one range. */
  lemma SparesOn(d: State, mid: State, d': State, queue: nat, at: nat, total: nat, p: nat, n: nat, q: nat, m: nat)
    requires Wf(d) && Wf(mid) && Spares(d, mid, true, queue, p, n) && Spares(mid, d', true, queue, q, m)
    requires at <= p && p + n <= at + total && at <= q && q + m <= at + total
    ensures Spares(d, d', true, queue, at, total)
  {
    forall i | 0 <= i < |d.inFlight|
      ensures d.inFlight[i].Became(d'.inFlight[i])
    {
      assert d.inFlight[i].Became(mid.inFlight[i]) && mid.inFlight[i].Became(d'.inFlight[i]);
    }
    forall a | 0 <= a < |d.memory| && !(at <= a < at + total)
      ensures d'.memory[a] == d.memory[a] || Sends(d, a, d'.memory[a])
    {
      if d'.memory[a] != mid.memory[a] {
        SentBefore(d, mid, queue, p, n, a, d'.memory[a]);
      }
    }
    forall i | 0 <= i < |d.inFlight| && d'.inFlight[i].toDevice && !d'.inFlight[i].done
      ensures var b := d.inFlight[i].buffer; b in d'.buffers && d'.buffers[b] == d.buffers[b]
    {
      SourceKept(d, mid, d', queue, p, n, q, m, i);
    }
    hide Sends;
  }

  lemma SourceKept(d: State, mid: State, d': State, queue: nat, p: nat, n: nat, q: nat, m: nat, i: nat)
    requires Wf(d) && Wf(mid) && Spares(d, mid, true, queue, p, n) && Spares(mid, d', true, queue, q, m)
    requires i < |d.inFlight| && d'.inFlight[i].toDevice && !d'.inFlight[i].done
    ensures var b := d.inFlight[i].buffer; b in d'.buffers && d'.buffers[b] == d.buffers[b]
  {
    assert d.inFlight[i].Became(mid.inFlight[i]) && mid.inFlight[i].Became(d'.inFlight[i]);
  }

  lemma SentBefore(d: State, mid: State, queue: nat, at: nat, total: nat, a: nat, byte: Byte)
    requires Wf(d) && Wf(mid) && Spares(d, mid, true, queue, at, total) && Sends(mid, a, byte)
    requires !(at <= a < at + total)
    ensures Sends(d, a, byte)
  {
    var i :| 0 <= i < |mid.inFlight| && mid.inFlight[i].toDevice && !mid.inFlight[i].done
             && mid.inFlight[i].Covers(a) && SentTo(mid, mid.inFlight[i], a) == byte;
    assert d.inFlight[i].Became(mid.inFlight[i]);
    assert SentTo(d, d.inFlight[i], a) == byte;
  }

  /** What is stable outside the range of a transfer stays so, whether it succeeds or not. */
  lemma SparesStable(d: State, d': State, toDevice: bool, queue: nat, at: nat, total: nat, p: nat, data: seq<Byte>)
    requires Wf(d) && Wf(d') && Spares(d, d', toDevice, queue, at, total) && Stable(d, p, data)
    requires toDevice ==> |data| == 0 || total == 0 || p + |data| <= at || at + total <= p
    ensures Stable(d', p, data)
  {
    forall a: nat | p <= a < p + |data|
      ensures d'.memory[a] == data[a - p]
    {
      assert d'.memory[a] == d.memory[a] || Sends(d, a, d'.memory[a]);
    }
    forall i, a: nat | 0 <= i < |d'.inFlight| && d'.inFlight[i].Covers(a) && p <= a < p + |data|
      && d'.inFlight[i].toDevice && !d'.inFlight[i].done
      ensures SentTo(d', d'.inFlight[i], a) == data[a - p]
    {
      assert i < |d.inFlight| && d.inFlight[i].Became(d'.inFlight[i]) && d.inFlight[i].Covers(a);
    }
  }

  /** If no leftover command could spoil an upload, none can because of a transfer that came
      first, unless that has failed, on another queue, and with a range in common. */
  lemma SparesClear(d: State, d': State, toDevice: bool, queue: nat, at: nat, total: nat, q: nat, p: nat, data: seq<Byte>)
    requires Wf(d) && Wf(d') && Spares(d, d', toDevice, queue, at, total) && Clear(d, true, q, p, data)
    requires |d'.inFlight| == |d.inFlight| || q == queue || (toDevice ==> p + |data| <= at || at + total <= p)
    ensures Clear(d', true, q, p, data)
  {
    var j, j' := Job(true, q, p, data, {}, {}, {}, d), Job(true, q, p, data, {}, {}, {}, d');
    forall i | 0 <= i < j'.Stale()
      ensures Harmless(j', d'.inFlight[i])
    {
      if i < |d.inFlight| {
        assert Harmless(j, d.inFlight[i]) && d.inFlight[i].Became(d'.inFlight[i]);
        assert Rival(j', d'.inFlight[i]) ==> Rival(j, d.inFlight[i]);
        forall a: nat | d'.inFlight[i].Covers(a) && j'.Inside(a) && Rival(j', d'.inFlight[i])
          ensures SentTo(d', d'.inFlight[i], a) == data[a - p]
        {
          assert d.inFlight[i].Covers(a) && j.Inside(a);
        }
      }
    }
  }

  lemma ClearIsSafe(j: Job, d: State)
    requires Wf(d) && Wf(j.start) && Mapped(d, j.start)
    ensures Clear(d, j.toDevice, j.queue, j.base, j.data) ==> Safe(j)
  {
    var k := Job(j.toDevice, j.queue, j.base, j.data, {}, {}, {}, d);
    if Safe(k) {
      forall i | 0 <= i < j.Stale()
        ensures Harmless(j, j.start.inFlight[i])
      {
        assert Harmless(k, d.inFlight[i]);
        assert forall a | Contested(j, a) :: Contested(k, a);
      }
    }
  }

  lemma NoUploadsIsClear(d: State, toDevice: bool, queue: nat, at: nat, data: seq<Byte>)
    requires Wf(d) && NoUploads(d.inFlight)
    ensures Clear(d, toDevice, queue, at, data)
  {
    var j := Job(toDevice, queue, at, data, {}, {}, {}, d);
    forall i | 0 <= i < j.Stale()
      ensures Harmless(j, d.inFlight[i])
    {
    }
  }

  /** What is stable can be read on any queue, and written once more. */
  lemma StableIsClear(d: State, toDevice: bool, queue: nat, at: nat, data: seq<Byte>)
    requires Wf(d) && Stable(d, at, data)
    ensures Clear(d, toDevice, queue, at, data)
  {
    var j := Job(toDevice, queue, at, data, {}, {}, {}, d);
    forall i | 0 <= i < j.Stale()
      ensures Harmless(j, d.inFlight[i])
    {
    }
  }

  /** Parts of a stable range are stable, and a clear upload is clear in parts. */
  lemma SliceOf(d: State, queue: nat, at: nat, data: seq<Byte>, from: nat, to: nat)
    requires Wf(d) && from <= to <= |data|
    ensures Stable(d, at, data) ==> Stable(d, at + from, data[from..to])
    ensures Clear(d, true, queue, at, data) ==> Clear(d, true, queue, at + from, data[from..to])
  {
    var j, k := Job(true, queue, at, data, {}, {}, {}, d), Job(true, queue, at + from, data[from..to], {}, {}, {}, d);
    if Safe(j) {
      forall i | 0 <= i < k.Stale()
        ensures Harmless(k, d.inFlight[i])
      {
        assert Harmless(j, d.inFlight[i]);
      }
    }
  }

  lemma Joined(d: State, at: nat, a: seq<Byte>, b: seq<Byte>)
    requires Wf(d) && Stable(d, at, a) && Stable(d, at + |a|, b)
    ensures Stable(d, at, a + b)
  {
    var data := a + b;
    forall x: nat | at <= x < at + |data|
      ensures d.memory[x] == data[x - at]
    {
      if x >= at + |a| {
        assert d.memory[x] == b[x - (at + |a|)];
      }
    }
    forall i, x: nat | 0 <= i < |d.inFlight| && d.inFlight[i].Covers(x) && at <= x < at + |data|
      && d.inFlight[i].toDevice && !d.inFlight[i].done
      ensures SentTo(d, d.inFlight[i], x) == data[x - at]
    {
      if x >= at + |a| {
        assert SentTo(d, d.inFlight[i], x) == b[x - (at + |a|)];
      }
    }
  }

  lemma StableRange(d: State, at: nat, data: seq<Byte>)
    requires Wf(d) && Stable(d, at, data)
    ensures at + |data| <= |d.memory| && d.memory[at..at + |data|] == data
  {
    forall k | 0 <= k < |data|
      ensures d.memory[at..at + |data|][k] == data[k]
    {
      assert d.memory[at + k] == data[at + k - at];
    }
  }

  lemma NothingIsStable(d: State, at: nat, data: seq<Byte>)
    requires Wf(d) && data == [] && at <= |d.memory|
    ensures Stable(d, at, data)
  {
  }

  /** Of a job under way, its own commands aside, what holds of any transfer. */
  predicate Surrounded(j: Job, d: State) {
    && Wf(j.start) && Wf(d)
    && Contained(j.start.inFlight, j.leaked, j.sources) && j.mine !! j.leaked
    && |d.memory| == |j.start.memory|
    && StaleOk(j, d) && Untouched(j, d) && Idle(j, d)
    && forall i | j.Stale() <= i < |d.inFlight| ::
         var t := d.inFlight[i];
         && t.buffer in j.mine && t.toDevice == j.toDevice && t.queue == j.queue
         && j.base <= t.addr && t.addr + t.len <= j.base + |j.data|
  }

  lemma JobIsSurrounded(j: Job, d: State, w: Window)
    requires JobOk(j, d, w)
    ensures Surrounded(j, d)
  {
    hide Safe, StaleOk, Untouched, Idle, Contained, HasBegun, Overtaken;
  }

  lemma SurroundedSpares(j: Job, d: State)
    requires Surrounded(j, d)
    ensures Spares(j.start, d, j.toDevice, j.queue, j.base, |j.data|)
  {
    forall i | 0 <= i < |j.start.inFlight| && d.inFlight[i].toDevice && !d.inFlight[i].done
      ensures var b := j.start.inFlight[i].buffer; b in d.buffers && d.buffers[b] == j.start.buffers[b]
    {
    }
  }

  /** What is stable stays so for ever, if no other command is pushed. */
  lemma StableForever(d: State, effects: seq<Effect>, at: nat, data: seq<Byte>, leaked: set<nat>, sources: set<nat>)
    requires Wf(d) && Contained(d.inFlight, leaked, sources) && Stable(d, at, data)
    ensures Wf(Run(d, effects)) && Stable(Run(d, effects), at, data)
  {
    var j := Job(false, 0, 0, [], {}, leaked, sources, d);
    TransferBegins(j, 0);
    RunKeepsTransferring(j, d, effects, Window(0, 0, [], 0));
    JobIsSurrounded(j, Run(d, effects), Window(0, 0, [], 0));
    SurroundedSpares(j, Run(d, effects));
    SparesStable(d, Run(d, effects), false, 0, 0, 0, at, data);
  }

  /** A safe upload that is complete, with nothing of its own in flight, is stable. */
  lemma CompleteIsStable(j: Job, d: State, w: Window)
    requires Uploading(j, d, w) && w.collected == |j.data| && |d.inFlight| == j.Stale() && Safe(j)
    ensures Stable(d, j.base, j.data)
  {
    assert Arrived(j, d, w);
    forall i, a: nat | 0 <= i < |d.inFlight| && d.inFlight[i].Covers(a) && j.base <= a < j.base + |j.data|
      && d.inFlight[i].toDevice && !d.inFlight[i].done
      ensures SentTo(d, d.inFlight[i], a) == j.data[a - j.base]
    {
      assert HasBegun(j, d, w);
      StaleMoves(j, d, w, i);
      var s := j.start.inFlight[i];
      assert Rival(j, s) && s.Covers(a) && Harmless(j, s);
      assert SentTo(d, d.inFlight[i], a) == SentTo(j.start, s, a) == j.data[a - j.base];
    }
    forall a: nat | j.base <= a < j.base + |j.data|
      ensures d.memory[a] == j.data[a - j.base]
    {
    }
  }
}
