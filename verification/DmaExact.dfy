/** When an upload that succeeds leaves its data in device memory, exactly: not always, for
    a command left over from a failed transfer on another queue may land after it. */
module DmaExact {
  import opened LittleEndian
  import opened Dma

  /** Every command of the job, as pushed all at once: they continue each other over the
      range, and read the data. */
  ghost predicate Issued(j: Job, own: seq<Transfer>)
    requires Wf(j.start)
  {
    && (if own == [] then |j.data| == 0
        else own[0].addr == j.base && own[|own| - 1].addr + own[|own| - 1].len == j.base + |j.data|)
    && (forall i | 0 <= i < |own| - 1 :: own[i].addr + own[i].len == own[i + 1].addr)
    && forall i | 0 <= i < |own| ::
         var t := own[i];
         && t.queue == j.queue && t.toDevice == j.toDevice && t.buffer in j.mine && t.Untried()
         && j.base <= t.addr && t.addr + t.len <= j.base + |j.data|
         && Fits(j.start, t) && (j.toDevice ==> Staged(j, j.start, t))
  }

  function Issue(j: Job, own: seq<Transfer>): State {
    j.start.(inFlight := j.start.inFlight + own)
  }

  /** A job whose range, and whose leftover commands, are as the driver keeps them. */
  predicate Sound(j: Job) {
    && Wf(j.start) && j.base + |j.data| <= |j.start.memory|
    && Contained(j.start.inFlight, j.leaked, j.sources) && j.mine !! j.leaked
  }

  predicate Succeeded(j: Job, d: State) {
    forall i | j.Stale() <= i < |d.inFlight| :: d.inFlight[i].done && d.inFlight[i].ok
  }

  predicate InPlace(j: Job, d: State) {
    j.base + |j.data| <= |d.memory| && d.memory[j.base..j.base + |j.data|] == j.data
  }

  // --- A safe upload lands ------------------------------------------------------

  /** What holds of a job once all its commands are pushed. */
  lemma IssueIsOk(j: Job, own: seq<Transfer>, buffer: nat)
    requires Sound(j) && Issued(j, own)
    ensures JobOk(j, Issue(j, own), Window(0, |j.data|, [], buffer))
    ensures forall i | j.Stale() <= i < |Issue(j, own).inFlight| :: Issue(j, own).inFlight[i] == own[i - j.Stale()]
  {
    hide Staged, Safe, Contained;
    var d, w := Issue(j, own), Window(0, |j.data|, [], buffer);
    IssueFits(j, own);
    IssueTiles(j, own);
    hide Tiles, Wf, Fits, Issued;
    assert Untouched(j, d) && Idle(j, d) && StaleOk(j, d);
    assert !HasBegun(j, d, w);
  }

  lemma IssueFits(j: Job, own: seq<Transfer>)
    requires Wf(j.start) && Issued(j, own)
    ensures Wf(Issue(j, own))
    ensures forall i | j.Stale() <= i < |Issue(j, own).inFlight| ::
              Issue(j, own).inFlight[i] == own[i - j.Stale()] && Issue(j, own).inFlight[i].Untried()
  {
    hide Staged;
  }

  lemma IssueTiles(j: Job, own: seq<Transfer>)
    requires Wf(j.start) && Issued(j, own)
    ensures Tiles(j, Issue(j, own), 0, |j.data|)
  {
    hide Staged, Wf, Fits;
  }

  lemma IssueBegins(j: Job, own: seq<Transfer>)
    requires Sound(j) && j.toDevice && Issued(j, own)
    ensures Uploading(j, Issue(j, own), Window(0, |j.data|, [], 0))
  {
    var d, w := Issue(j, own), Window(0, |j.data|, [], 0);
    IssueIsOk(j, own, 0);
    hide JobOk, Safe, Sound;
    assert Wf(d);
    forall i | j.Stale() <= i < |d.inFlight|
      ensures Staged(j, d, d.inFlight[i]) && Landed(j, d, d.inFlight[i])
    {
      assert d.inFlight[i] == own[i - j.Stale()] && Staged(j, j.start, own[i - j.Stale()]);
    }
    hide Staged, Landed, Issued;
  }

  /** Some command of the job covers each byte that is pushed and not collected. */
  lemma {:induction false} SomeCommandCovers(j: Job, d: State, w: Window, a: nat, n: nat) returns (i: nat)
    requires Tiles(j, d, w.collected, w.pushed) && j.Stale() < n <= |d.inFlight|
    requires j.base + w.collected <= a < d.inFlight[n - 1].addr + d.inFlight[n - 1].len
    ensures j.Stale() <= i < |d.inFlight| && d.inFlight[i].Covers(a)
    decreases n
  {
    i := n - 1;
    if a < d.inFlight[i].addr {
      i := SomeCommandCovers(j, d, w, a, n - 1);
    }
  }

  lemma SafeUploadLands(j: Job, own: seq<Transfer>, effects: seq<Effect>)
    requires Sound(j) && j.toDevice && Issued(j, own) && Safe(j)
    requires Wf(Issue(j, own)) && Succeeded(j, Run(Issue(j, own), effects))
    ensures InPlace(j, Run(Issue(j, own), effects))
  {
    IssueBegins(j, own);
    hide Uploading, Safe, Issued, Sound, Succeeded, InPlace;
    RunKeepsTransferring(j, Issue(j, own), effects, Window(0, |j.data|, [], 0));
    SuccessIsArrival(j, Run(Issue(j, own), effects));
  }

  lemma SuccessIsArrival(j: Job, d: State)
    requires Uploading(j, d, Window(0, |j.data|, [], 0)) && Safe(j) && Succeeded(j, d)
    ensures InPlace(j, d)
  {
    hide Safe, StaleOk, Untouched, Idle, Contained, Staged;
    var w := Window(0, |j.data|, [], 0);
    forall a | j.base <= a < j.base + |j.data|
      ensures d.memory[a] == j.data[a - j.base]
    {
      var i := SomeCommandCovers(j, d, w, a, |d.inFlight|);
      assert Landed(j, d, d.inFlight[i]) && d.inFlight[i].Whole();
    }
    RangeIs(d.memory, j.base, j.data);
  }

  lemma RangeIs(memory: seq<Byte>, at: nat, data: seq<Byte>)
    requires at + |data| <= |memory| && forall a | at <= a < at + |data| :: memory[a] == data[a - at]
    ensures memory[at..at + |data|] == data
  {
    forall k | 0 <= k < |data|
      ensures memory[at..at + |data|][k] == data[k]
    {
      assert memory[at + k] == data[at + k - at];
    }
  }

  // --- A run in which a rival lands last -------------------------------------------

  lemma {:induction false} RunAppend(d: State, a: seq<Effect>, b: seq<Effect>)
    requires Wf(d) && Wf(Run(d, a))
    ensures Run(d, a + b) == Run(Run(d, a), b)
    decreases |a|
  {
    if a == [] {
      assert [] + b == b;
    } else {
      assert (a + b)[0] == a[0] && (a + b)[1..] == a[1..] + b;
      StepKeepsWf(d, a[0]);
      RunAppend(Step(d, a[0]), a[1..], b);
    }
  }

  /** `effects` and then `e` lead from `d` to `Step(Run(d, effects), e)`. */
  lemma RunThen(d: State, effects: seq<Effect>, e: Effect)
    requires Wf(d) && Wf(Run(d, effects))
    ensures Run(d, effects + [e]) == Step(Run(d, effects), e)
  {
    RunAppend(d, effects, [e]);
    StepKeepsWf(Run(d, effects), e);
    assert Run(Step(Run(d, effects), e), []) == Step(Run(d, effects), e);
    assert [e][1..] == [];
  }

  predicate SameBut(d: State, d': State) {
    && d'.memory == d.memory && d'.buffers == d.buffers && |d'.inFlight| == |d.inFlight|
    && forall i | 0 <= i < |d.inFlight| :: d'.inFlight[i].queue == d.inFlight[i].queue
  }

  /** The first `n` commands but `v` fail, except those that have to wait for `v`. */
  lemma {:induction false} FailAllBut(d: State, v: nat, n: nat) returns (effects: seq<Effect>)
    requires Wf(d) && v < |d.inFlight| && n <= |d.inFlight|
    ensures
      var d' := Run(d, effects);
      && Wf(d') && SameBut(d, d')
      && (forall i | 0 <= i < n && i != v && (i < v || d.inFlight[i].queue != d.inFlight[v].queue) :: d'.inFlight[i].done)
      && (forall i | 0 <= i < |d.inFlight| && (i >= n || i == v) :: d'.inFlight[i] == d.inFlight[i])
    decreases n
  {
    effects := [];
    if n > 0 {
      effects := FailAllBut(d, v, n - 1);
      var mid := Run(d, effects);
      if n - 1 != v {
        RunThen(d, effects, Finish(n - 1, false));
        StepKeepsWf(mid, Finish(n - 1, false));
        effects := effects + [Finish(n - 1, false)];
      }
    }
  }

  /** Command `c` moves its first `n` bytes. */
  lemma {:induction false} MoveAll(d: State, c: nat, n: nat) returns (effects: seq<Effect>)
    requires Wf(d) && Active(d, c) && d.inFlight[c].toDevice && n <= d.inFlight[c].len
    ensures
      var d' := Run(d, effects);
      && Wf(d') && d'.buffers == d.buffers && SameShape(d, d') && Active(d', c)
      && (forall k: nat | k < n :: k in d'.inFlight[c].moved)
      && (forall i | 0 <= i < |d.inFlight| && i != c :: d'.inFlight[i] == d.inFlight[i])
    decreases n
  {
    effects := [];
    if n > 0 {
      effects := MoveAll(d, c, n - 1);
      var mid := Run(d, effects);
      RunThen(d, effects, Copy(c, n - 1));
      StepKeepsWf(mid, Copy(c, n - 1));
      SameShapeOn(d, mid, Step(mid, Copy(c, n - 1)));
      effects := effects + [Copy(c, n - 1)];
    }
  }

  /** The commands from `c` on, all of them uploads on one queue, succeed in turn. */
  lemma {:induction false} CompleteFrom(d: State, c: nat) returns (effects: seq<Effect>)
    requires Wf(d) && c <= |d.inFlight|
    requires forall i | c <= i < |d.inFlight| ::
               d.inFlight[i].toDevice && !d.inFlight[i].done && d.inFlight[i].queue == d.inFlight[c].queue
    requires c < |d.inFlight| ==> Started(d, c)
    ensures
      var d' := Run(d, effects);
      && Wf(d') && d'.buffers == d.buffers && SameShape(d, d')
      && (forall i | c <= i < |d.inFlight| :: d'.inFlight[i].done && d'.inFlight[i].ok)
      && (forall i | 0 <= i < c :: d'.inFlight[i] == d.inFlight[i])
    decreases |d.inFlight| - c
  {
    effects := [];
    if c < |d.inFlight| {
      effects := MoveAll(d, c, d.inFlight[c].len);
      var moved := Run(d, effects);
      RunThen(d, effects, Finish(c, true));
      StepKeepsWf(moved, Finish(c, true));
      effects := effects + [Finish(c, true)];
      var mid := Run(d, effects);
      SameShapeOn(d, moved, mid);
      assert mid.inFlight[c].done && mid.inFlight[c].ok;
      forall i | c < i < |mid.inFlight|
        ensures mid.inFlight[i] == d.inFlight[i]
      {
      }
      var rest := CompleteFrom(mid, c + 1);
      RunAppend(d, effects, rest);
      effects := effects + rest;
      SameShapeOn(d, mid, Run(d, effects));
    }
  }

  /** Whatever else there is, a rival that would write byte `a` of the range can be the last
      to do so. */
  lemma RivalLandsLast(j: Job, own: seq<Transfer>, v: nat, a: nat) returns (effects: seq<Effect>)
    requires Sound(j) && j.toDevice && Issued(j, own) && Wf(Issue(j, own))
    requires v < j.Stale() && Rival(j, j.start.inFlight[v]) && j.start.inFlight[v].Covers(a)
    ensures
      var d' := Run(Issue(j, own), effects);
      && Succeeded(j, d') && |d'.memory| == |j.start.memory|
      && d'.memory[a] == SentTo(j.start, j.start.inFlight[v], a)
  {
    hide Staged, Contained;
    var d := Issue(j, own);
    assert d.inFlight[v] == j.start.inFlight[v];
    effects := FailAllBut(d, v, j.Stale());
    var failed := Run(d, effects);
    assert forall i | j.Stale() <= i < |d.inFlight| :: d.inFlight[i] == own[i - j.Stale()];
    var rest := CompleteFrom(failed, j.Stale());
    RunAppend(d, effects, rest);
    effects := effects + rest;
    var completed := Run(d, effects);
    var t := completed.inFlight[v];
    assert t == j.start.inFlight[v];
    assert Started(completed, v);
    var last := Copy(v, a - t.addr);
    RunThen(d, effects, last);
    effects := effects + [last];
  }

  lemma UnsafeUploadCanFail(j: Job, own: seq<Transfer>) returns (effects: seq<Effect>)
    requires Sound(j) && j.toDevice && Issued(j, own) && Wf(Issue(j, own)) && !Safe(j)
    ensures Succeeded(j, Run(Issue(j, own), effects)) && !InPlace(j, Run(Issue(j, own), effects))
  {
    var v: nat :| v < j.Stale() && !Harmless(j, j.start.inFlight[v]);
    var t := j.start.inFlight[v];
    var a: nat :| t.Covers(a) && j.Inside(a) && SentTo(j.start, t, a) != j.data[a - j.base];
    effects := RivalLandsLast(j, own, v, a);
    hide Issued, Sound, Harmless, Safe, Run, Wf;
    var d' := Run(Issue(j, own), effects);
    assert d'.memory[j.base..j.base + |j.data|][a - j.base] == d'.memory[a];
  }

  /** Success of an upload means that its data is in place, however the device behaves, if
      and only if no unfinished leftover upload on another queue covers a byte of the range
      with a different staged byte. */
  lemma UploadLandsIff(j: Job, own: seq<Transfer>)
    requires Sound(j) && j.toDevice && Issued(j, own)
    ensures Wf(Issue(j, own))
    ensures (forall effects ::
               Succeeded(j, Run(Issue(j, own), effects)) ==> InPlace(j, Run(Issue(j, own), effects))) <==> Safe(j)
  {
    IssueBegins(j, own);
    assert Wf(Issue(j, own));
    hide Uploading, Issued, Sound, Safe, Run, Succeeded, InPlace, Wf;
    if Safe(j) {
      forall effects | Succeeded(j, Run(Issue(j, own), effects))
        ensures InPlace(j, Run(Issue(j, own), effects))
      {
        SafeUploadLands(j, own, effects);
      }
    } else {
      var _ := UnsafeUploadCanFail(j, own);
    }
  }

  lemma FourSteps(d: State, effects: seq<Effect>)
    requires Wf(d) && |effects| == 4
    ensures
      var d1 := Step(d, effects[0]);
      Wf(d1) &&
      var d2 := Step(d1, effects[1]);
      Wf(d2) &&
      var d3 := Step(d2, effects[2]);
      Wf(d3) && Run(d, effects) == Step(d3, effects[3])
  {
    hide Step, Wf;
    StepKeepsWf(d, effects[0]);
    assert Run(d, effects[..0]) == d;
    RunThen(d, effects[..0], effects[0]);
    assert effects[..1] == effects[..0] + [effects[0]];
    RunKeepsWf(d, effects[..1]);
    RunThen(d, effects[..1], effects[1]);
    assert effects[..2] == effects[..1] + [effects[1]];
    RunKeepsWf(d, effects[..2]);
    RunThen(d, effects[..2], effects[2]);
    assert effects[..3] == effects[..2] + [effects[2]];
    RunKeepsWf(d, effects[..3]);
    RunThen(d, effects[..3], effects[3]);
    assert effects == effects[..3] + [effects[3]];
  }

  /** An upload of 7 on queue 1 has timed out, and 9 is sent to the same byte on queue 0:
      the second upload succeeds, and the byte is 7 in the end. */
  lemma RetryIsOverwritten(first: Transfer, second: Transfer, d: State, effects: seq<Effect>)
    requires first == Transfer(1, true, 0, 0, 0, 1, {}, false, false)
    requires second == Transfer(0, true, 1, 0, 0, 1, {}, false, false)
    requires d == State([0], map[0 := [7], 1 := [9]], [first, second])
    requires effects == [Copy(1, 0), Finish(1, true), Copy(0, 0), Finish(0, true)]
    ensures
      && Wf(d)
      && var d' := Run(d, effects);
         |d'.inFlight| == 2 && d'.inFlight[1].done && d'.inFlight[1].ok && d'.memory == [7]
  {
    var landed := second.(moved := second.moved + {0});
    var d1 := d.(memory := [9], inFlight := [first, landed]);
    assert Started(d, 1) && Step(d, effects[0]) == d1;
    var d2 := d1.(inFlight := [first, landed.(done := true, ok := true)]);
    assert landed.Whole() && Step(d1, effects[1]) == d2;
    var d3 := d2.(memory := [7], inFlight := [first.(moved := first.moved + {0}), d2.inFlight[1]]);
    assert Step(d2, effects[2]) == d3;
    FourSteps(d, effects);
  }

  // --- Downloads ----------------------------------------------------------------

  predicate AllApart(own: seq<Transfer>) {
    forall i, k | 0 <= i < k < |own| :: Apart(own[i], own[k])
  }

  /** What the commands of a download have put into their buffers is what the device memory
      holds. */
  ghost predicate Returned(j: Job, d: State)
    requires Wf(d)
  {
    forall i, a: nat | j.Stale() <= i < |d.inFlight| && d.inFlight[i].Covers(a) ::
      SentTo(d, d.inFlight[i], a) == d.memory[a]
  }

  lemma {:induction false} FreshFor(used: set<nat>) returns (n: nat)
    ensures forall b | b in used :: b < n
  {
    n := 0;
    if used != {} {
      var b :| b in used;
      n := FreshFor(used - {b});
      n := if b < n then n else b + 1;
      assert forall x | x in used :: x == b || x in used - {b};
    }
  }

  lemma IssueLaid(j: Job, own: seq<Transfer>, w: Window)
    requires Wf(j.start) && Issued(j, own) && AllApart(own) && (forall t | t in own :: t.len > 0)
    requires w.collected == 0 && w.out == [] && forall b | b in j.mine :: b < w.buffer
    ensures Laid(j, Issue(j, own), w)
  {
    hide Apart, Staged, Fits, Wf;
    var d := Issue(j, own);
    assert forall i | j.Stale() <= i < |d.inFlight| :: d.inFlight[i] == own[i - j.Stale()] && own[i - j.Stale()] in own;
  }

  lemma ReadBegins(j: Job, own: seq<Transfer>) returns (w: Window)
    requires Sound(j) && !j.toDevice && Issued(j, own) && AllApart(own) && forall t | t in own :: t.len > 0
    ensures w.collected == 0 && Downloading(j, Issue(j, own), w)
  {
    var n := FreshFor(j.mine);
    w := Window(0, |j.data|, [], n);
    IssueIsOk(j, own, n);
    var d := Issue(j, own);
    hide JobOk, Safe, Sound;
    IssueFits(j, own);
    IssueLaid(j, own, w);
    forall i | j.Stale() <= i < |d.inFlight|
      ensures Fetched(d, d.inFlight[i])
    {
      assert d.inFlight[i].Untried();
    }
    hide Laid, Fetched, Issued;
  }

  lemma SafeDownloadReturns(j: Job, own: seq<Transfer>, effects: seq<Effect>)
    requires Sound(j) && !j.toDevice && Issued(j, own) && AllApart(own) && (forall t | t in own :: t.len > 0)
    requires Safe(j) && Wf(Issue(j, own)) && Succeeded(j, Run(Issue(j, own), effects))
    ensures Wf(Run(Issue(j, own), effects)) && Returned(j, Run(Issue(j, own), effects))
  {
    hide Safe, Issued, StaleOk, Untouched, Idle, Contained, Started, Harmless, Tiles;
    var w := ReadBegins(j, own);
    var d := Run(Issue(j, own), effects);
    RunKeepsTransferring(j, Issue(j, own), effects, w);
    forall i, a: nat | j.Stale() <= i < |d.inFlight| && d.inFlight[i].Covers(a)
      ensures SentTo(d, d.inFlight[i], a) == d.memory[a]
    {
      assert Fetched(d, d.inFlight[i]) && d.inFlight[i].Whole();
    }
  }

  /** Byte `o` of buffer `b` is no part of what the commands from `c` on fetch. */
  predicate Elsewhere(d: State, c: nat, b: nat, o: nat) {
    forall i | c <= i < |d.inFlight| && d.inFlight[i].buffer == b ::
      o < d.inFlight[i].offset || d.inFlight[i].offset + d.inFlight[i].len <= o
  }

  /** Command `c` fetches its first `n` bytes. */
  lemma {:induction false} FetchAll(d: State, c: nat, n: nat) returns (effects: seq<Effect>)
    requires Wf(d) && Active(d, c) && !d.inFlight[c].toDevice && n <= d.inFlight[c].len
    ensures
      var (d', t) := (Run(d, effects), d.inFlight[c]);
      && Wf(d') && d'.memory == d.memory && SameShape(d, d') && Active(d', c)
      && (forall k: nat | k < n :: k in d'.inFlight[c].moved)
      && (forall k | t.offset <= k < t.offset + n :: d'.buffers[t.buffer][k] == d.memory[t.addr + (k - t.offset)])
      && (forall b, k | b in d.buffers && 0 <= k < |d.buffers[b]| && (b != t.buffer || k < t.offset || t.offset + t.len <= k) ::
            d'.buffers[b][k] == d.buffers[b][k])
      && (forall i | 0 <= i < |d.inFlight| && i != c :: d'.inFlight[i] == d.inFlight[i])
    decreases n
  {
    effects := [];
    if n > 0 {
      effects := FetchAll(d, c, n - 1);
      var mid := Run(d, effects);
      RunThen(d, effects, Copy(c, n - 1));
      StepKeepsWf(mid, Copy(c, n - 1));
      SameShapeOn(d, mid, Step(mid, Copy(c, n - 1)));
      effects := effects + [Copy(c, n - 1)];
    }
  }

  /** The downloads from `c` on, all of them on one queue, succeed in turn. */
  lemma {:induction false} FetchFrom(d: State, c: nat) returns (effects: seq<Effect>)
    requires Wf(d) && c <= |d.inFlight|
    requires forall i | c <= i < |d.inFlight| ::
               !d.inFlight[i].toDevice && !d.inFlight[i].done && d.inFlight[i].queue == d.inFlight[c].queue
    requires forall i, k | c <= i < k < |d.inFlight| :: Apart(d.inFlight[i], d.inFlight[k])
    requires c < |d.inFlight| ==> Started(d, c)
    ensures
      var d' := Run(d, effects);
      && Wf(d') && d'.memory == d.memory && SameShape(d, d')
      && (forall i | c <= i < |d.inFlight| :: d'.inFlight[i].done && d'.inFlight[i].ok)
      && (forall i, a: nat | c <= i < |d.inFlight| && d'.inFlight[i].Covers(a) ::
            SentTo(d', d'.inFlight[i], a) == d.memory[a])
      && (forall b, o: nat | b in d.buffers && o < |d.buffers[b]| && Elsewhere(d, c, b, o) ::
            d'.buffers[b][o] == d.buffers[b][o])
      && (forall i | 0 <= i < c :: d'.inFlight[i] == d.inFlight[i])
    decreases |d.inFlight| - c
  {
    effects := [];
    if c < |d.inFlight| {
      effects := FetchOne(d, c);
      var mid := Run(d, effects);
      forall i | c < i < |mid.inFlight|
        ensures mid.inFlight[i] == d.inFlight[i]
      {
      }
      var rest := FetchFrom(mid, c + 1);
      RunAppend(d, effects, rest);
      effects := effects + rest;
      SameShapeOn(d, mid, Run(d, effects));
      FetchedOnce(d, mid, Run(d, effects), c);
    }
  }

  lemma FetchOne(d: State, c: nat) returns (effects: seq<Effect>)
    requires Wf(d) && Active(d, c) && !d.inFlight[c].toDevice
    ensures
      var (d', t) := (Run(d, effects), d.inFlight[c]);
      && Wf(d') && d'.memory == d.memory && SameShape(d, d') && d'.inFlight[c].done && d'.inFlight[c].ok
      && (forall k | t.offset <= k < t.offset + t.len :: d'.buffers[t.buffer][k] == d.memory[t.addr + (k - t.offset)])
      && (forall b, k | b in d.buffers && 0 <= k < |d.buffers[b]| && (b != t.buffer || k < t.offset || t.offset + t.len <= k) ::
            d'.buffers[b][k] == d.buffers[b][k])
      && (forall i | 0 <= i < |d.inFlight| && i != c :: d'.inFlight[i] == d.inFlight[i])
  {
    effects := FetchAll(d, c, d.inFlight[c].len);
    var moved := Run(d, effects);
    RunThen(d, effects, Finish(c, true));
    StepKeepsWf(moved, Finish(c, true));
    effects := effects + [Finish(c, true)];
    SameShapeOn(d, moved, Run(d, effects));
  }

  /** What command `c` has fetched stays where it is while the later ones fetch theirs. */
  lemma FetchedOnce(d: State, mid: State, d': State, c: nat)
    requires Wf(d) && Wf(mid) && Wf(d') && SameShape(d, mid) && SameShape(mid, d') && c < |d.inFlight|
    requires forall i, k | c <= i < k < |d.inFlight| :: Apart(d.inFlight[i], d.inFlight[k])
    requires
      var t := d.inFlight[c];
      && (forall k | t.offset <= k < t.offset + t.len :: mid.buffers[t.buffer][k] == d.memory[t.addr + (k - t.offset)])
      && (forall b, k | b in d.buffers && 0 <= k < |d.buffers[b]| && (b != t.buffer || k < t.offset || t.offset + t.len <= k) ::
            mid.buffers[b][k] == d.buffers[b][k])
    requires forall b, o: nat | b in mid.buffers && o < |mid.buffers[b]| && Elsewhere(mid, c + 1, b, o) ::
               d'.buffers[b][o] == mid.buffers[b][o]
    ensures forall a: nat | d'.inFlight[c].Covers(a) :: SentTo(d', d'.inFlight[c], a) == d.memory[a]
    ensures forall b, o: nat | b in d.buffers && o < |d.buffers[b]| && Elsewhere(d, c, b, o) ::
              d'.buffers[b][o] == d.buffers[b][o]
  {
    var t, next := d.inFlight[c], c + 1;
    assert t.Became(mid.inFlight[c]) && mid.inFlight[c].Became(d'.inFlight[c]);
    forall k: nat | t.offset <= k < t.offset + t.len
      ensures Elsewhere(mid, next, t.buffer, k)
    {
      forall i | next <= i < |mid.inFlight| && mid.inFlight[i].buffer == t.buffer
        ensures k < mid.inFlight[i].offset || mid.inFlight[i].offset + mid.inFlight[i].len <= k
      {
        assert Apart(t, d.inFlight[i]) && d.inFlight[i].Became(mid.inFlight[i]);
      }
    }
    forall b, o: nat | b in d.buffers && o < |d.buffers[b]| && Elsewhere(d, c, b, o)
      ensures d'.buffers[b][o] == d.buffers[b][o]
    {
      assert forall i | next <= i < |mid.inFlight| :: d.inFlight[i].Became(mid.inFlight[i]);
      assert Elsewhere(mid, next, b, o);
    }
  }

  lemma OwnFetch(j: Job, own: seq<Transfer>, d: State)
    requires Wf(j.start) && !j.toDevice && Issued(j, own) && AllApart(own) && |d.inFlight| == j.Stale() + |own|
    requires forall i | j.Stale() <= i < |d.inFlight| :: d.inFlight[i] == own[i - j.Stale()]
    ensures forall i | j.Stale() <= i < |d.inFlight| ::
              && !d.inFlight[i].toDevice && !d.inFlight[i].done && d.inFlight[i].queue == j.queue
              && d.inFlight[i].buffer in j.mine
    ensures forall i, k | j.Stale() <= i < k < |d.inFlight| :: Apart(d.inFlight[i], d.inFlight[k])
  {
  }

  lemma SomeOwnCovers(j: Job, own: seq<Transfer>, d: State, a: nat) returns (c: nat)
    requires Wf(j.start) && Issued(j, own) && j.Inside(a) && |d.inFlight| == j.Stale() + |own|
    requires forall i | j.Stale() <= i < |d.inFlight| :: d.inFlight[i] == own[i - j.Stale()]
    ensures j.Stale() <= c < |d.inFlight| && d.inFlight[c].Covers(a)
  {
    var n := |own| - 1;
    while a < own[n].addr
      decreases n
      invariant 0 <= n < |own| && a < own[n].addr + own[n].len
    {
      n := n - 1;
    }
    c := j.Stale() + n;
    assert d.inFlight[c] == own[n];
  }

  /** The leftover commands other than `v`, and those that wait for it, have failed. */
  predicate OnlyLeft(j: Job, own: seq<Transfer>, d: State, v: nat) {
    && Wf(d) && |d.inFlight| == j.Stale() + |own| && v < j.Stale() && |d.memory| == |j.start.memory|
    && (forall i | j.Stale() <= i < |d.inFlight| :: d.inFlight[i] == own[i - j.Stale()])
    && (forall i | 0 <= i < j.Stale() && i != v && (i < v || d.inFlight[i].queue != d.inFlight[v].queue) ::
          d.inFlight[i].done)
    && var t := d.inFlight[v]; t.toDevice && !t.done && t.queue != j.queue && t.buffer !in j.mine
  }

  /** The download is served while `v` waits. */
  lemma ReadBefore(j: Job, own: seq<Transfer>, d: State, v: nat) returns (effects: seq<Effect>)
    requires Wf(j.start) && !j.toDevice && Issued(j, own) && AllApart(own) && OnlyLeft(j, own, d, v)
    ensures
      var d' := Run(d, effects);
      && Wf(d') && d'.memory == d.memory && SameShape(d, d') && Active(d', v) && d'.inFlight[v] == d.inFlight[v]
      && d'.buffers[d.inFlight[v].buffer] == d.buffers[d.inFlight[v].buffer]
      && Succeeded(j, d')
      && forall i, a: nat | j.Stale() <= i < |d.inFlight| && d'.inFlight[i].Covers(a) ::
           SentTo(d', d'.inFlight[i], a) == d.memory[a]
  {
    var t := d.inFlight[v];
    assert Fits(d, t);
    OwnFetch(j, own, d);
    hide Issued, AllApart, Step, Wf, SentTo, Apart;
    effects := FetchFrom(d, j.Stale());
    forall o: nat | o < |d.buffers[t.buffer]|
      ensures Elsewhere(d, j.Stale(), t.buffer, o)
    {
    }
  }

  lemma OverwrittenAfterRead(j: Job, own: seq<Transfer>, d: State, v: nat, a: nat) returns (effects: seq<Effect>)
    requires Wf(d) && Wf(j.start) && !j.toDevice && Issued(j, own) && AllApart(own) && j.Inside(a) && OnlyLeft(j, own, d, v)
    requires j.base + |j.data| <= |d.memory|
    requires d.inFlight[v].Covers(a) && SentTo(d, d.inFlight[v], a) != d.memory[a]
    ensures Succeeded(j, Run(d, effects)) && Wf(Run(d, effects)) && !Returned(j, Run(d, effects))
  {
    hide Issued, AllApart, Run, Step, Active, Wf, Sound;
    effects := ReadBefore(j, own, d, v);
    var read, t := Run(d, effects), d.inFlight[v];
    var c := SomeOwnCovers(j, own, d, a);
    assert d.inFlight[c].Became(read.inFlight[c]) && read.inFlight[c].Covers(a);
    hide SameShape, OnlyLeft;
    WriteShows(read, v, c, a);
    RunThen(d, effects, Copy(v, a - t.addr));
    effects := effects + [Copy(v, a - t.addr)];
    var d' := Run(d, effects);
    assert d'.inFlight[c].Covers(a) && SentTo(d', d'.inFlight[c], a) != d'.memory[a];
  }

  /** The upload `v` writes another byte over one that `c` has fetched. */
  lemma WriteShows(d: State, v: nat, c: nat, a: nat)
    requires Wf(d) && Active(d, v) && d.inFlight[v].toDevice && d.inFlight[v].Covers(a)
    requires c < |d.inFlight| && c != v && d.inFlight[c].Covers(a)
    requires SentTo(d, d.inFlight[c], a) == d.memory[a] != SentTo(d, d.inFlight[v], a)
    ensures
      var d' := Step(d, Copy(v, a - d.inFlight[v].addr));
      && Wf(d') && |d'.inFlight| == |d.inFlight| && SentTo(d', d.inFlight[c], a) != d'.memory[a]
      && forall i | 0 <= i < |d.inFlight| && i != v :: d'.inFlight[i] == d.inFlight[i]
  {
    StepKeepsWf(d, Copy(v, a - d.inFlight[v].addr));
  }

  /** A byte that one rival may write, and some leftover upload may change, can be read and
      changed afterwards. */
  lemma ReadCanBeStale(j: Job, own: seq<Transfer>, u: nat, a: nat) returns (effects: seq<Effect>)
    requires Sound(j) && !j.toDevice && Issued(j, own) && AllApart(own) && Wf(Issue(j, own)) && j.Inside(a)
    requires u < j.Stale() && Contested(j, a)
    requires
      var t := j.start.inFlight[u];
      t.toDevice && !t.done && t.Covers(a) && SentTo(j.start, t, a) != j.start.memory[a]
    ensures
      var d' := Run(Issue(j, own), effects);
      Wf(d') && Succeeded(j, d') && !Returned(j, d')
  {
    var d := Issue(j, own);
    assert forall i | j.Stale() <= i < |d.inFlight| :: d.inFlight[i] == own[i - j.Stale()];
    assert forall i | 0 <= i < j.Stale() :: d.inFlight[i] == j.start.inFlight[i];
    var v: nat :| v < j.Stale() && Rival(j, j.start.inFlight[v]) && j.start.inFlight[v].Covers(a);
    if j.start.inFlight[u].queue != j.queue {
      effects := RivalAfterRead(j, own, d, u, a);
    } else if SentTo(j.start, j.start.inFlight[v], a) != j.start.memory[a] {
      effects := RivalAfterRead(j, own, d, v, a);
    } else {
      var first := ChangeFirst(j, d, u, v, a);
      var mid := Run(d, first);
      var rest := RivalAfterRead(j, own, mid, v, a);
      RunAppend(d, first, rest);
      effects := first + rest;
    }
  }

  /** Leftover commands other than `v` fail, the download is served, and `v` writes. */
  lemma RivalAfterRead(j: Job, own: seq<Transfer>, d: State, v: nat, a: nat) returns (effects: seq<Effect>)
    requires Sound(j) && !j.toDevice && Issued(j, own) && AllApart(own) && j.Inside(a)
    requires Wf(d) && |d.inFlight| == j.Stale() + |own| && v < j.Stale() && |d.memory| == |j.start.memory|
    requires forall i | j.Stale() <= i < |d.inFlight| :: d.inFlight[i] == own[i - j.Stale()]
    requires
      var t := d.inFlight[v];
      && t == j.start.inFlight[v]
      && t.toDevice && !t.done && t.queue != j.queue && t.Covers(a) && SentTo(d, t, a) != d.memory[a]
    ensures
      var d' := Run(d, effects);
      Wf(d') && Succeeded(j, d') && !Returned(j, d')
  {
    effects := FailAllBut(d, v, j.Stale());
    var failed := Run(d, effects);
    var rest := OverwrittenAfterRead(j, own, failed, v, a);
    RunAppend(d, effects, rest);
    effects := effects + rest;
  }

  /** The leftover upload `u`, on the queue of the job, writes byte `a`; `v`, on another, does
      nothing yet. */
  lemma ChangeFirst(j: Job, d: State, u: nat, v: nat, a: nat) returns (effects: seq<Effect>)
    requires Wf(d) && u < j.Stale() <= |d.inFlight| && v < j.Stale() && a < |d.memory|
    requires d.inFlight[u].queue == j.queue != d.inFlight[v].queue
    requires var t := d.inFlight[u]; t.toDevice && !t.done && t.Covers(a)
    ensures
      var d' := Run(d, effects);
      && Wf(d') && |d'.memory| == |d.memory| && |d'.inFlight| == |d.inFlight| && d'.buffers == d.buffers
      && d'.memory[a] == SentTo(d, d.inFlight[u], a)
      && (forall i | 0 <= i < |d.inFlight| && (i >= j.Stale() || i == v) :: d'.inFlight[i] == d.inFlight[i])
  {
    effects := FailAllBut(d, v, u);
    var failed := Run(d, effects);
    assert failed.inFlight[u] == d.inFlight[u] && Started(failed, u);
    var t := d.inFlight[u];
    var e := Copy(u, a - t.addr);
    RunThen(d, effects, e);
    StepKeepsWf(failed, e);
    effects := effects + [e];
  }

  lemma UnsafeDownloadCanFail(j: Job, own: seq<Transfer>) returns (effects: seq<Effect>)
    requires Sound(j) && !j.toDevice && Issued(j, own) && AllApart(own) && Wf(Issue(j, own)) && !Safe(j)
    ensures
      var d' := Run(Issue(j, own), effects);
      Wf(d') && Succeeded(j, d') && !Returned(j, d')
  {
    var u: nat :| u < j.Stale() && !Harmless(j, j.start.inFlight[u]);
    var t := j.start.inFlight[u];
    var a: nat :| t.Covers(a) && j.Inside(a) && t.toDevice && !t.done && Contested(j, a)
                  && SentTo(j.start, t, a) != j.start.memory[a];
    effects := ReadCanBeStale(j, own, u, a);
  }

  /** Success of a download means that it has returned what the device memory holds in the
      end, however the device behaves, if and only if no unfinished leftover upload can
      change a byte of the range that one on another queue may write. */
  lemma DownloadReturnsIff(j: Job, own: seq<Transfer>)
    requires Sound(j) && !j.toDevice && Issued(j, own) && AllApart(own) && forall t | t in own :: t.len > 0
    ensures Wf(Issue(j, own))
    ensures (forall effects ::
               Succeeded(j, Run(Issue(j, own), effects)) ==>
                 Wf(Run(Issue(j, own), effects)) && Returned(j, Run(Issue(j, own), effects))) <==> Safe(j)
  {
    var w := ReadBegins(j, own);
    assert Wf(Issue(j, own));
    hide Downloading, Issued, Sound, Safe, Run, Succeeded, Returned, Wf, AllApart;
    if Safe(j) {
      forall effects | Succeeded(j, Run(Issue(j, own), effects))
        ensures Wf(Run(Issue(j, own), effects)) && Returned(j, Run(Issue(j, own), effects))
      {
        SafeDownloadReturns(j, own, effects);
      }
    } else {
      var _ := UnsafeDownloadCanFail(j, own);
    }
  }
}
