/** Asynchronous DMA between device memory and host staging buffers. A pushed command
    moves each of its bytes once or more, at any time up to its completion and in any
    order; commands carry `BARRIER`, so one starts only after the earlier ones on its queue
    are done. */
module Dma {
  import opened LittleEndian

  /** One DMA list command. Its nodes cover one contiguous range (see DmaList), between
      `buffer[offset..offset + len]` and `memory[addr..addr + len]`. `moved` are the bytes
      moved so far; `done` and `ok` tell that the device has finished, and with a success
      status. */
  datatype Transfer = Transfer(
    queue: nat, toDevice: bool, buffer: nat, offset: nat, addr: nat, len: nat, moved: set<nat>, done: bool, ok: bool)
  {
    predicate Covers(a: nat) {
      addr <= a < addr + len
    }

    predicate Whole() {
      forall k: nat | k < len :: k in moved
    }

    predicate Untried() {
      moved == {} && !done
    }

    /** The same command, at most further along. */
    predicate Became(later: Transfer) {
      && later.(moved := moved, done := done, ok := ok) == this
      && moved <= later.moved
      && (done ==> later == this)
    }
  }

  /** Device memory, every host DMA buffer mapped so far, and the commands pushed and not
      collected, oldest first. */
  datatype State = State(memory: seq<Byte>, buffers: map<nat, seq<Byte>>, inFlight: seq<Transfer>)

  predicate Fits(d: State, t: Transfer) {
    && t.buffer in d.buffers
    && t.offset + t.len <= |d.buffers[t.buffer]|
    && t.addr + t.len <= |d.memory|
  }

  /** A command that has succeeded has moved all its bytes. */
  predicate Wf(d: State) {
    forall i | 0 <= i < |d.inFlight| ::
      Fits(d, d.inFlight[i]) && (d.inFlight[i].done && d.inFlight[i].ok ==> d.inFlight[i].Whole())
  }

  predicate Started(d: State, i: nat)
    requires i < |d.inFlight|
  {
    forall j | 0 <= j < i && d.inFlight[j].queue == d.inFlight[i].queue :: d.inFlight[j].done
  }

  predicate Active(d: State, i: nat) {
    i < |d.inFlight| && !d.inFlight[i].done && Started(d, i)
  }

  /** What the device may do next to the `i`-th command in flight. */
  datatype Effect =
    /** Move byte `k`. */
    | Copy(i: nat, k: nat)
    /** Complete it; with success, once every byte has been moved. */
    | Finish(i: nat, ok: bool)

  function CopyByte(d: State, i: nat, k: nat): State
    requires i < |d.inFlight| && Fits(d, d.inFlight[i]) && k < d.inFlight[i].len
  {
    var t := d.inFlight[i];
    var noted := d.(inFlight := d.inFlight[i := t.(moved := t.moved + {k})]);
    if t.toDevice then noted.(memory := d.memory[t.addr + k := d.buffers[t.buffer][t.offset + k]])
    else noted.(buffers := d.buffers[t.buffer := d.buffers[t.buffer][t.offset + k := d.memory[t.addr + k]]])
  }

  function End(d: State, i: nat, ok: bool): State
    requires i < |d.inFlight|
  {
    d.(inFlight := d.inFlight[i := d.inFlight[i].(done := true, ok := ok)])
  }

  function Step(d: State, e: Effect): State
    requires Wf(d)
  {
    if !Active(d, e.i) then d
    else
      match e
      case Copy(i, k) => if k < d.inFlight[i].len then CopyByte(d, i, k) else d
      case Finish(i, ok) => if ok && !d.inFlight[i].Whole() then d else End(d, i, ok)
  }

  predicate SameShape(d: State, d': State) {
    && |d'.memory| == |d.memory|
    && d'.buffers.Keys == d.buffers.Keys
    && (forall b | b in d.buffers :: |d'.buffers[b]| == |d.buffers[b]|)
    && |d'.inFlight| == |d.inFlight|
    && forall i | 0 <= i < |d.inFlight| :: d.inFlight[i].Became(d'.inFlight[i])
  }

  lemma CopyKeepsWf(d: State, i: nat, k: nat)
    requires Wf(d) && i < |d.inFlight| && !d.inFlight[i].done && k < d.inFlight[i].len
    ensures Wf(CopyByte(d, i, k)) && SameShape(d, CopyByte(d, i, k))
  {
    assert CopyByte(d, i, k).buffers.Keys == d.buffers.Keys;
  }

  lemma StepKeepsWf(d: State, e: Effect)
    requires Wf(d)
    ensures Wf(Step(d, e)) && SameShape(d, Step(d, e))
  {
    if Active(d, e.i) && e.Copy? && e.k < d.inFlight[e.i].len {
      CopyKeepsWf(d, e.i, e.k);
    }
  }

  function Run(d: State, effects: seq<Effect>): State
    requires Wf(d)
    decreases |effects|
  {
    if effects == [] then d
    else
      StepKeepsWf(d, effects[0]);
      Run(Step(d, effects[0]), effects[1..])
  }

  lemma {:induction false} RunKeepsWf(d: State, effects: seq<Effect>)
    requires Wf(d)
    ensures Wf(Run(d, effects)) && SameShape(d, Run(d, effects))
    decreases |effects|
  {
    if effects != [] {
      StepKeepsWf(d, effects[0]);
      RunKeepsWf(Step(d, effects[0]), effects[1..]);
      SameShapeOn(d, Step(d, effects[0]), Run(d, effects));
    }
  }

  lemma SameShapeOn(a: State, b: State, c: State)
    requires SameShape(a, b) && SameShape(b, c)
    ensures SameShape(a, c)
  {
    forall i | 0 <= i < |a.inFlight|
      ensures a.inFlight[i].Became(c.inFlight[i])
    {
      assert a.inFlight[i].Became(b.inFlight[i]) && b.inFlight[i].Became(c.inFlight[i]);
    }
  }

  /** No command that is still in flight writes to device memory. */
  predicate NoUploads(commands: seq<Transfer>) {
    forall i | 0 <= i < |commands| && commands[i].toDevice :: commands[i].done
  }

  /** Every buffer that an unfinished command names is among `leaked`, and among `sources`
      exactly if the command reads it. */
  predicate Contained(commands: seq<Transfer>, leaked: set<nat>, sources: set<nat>) {
    forall i | 0 <= i < |commands| && !commands[i].done ::
      commands[i].buffer in leaked && (commands[i].toDevice <==> commands[i].buffer in sources)
  }

  /** The byte that an upload would write to address `a`. */
  function SentTo(d: State, t: Transfer, a: nat): Byte
    requires Fits(d, t) && t.Covers(a)
  {
    d.buffers[t.buffer][t.offset + (a - t.addr)]
  }

  /** Some unfinished upload would write `byte` to address `a`. */
  predicate Sends(d: State, a: nat, byte: Byte)
    requires Wf(d)
  {
    exists i | 0 <= i < |d.inFlight| ::
      var t := d.inFlight[i]; t.toDevice && !t.done && t.Covers(a) && SentTo(d, t, a) == byte
  }

  // --- A transfer under way ---------------------------------------------------

  /** One upload or download: its direction and queue, the device range it concerns, the
      data (for an upload) and the staging buffers it uses; the leaked buffers, and those of
      them that are sources, and the state it began in. */
  datatype Job = Job(
    toDevice: bool, queue: nat, base: nat, data: seq<Byte>, mine: set<nat>, leaked: set<nat>, sources: set<nat>,
    start: State)
  {
    function Stale(): nat {
      |start.inFlight|
    }

    predicate Inside(a: nat) {
      base <= a < base + |data|
    }
  }

  /** A leftover upload, on a queue where it may run at the same time as the job. */
  predicate Rival(j: Job, t: Transfer) {
    t.toDevice && !t.done && t.queue != j.queue
  }

  predicate Contested(j: Job, a: nat) {
    exists i | 0 <= i < j.Stale() :: Rival(j, j.start.inFlight[i]) && j.start.inFlight[i].Covers(a)
  }

  /** The leftover command `t` cannot spoil the job. An upload is spoilt by a rival that
      would write another byte than its own; a download, where a rival writes at all, by
      any upload that would change the byte. */
  ghost predicate Harmless(j: Job, t: Transfer)
    requires Fits(j.start, t)
  {
    forall a: nat | t.Covers(a) && j.Inside(a) ::
      if j.toDevice then Rival(j, t) ==> SentTo(j.start, t, a) == j.data[a - j.base]
      else t.toDevice && !t.done && Contested(j, a) ==> SentTo(j.start, t, a) == j.start.memory[a]
  }

  /** No leftover command can spoil the job. */
  ghost predicate Safe(j: Job)
    requires Wf(j.start)
  {
    forall i | 0 <= i < j.Stale() :: Harmless(j, j.start.inFlight[i])
  }

  predicate StaleOk(j: Job, d: State) {
    && |d.inFlight| >= j.Stale()
    && forall i | 0 <= i < j.Stale() :: j.start.inFlight[i].Became(d.inFlight[i])
  }

  /** Every leftover command on the queue of the job is done. */
  predicate Overtaken(j: Job, d: State) {
    forall i | 0 <= i < j.Stale() && i < |d.inFlight| && d.inFlight[i].queue == j.queue :: d.inFlight[i].done
  }

  /** The commands of the job, in order, cover the bytes from `collected` to `pushed`. */
  predicate Tiles(j: Job, d: State, collected: nat, pushed: nat) {
    && collected <= pushed <= |j.data|
    && |d.inFlight| >= j.Stale()
    && (if |d.inFlight| == j.Stale() then collected == pushed
        else
          && d.inFlight[j.Stale()].addr == j.base + collected
          && (var last := d.inFlight[|d.inFlight| - 1]; last.addr + last.len == j.base + pushed))
    && (forall i | j.Stale() <= i < |d.inFlight| ::
          var t := d.inFlight[i];
          && t.queue == j.queue && t.toDevice == j.toDevice && t.buffer in j.mine
          && j.base + collected <= t.addr && t.addr + t.len <= j.base + pushed)
    && (forall i | j.Stale() <= i < |d.inFlight| - 1 ::
          d.inFlight[i].addr + d.inFlight[i].len == d.inFlight[i + 1].addr)
  }

  /** How far a transfer has come: the bytes whose commands have been collected and
      pushed, counted from its start; for a download also the bytes copied out and the
      buffer holding those to be copied out next. */
  datatype Window = Window(collected: nat, pushed: nat, out: seq<Byte>, buffer: nat)

  predicate HasBegun(j: Job, d: State, w: Window) {
    w.collected > 0 || exists i | j.Stale() <= i < |d.inFlight| :: !d.inFlight[i].Untried()
  }

  ghost predicate JobOk(j: Job, d: State, w: Window) {
    && Wf(d) && Wf(j.start)
    && |d.memory| == |j.start.memory|
    && j.base + |j.data| <= |d.memory|
    && Contained(j.start.inFlight, j.leaked, j.sources) && j.mine !! j.leaked
    && StaleOk(j, d)
    && Tiles(j, d, w.collected, w.pushed)
    && (HasBegun(j, d, w) ==> Overtaken(j, d))
    && Untouched(j, d)
    && Idle(j, d)
    && (Safe(j) && !j.toDevice ==>
          forall a | j.base <= a < j.base + |j.data| && Contested(j, a) :: d.memory[a] == j.start.memory[a])
  }

  /** Outside an upload's range, only leftover commands can have changed the memory, and only
      to the bytes that they send. */
  predicate Untouched(j: Job, d: State)
    requires Wf(j.start) && |d.memory| == |j.start.memory|
  {
    forall a | 0 <= a < |d.memory| && !(j.toDevice && j.Inside(a)) ::
      d.memory[a] == j.start.memory[a] || Sends(j.start, a, d.memory[a])
  }

  /** Buffers that no command may write are as they were. */
  predicate Idle(j: Job, d: State) {
    forall b | b in j.start.buffers && b !in j.mine && (b in j.leaked ==> b in j.sources) ::
      b in d.buffers && d.buffers[b] == j.start.buffers[b]
  }

  /** What is staged for each byte that the command covers is that byte of the data. */
  ghost predicate Staged(j: Job, d: State, t: Transfer)
    requires Fits(d, t)
  {
    forall a: nat | t.Covers(a) && j.Inside(a) :: SentTo(d, t, a) == j.data[a - j.base]
  }

  /** What an upload command has moved is in device memory. */
  predicate Landed(j: Job, d: State, t: Transfer) {
    forall a | 0 <= a < |d.memory| && t.Covers(a) && a - t.addr in t.moved && j.Inside(a) ::
      d.memory[a] == j.data[a - j.base]
  }

  /** An upload: what its commands will read is the data; and if no leftover command can
      spoil it, what has been moved or collected is in device memory. */
  ghost predicate Uploading(j: Job, d: State, w: Window) {
    && j.toDevice
    && JobOk(j, d, w)
    && (forall i | j.Stale() <= i < |d.inFlight| :: Staged(j, d, d.inFlight[i]))
    && (Safe(j) ==> Arrived(j, d, w))
  }

  ghost predicate Arrived(j: Job, d: State, w: Window)
    requires j.base + w.collected <= |d.memory| && w.collected <= |j.data|
  {
    && (forall a | j.base <= a < j.base + w.collected :: d.memory[a] == j.data[a - j.base])
    && (forall i | j.Stale() <= i < |d.inFlight| :: Landed(j, d, d.inFlight[i]))
  }

  /** The two commands use different buffers, or different parts of one. */
  predicate Apart(t: Transfer, u: Transfer) {
    t.buffer == u.buffer ==> t.offset + t.len <= u.offset || u.offset + u.len <= t.offset
  }

  /** What a download command has moved is in its buffer. */
  ghost predicate Fetched(d: State, t: Transfer)
    requires Fits(d, t)
  {
    forall a: nat | t.Covers(a) && a - t.addr in t.moved :: SentTo(d, t, a) == d.memory[a]
  }

  predicate Aligned(j: Job, w: Window, t: Transfer) {
    t.buffer == w.buffer ==> t.addr == j.base + |w.out| + t.offset
  }

  /** Which parts of which buffers a download uses. */
  predicate Laid(j: Job, d: State, w: Window) {
    && (forall i | j.Stale() <= i < |d.inFlight| :: d.inFlight[i].len > 0 && Aligned(j, w, d.inFlight[i]))
    && (forall i, k | j.Stale() <= i < k < |d.inFlight| :: Apart(d.inFlight[i], d.inFlight[k]))
    && |w.out| <= w.collected
    && (w.collected > |w.out| ==>
          w.buffer in j.mine && w.buffer in d.buffers && w.collected <= |w.out| + |d.buffers[w.buffer]|)
  }

  /** A download: no command overwrites what another fetches or what is to be copied out;
      and if no leftover command can spoil it, what has been copied out, collected or moved
      is what the device memory holds. */
  ghost predicate Downloading(j: Job, d: State, w: Window) {
    && !j.toDevice
    && JobOk(j, d, w)
    && Laid(j, d, w)
    && (Safe(j) ==> Matches(j, d, w))
  }

  ghost predicate Matches(j: Job, d: State, w: Window)
    requires Wf(d) && |w.out| <= w.collected && j.base + w.collected <= |d.memory| && |d.inFlight| >= j.Stale()
    requires w.collected > |w.out| ==> w.buffer in d.buffers && w.collected <= |w.out| + |d.buffers[w.buffer]|
  {
    && (forall i | j.Stale() <= i < |d.inFlight| :: Fetched(d, d.inFlight[i]))
    && (forall a | j.base <= a < j.base + |w.out| :: w.out[a - j.base] == d.memory[a])
    && (forall a | j.base + |w.out| <= a < j.base + w.collected ::
          d.buffers[w.buffer][a - (j.base + |w.out|)] == d.memory[a])
  }

  ghost predicate Transferring(j: Job, d: State, w: Window) {
    if j.toDevice then Uploading(j, d, w) else Downloading(j, d, w)
  }

  // --- Every device step ---------------------------------------------------------

  lemma ShapeKeepsTiles(j: Job, d: State, d': State, collected: nat, pushed: nat)
    requires SameShape(d, d') && Tiles(j, d, collected, pushed)
    ensures Tiles(j, d', collected, pushed)
  {
  }

  lemma ShapeKeepsStale(j: Job, d: State, d': State)
    requires SameShape(d, d') && StaleOk(j, d)
    ensures StaleOk(j, d') && (Overtaken(j, d) ==> Overtaken(j, d'))
  {
    forall i | 0 <= i < j.Stale()
      ensures j.start.inFlight[i].Became(d'.inFlight[i])
    {
      assert j.start.inFlight[i].Became(d.inFlight[i]) && d.inFlight[i].Became(d'.inFlight[i]);
    }
  }

  /** A command of the job moves only once the leftovers on its queue are done. */
  lemma ActiveMeansOvertaken(j: Job, d: State, i: nat, w: Window)
    requires JobOk(j, d, w) && Active(d, i) && i >= j.Stale()
    ensures Overtaken(j, d)
  {
  }

  /** Which leftover command may move, and what it may touch. */
  lemma StaleMoves(j: Job, d: State, w: Window, i: nat)
    requires JobOk(j, d, w) && i < j.Stale() && !d.inFlight[i].done
    ensures
      var (s, t) := (j.start.inFlight[i], d.inFlight[i]);
      && !s.done && Fits(j.start, s) && t == s.(moved := t.moved, ok := t.ok) && t.buffer !in j.mine && t.buffer in j.leaked
      && (t.toDevice <==> t.buffer in j.sources)
      && (t.toDevice ==> d.buffers[t.buffer] == j.start.buffers[t.buffer])
  {
    assert j.start.inFlight[i].Became(d.inFlight[i]);
  }

  lemma CopyKeepsUntouched(j: Job, d: State, w: Window, i: nat, k: nat)
    requires JobOk(j, d, w) && Active(d, i) && k < d.inFlight[i].len
    ensures Untouched(j, CopyByte(d, i, k)) && Idle(j, CopyByte(d, i, k))
  {
    if i < j.Stale() {
      StaleMoves(j, d, w, i);
      if d.inFlight[i].toDevice {
        assert j.start.inFlight[i].Covers(d.inFlight[i].addr + k);
      }
    }
  }

  lemma CopyKeepsContested(j: Job, d: State, w: Window, i: nat, k: nat)
    requires JobOk(j, d, w) && Active(d, i) && k < d.inFlight[i].len && Safe(j) && !j.toDevice
    ensures forall a | j.base <= a < j.base + |j.data| && Contested(j, a) ::
              CopyByte(d, i, k).memory[a] == j.start.memory[a]
  {
    if i < j.Stale() {
      StaleMoves(j, d, w, i);
      assert Harmless(j, j.start.inFlight[i]);
    }
  }

  lemma CopyKeepsJob(j: Job, d: State, w: Window, i: nat, k: nat)
    requires JobOk(j, d, w) && Active(d, i) && k < d.inFlight[i].len
    ensures JobOk(j, CopyByte(d, i, k), w)
  {
    var d' := CopyByte(d, i, k);
    CopyKeepsWf(d, i, k);
    ShapeKeepsTiles(j, d, d', w.collected, w.pushed);
    ShapeKeepsStale(j, d, d');
    CopyKeepsUntouched(j, d, w, i, k);
    if Safe(j) && !j.toDevice {
      CopyKeepsContested(j, d, w, i, k);
    }
    if i >= j.Stale() {
      ActiveMeansOvertaken(j, d, i, w);
    }
    hide Tiles, StaleOk, Untouched, Idle, Safe, Wf, Contained, SameShape;
  }

  lemma EndKeepsJob(j: Job, d: State, w: Window, i: nat, ok: bool)
    requires JobOk(j, d, w) && Active(d, i) && (ok ==> d.inFlight[i].Whole())
    ensures JobOk(j, End(d, i, ok), w)
  {
    var d' := End(d, i, ok);
    assert SameShape(d, d');
    ShapeKeepsTiles(j, d, d', w.collected, w.pushed);
    ShapeKeepsStale(j, d, d');
    if i >= j.Stale() {
      ActiveMeansOvertaken(j, d, i, w);
    }
    assert Wf(d');
    hide Tiles, StaleOk, Safe, Wf, Contained, SameShape;
  }

  /** Nothing that can still move writes over what an upload has already put in place. */
  lemma CopyKeepsArrived(j: Job, d: State, w: Window, i: nat, k: nat)
    requires Uploading(j, d, w) && Safe(j) && Active(d, i) && k < d.inFlight[i].len
    ensures Arrived(j, CopyByte(d, i, k), w)
  {
    var t := d.inFlight[i];
    if i < j.Stale() {
      StaleMoves(j, d, w, i);
      assert Harmless(j, j.start.inFlight[i]);
    }
    if t.toDevice && j.Inside(t.addr + k) && (HasBegun(j, d, w) || i >= j.Stale()) {
      RightByte(j, d, w, i, t.addr + k);
    }
    WrittenKeepsArrived(j, d, w, i, k);
  }

  /** Whatever command may write to an upload's range, once the upload has begun, writes the
      byte of the data. */
  lemma RightByte(j: Job, d: State, w: Window, i: nat, a: nat)
    requires Uploading(j, d, w) && Safe(j) && Active(d, i) && d.inFlight[i].toDevice
    requires d.inFlight[i].Covers(a) && j.Inside(a) && (HasBegun(j, d, w) || i >= j.Stale())
    ensures SentTo(d, d.inFlight[i], a) == j.data[a - j.base]
  {
    if i < j.Stale() {
      StaleMoves(j, d, w, i);
      assert Harmless(j, j.start.inFlight[i]);
    } else {
      assert Staged(j, d, d.inFlight[i]);
    }
  }

  lemma WrittenKeepsArrived(j: Job, d: State, w: Window, i: nat, k: nat)
    requires Uploading(j, d, w) && Safe(j) && Active(d, i) && k < d.inFlight[i].len
    requires
      var t := d.inFlight[i];
      t.toDevice && j.Inside(t.addr + k) && (HasBegun(j, d, w) || i >= j.Stale()) ==>
        SentTo(d, t, t.addr + k) == j.data[t.addr + k - j.base]
    ensures Arrived(j, CopyByte(d, i, k), w)
  {
    hide Safe, StaleOk, Untouched, Idle, Contained, Started, Staged, Overtaken;
    var d' := CopyByte(d, i, k);
    assert Arrived(j, d, w);
    forall n | j.Stale() <= n < |d'.inFlight|
      ensures Landed(j, d', d'.inFlight[n])
    {
      assert Landed(j, d, d.inFlight[n]);
    }
  }

  /** No device step changes a buffer that an upload sends from. */
  lemma CopyKeepsMine(j: Job, d: State, w: Window, i: nat, k: nat)
    requires JobOk(j, d, w) && j.toDevice && Active(d, i) && k < d.inFlight[i].len
    ensures forall b | b in j.mine && b in d.buffers :: CopyByte(d, i, k).buffers[b] == d.buffers[b]
  {
    if i < j.Stale() {
      StaleMoves(j, d, w, i);
    }
  }

  lemma CopyKeepsUploading(j: Job, d: State, w: Window, i: nat, k: nat)
    requires Uploading(j, d, w) && Active(d, i) && k < d.inFlight[i].len
    ensures Uploading(j, CopyByte(d, i, k), w)
  {
    var d' := CopyByte(d, i, k);
    CopyKeepsJob(j, d, w, i, k);
    CopyKeepsMine(j, d, w, i, k);
    forall n | j.Stale() <= n < |d'.inFlight|
      ensures Staged(j, d', d'.inFlight[n])
    {
      assert Staged(j, d, d.inFlight[n]);
    }
    if Safe(j) {
      CopyKeepsArrived(j, d, w, i, k);
    }
    hide Arrived, Safe, JobOk;
  }

  lemma EndKeepsBytes(j: Job, d: State, i: nat, ok: bool, n: nat)
    requires i < |d.inFlight| && n < |d.inFlight| && Wf(d) && Wf(End(d, i, ok))
    ensures Staged(j, d, d.inFlight[n]) ==> Staged(j, End(d, i, ok), End(d, i, ok).inFlight[n])
    ensures Landed(j, d, d.inFlight[n]) ==> Landed(j, End(d, i, ok), End(d, i, ok).inFlight[n])
    ensures Fetched(d, d.inFlight[n]) ==> Fetched(End(d, i, ok), End(d, i, ok).inFlight[n])
  {
  }

  lemma EndKeepsUploading(j: Job, d: State, w: Window, i: nat, ok: bool)
    requires Uploading(j, d, w) && Active(d, i) && (ok ==> d.inFlight[i].Whole())
    ensures Uploading(j, End(d, i, ok), w)
  {
    EndKeepsJob(j, d, w, i, ok);
    var d' := End(d, i, ok);
    forall n | j.Stale() <= n < |d.inFlight|
      ensures Staged(j, d', d'.inFlight[n])
      ensures Safe(j) ==> Landed(j, d', d'.inFlight[n])
    {
      EndKeepsBytes(j, d, i, ok, n);
    }
    hide Safe, JobOk, Staged, Landed;
  }

  /** Once a command of a download can start, the range it reads does not change. */
  lemma CopyKeepsSource(j: Job, d: State, w: Window, i: nat, k: nat)
    requires JobOk(j, d, w) && Safe(j) && !j.toDevice && Active(d, i) && k < d.inFlight[i].len && Overtaken(j, d)
    ensures forall a | j.base <= a < j.base + |j.data| :: CopyByte(d, i, k).memory[a] == d.memory[a]
  {
    if i < j.Stale() {
      StaleMoves(j, d, w, i);
      assert Rival(j, j.start.inFlight[i]) || !d.inFlight[i].toDevice;
      assert Harmless(j, j.start.inFlight[i]);
    }
  }

  lemma CopyKeepsFetched(j: Job, d: State, w: Window, i: nat, k: nat, n: nat)
    requires Downloading(j, d, w) && Safe(j) && Active(d, i) && k < d.inFlight[i].len
    requires j.Stale() <= n < |d.inFlight| && Fits(CopyByte(d, i, k), CopyByte(d, i, k).inFlight[n])
    ensures Fetched(CopyByte(d, i, k), CopyByte(d, i, k).inFlight[n])
  {
    assert Fetched(d, d.inFlight[n]);
    hide Harmless, Untouched, Idle;
    if i < j.Stale() {
      StaleMoves(j, d, w, i);
      if !d.inFlight[n].Untried() {
        CopyKeepsSource(j, d, w, i, k);
      }
    } else {
      CopyKeepsSource(j, d, w, i, k);
      assert i < n ==> Apart(d.inFlight[i], d.inFlight[n]);
      assert n < i ==> Apart(d.inFlight[n], d.inFlight[i]);
      hide Laid, Safe, StaleOk;
    }
  }

  lemma CopyKeepsHeld(j: Job, d: State, w: Window, i: nat, k: nat)
    requires Downloading(j, d, w) && Safe(j) && Active(d, i) && k < d.inFlight[i].len && w.collected > 0
    ensures
      var d' := CopyByte(d, i, k);
      && (forall a | j.base <= a < j.base + |w.out| :: w.out[a - j.base] == d'.memory[a])
      && (w.collected > |w.out| ==>
            w.buffer in d'.buffers && w.collected <= |w.out| + |d'.buffers[w.buffer]|
            && forall a | j.base + |w.out| <= a < j.base + w.collected ::
                 d'.buffers[w.buffer][a - (j.base + |w.out|)] == d'.memory[a])
  {
    CopyKeepsSource(j, d, w, i, k);
    if i < j.Stale() {
      StaleMoves(j, d, w, i);
    } else {
      assert Aligned(j, w, d.inFlight[i]);
    }
  }

  lemma ShapeKeepsLaid(j: Job, d: State, d': State, w: Window)
    requires SameShape(d, d') && Laid(j, d, w)
    ensures Laid(j, d', w)
  {
  }

  lemma CopyKeepsDownloading(j: Job, d: State, w: Window, i: nat, k: nat)
    requires Downloading(j, d, w) && Active(d, i) && k < d.inFlight[i].len
    ensures Downloading(j, CopyByte(d, i, k), w)
  {
    hide Harmless, StaleOk, Untouched, Idle, Contained, Started, Tiles;
    var d' := CopyByte(d, i, k);
    CopyKeepsJob(j, d, w, i, k);
    CopyKeepsWf(d, i, k);
    ShapeKeepsLaid(j, d, d', w);
    if Safe(j) {
      forall n | j.Stale() <= n < |d'.inFlight|
        ensures Fetched(d', d'.inFlight[n])
      {
        CopyKeepsFetched(j, d, w, i, k, n);
      }
      if w.collected > 0 {
        CopyKeepsHeld(j, d, w, i, k);
      }
    }
    hide Safe, JobOk, Fetched, Laid, SameShape;
  }

  lemma EndKeepsMatches(j: Job, d: State, w: Window, i: nat, ok: bool)
    requires Downloading(j, d, w) && Safe(j) && Active(d, i) && Wf(End(d, i, ok))
    ensures Matches(j, End(d, i, ok), w)
  {
    forall n | j.Stale() <= n < |d.inFlight|
      ensures Fetched(End(d, i, ok), End(d, i, ok).inFlight[n])
    {
      EndKeepsBytes(j, d, i, ok, n);
    }
    hide Safe, StaleOk, Tiles, Apart, Aligned;
  }

  lemma EndKeepsDownloading(j: Job, d: State, w: Window, i: nat, ok: bool)
    requires Downloading(j, d, w) && Active(d, i) && (ok ==> d.inFlight[i].Whole())
    ensures Downloading(j, End(d, i, ok), w)
  {
    var d' := End(d, i, ok);
    EndKeepsJob(j, d, w, i, ok);
    assert SameShape(d, d');
    ShapeKeepsLaid(j, d, d', w);
    if Safe(j) {
      EndKeepsMatches(j, d, w, i, ok);
    }
    hide Safe, JobOk, Matches, Laid;
  }

  lemma StepKeepsTransferring(j: Job, d: State, e: Effect, w: Window)
    requires Transferring(j, d, w)
    ensures Transferring(j, Step(d, e), w)
    ensures j.toDevice ==> forall b | b in j.mine && b in d.buffers ::
              b in Step(d, e).buffers && Step(d, e).buffers[b] == d.buffers[b]
  {
    if Active(d, e.i) {
      match e {
        case Copy(i, k) =>
          if k < d.inFlight[i].len {
            if j.toDevice {
              CopyKeepsUploading(j, d, w, i, k);
              CopyKeepsMine(j, d, w, i, k);
            } else {
              CopyKeepsDownloading(j, d, w, i, k);
            }
          }
        case Finish(i, ok) =>
          if ok ==> d.inFlight[i].Whole() {
            if j.toDevice { EndKeepsUploading(j, d, w, i, ok); } else { EndKeepsDownloading(j, d, w, i, ok); }
          }
      }
    }
  }

  /** Whatever the device does next, in whatever order, the transfer stays on course. */
  lemma {:induction false} RunKeepsTransferring(j: Job, d: State, effects: seq<Effect>, w: Window)
    requires Transferring(j, d, w)
    ensures Transferring(j, Run(d, effects), w)
    ensures j.toDevice ==> forall b | b in j.mine && b in d.buffers ::
              b in Run(d, effects).buffers && Run(d, effects).buffers[b] == d.buffers[b]
    decreases |effects|
  {
    if effects != [] {
      StepKeepsTransferring(j, d, effects[0], w);
      RunKeepsTransferring(j, Step(d, effects[0]), effects[1..], w);
    }
  }

  // --- Host actions during a transfer -------------------------------------------

  lemma TransferBegins(j: Job, buffer: nat)
    requires Wf(j.start) && j.base + |j.data| <= |j.start.memory|
    requires Contained(j.start.inFlight, j.leaked, j.sources) && j.mine !! j.leaked
    ensures Transferring(j, j.start, Window(0, 0, [], buffer))
  {
  }

  /** The host fills a buffer that no command of the upload uses. */
  lemma StageKeepsUploading(j: Job, d: State, b: nat, contents: seq<Byte>, w: Window)
    requires Uploading(j, d, w) && b in j.mine && b in d.buffers && |contents| == |d.buffers[b]|
    requires forall i | j.Stale() <= i < |d.inFlight| :: d.inFlight[i].buffer != b
    ensures Uploading(j, d.(buffers := d.buffers[b := contents]), w)
  {
    var d' := d.(buffers := d.buffers[b := contents]);
    assert JobOk(j, d', w);
    forall n | j.Stale() <= n < |d'.inFlight|
      ensures Staged(j, d', d'.inFlight[n]) && (Safe(j) ==> Landed(j, d', d'.inFlight[n]))
    {
      assert Staged(j, d, d.inFlight[n]);
    }
    hide Safe, JobOk, Staged, Landed;
  }

  function Push(d: State, t: Transfer): State {
    d.(inFlight := d.inFlight + [t])
  }

  /** `t` is the next command of the job: it continues where the last one ended, and its
      part of the buffer is staged, or free. */
  ghost predicate Continues(j: Job, d: State, w: Window, t: Transfer) {
    && t.queue == j.queue && t.toDevice == j.toDevice && t.buffer in j.mine && t.Untried() && t.len > 0
    && Fits(d, t)
    && t.addr == j.base + w.pushed && w.pushed + t.len <= |j.data|
    && if j.toDevice then Staged(j, d, t)
       else Aligned(j, w, t) && forall i | j.Stale() <= i < |d.inFlight| :: Apart(d.inFlight[i], t)
  }

  lemma PushKeepsJob(j: Job, d: State, t: Transfer, w: Window)
    requires JobOk(j, d, w) && Continues(j, d, w, t)
    ensures JobOk(j, Push(d, t), w.(pushed := w.pushed + t.len))
  {
    var d' := Push(d, t);
    assert Wf(d') && StaleOk(j, d') && Untouched(j, d') && Idle(j, d') by {
      hide Safe, Tiles, Staged, Overtaken, HasBegun;
    }
    assert Tiles(j, d', w.collected, w.pushed + t.len) by {
      hide Safe, Wf, Staged, Overtaken, HasBegun, StaleOk, Untouched, Idle;
    }
    hide Safe, Untouched, Idle, Staged, Tiles, StaleOk, Wf;
  }

  lemma PushKeepsUploading(j: Job, d: State, t: Transfer, w: Window)
    requires Uploading(j, d, w) && Continues(j, d, w, t)
    ensures Uploading(j, Push(d, t), w.(pushed := w.pushed + t.len))
  {
    PushKeepsJob(j, d, t, w);
    forall n | j.Stale() <= n < |Push(d, t).inFlight|
      ensures Staged(j, Push(d, t), Push(d, t).inFlight[n])
    {
      assert Staged(j, d, Push(d, t).inFlight[n]);
    }
    hide Safe, JobOk, Staged;
  }

  lemma PushKeepsDownloading(j: Job, d: State, t: Transfer, w: Window)
    requires Downloading(j, d, w) && Continues(j, d, w, t)
    ensures Downloading(j, Push(d, t), w.(pushed := w.pushed + t.len))
  {
    PushKeepsJob(j, d, t, w);
    hide StaleOk, Overtaken, Untouched, Idle, Tiles, Safe, Contained, HasBegun;
  }

  lemma PushKeepsTransferring(j: Job, d: State, t: Transfer, w: Window)
    requires Transferring(j, d, w) && Continues(j, d, w, t)
    ensures Transferring(j, Push(d, t), w.(pushed := w.pushed + t.len))
  {
    if j.toDevice { PushKeepsUploading(j, d, t, w); } else { PushKeepsDownloading(j, d, t, w); }
  }

  /** A command is collected. */
  function Pop(d: State, at: nat): State
    requires at < |d.inFlight|
  {
    d.(inFlight := d.inFlight[..at] + d.inFlight[at + 1..])
  }

  lemma {:induction false} TilesAreOrdered(j: Job, d: State, collected: nat, pushed: nat, k: nat)
    requires Tiles(j, d, collected, pushed) && j.Stale() < k < |d.inFlight|
    ensures d.inFlight[j.Stale()].addr + d.inFlight[j.Stale()].len <= d.inFlight[k].addr
    decreases k
  {
    if k > j.Stale() + 1 {
      TilesAreOrdered(j, d, collected, pushed, k - 1);
    }
  }

  lemma PopKeepsTiles(j: Job, d: State, collected: nat, pushed: nat)
    requires Tiles(j, d, collected, pushed) && j.Stale() < |d.inFlight|
    ensures collected + d.inFlight[j.Stale()].len <= pushed
    ensures Tiles(j, Pop(d, j.Stale()), collected + d.inFlight[j.Stale()].len, pushed)
  {
    forall k | j.Stale() < k < |d.inFlight|
      ensures d.inFlight[j.Stale()].addr + d.inFlight[j.Stale()].len <= d.inFlight[k].addr
    {
      TilesAreOrdered(j, d, collected, pushed, k);
    }
  }

  lemma PopKeepsJob(j: Job, d: State, w: Window)
    requires JobOk(j, d, w) && j.Stale() < |d.inFlight| && d.inFlight[j.Stale()].done
    ensures JobOk(j, Pop(d, j.Stale()), w.(collected := w.collected + d.inFlight[j.Stale()].len))
  {
    PopKeepsTiles(j, d, w.collected, w.pushed);
    assert !d.inFlight[j.Stale()].Untried();
    hide Tiles, Untouched, Idle, Safe;
  }

  lemma PopKeepsUploading(j: Job, d: State, w: Window)
    requires Uploading(j, d, w) && j.Stale() < |d.inFlight|
    requires d.inFlight[j.Stale()].done && d.inFlight[j.Stale()].ok
    ensures Uploading(j, Pop(d, j.Stale()), w.(collected := w.collected + d.inFlight[j.Stale()].len))
  {
    var d', w' := Pop(d, j.Stale()), w.(collected := w.collected + d.inFlight[j.Stale()].len);
    PopKeepsJob(j, d, w);
    forall n | j.Stale() <= n < |d'.inFlight|
      ensures Staged(j, d', d'.inFlight[n])
    {
      assert Staged(j, d, d.inFlight[n + 1]);
    }
    if Safe(j) {
      PopKeepsArrived(j, d, w);
    }
    hide Arrived, Safe, JobOk, Staged;
  }

  lemma PopKeepsArrived(j: Job, d: State, w: Window)
    requires Uploading(j, d, w) && Safe(j) && j.Stale() < |d.inFlight|
    requires d.inFlight[j.Stale()].done && d.inFlight[j.Stale()].ok
    requires w.collected + d.inFlight[j.Stale()].len <= |j.data|
    ensures Arrived(j, Pop(d, j.Stale()), w.(collected := w.collected + d.inFlight[j.Stale()].len))
  {
    var d' := Pop(d, j.Stale());
    assert Landed(j, d, d.inFlight[j.Stale()]) && d.inFlight[j.Stale()].Whole();
    forall n | j.Stale() <= n < |d'.inFlight|
      ensures Landed(j, d', d'.inFlight[n])
    {
      assert Landed(j, d, d.inFlight[n + 1]);
    }
    hide Safe, StaleOk, Staged;
  }

  lemma PopKeepsDownloading(j: Job, d: State, w: Window)
    requires Downloading(j, d, w) && j.Stale() < |d.inFlight|
    requires var t := d.inFlight[j.Stale()]; t.done && t.ok && t.buffer == w.buffer
    ensures Downloading(j, Pop(d, j.Stale()), w.(collected := w.collected + d.inFlight[j.Stale()].len))
  {
    PopKeepsJob(j, d, w);
    if Safe(j) {
      PopKeepsMatches(j, d, w);
    }
    hide Matches, Safe, StaleOk, Untouched, Idle, Overtaken, HasBegun;
  }

  lemma PopKeepsMatches(j: Job, d: State, w: Window)
    requires Downloading(j, d, w) && Safe(j) && j.Stale() < |d.inFlight|
    requires var t := d.inFlight[j.Stale()]; t.done && t.ok && t.buffer == w.buffer
    requires Wf(Pop(d, j.Stale())) && w.collected + d.inFlight[j.Stale()].len <= |j.data|
    ensures w.collected + d.inFlight[j.Stale()].len <= |w.out| + |d.buffers[w.buffer]|
    ensures Matches(j, Pop(d, j.Stale()), w.(collected := w.collected + d.inFlight[j.Stale()].len))
  {
    var d', t := Pop(d, j.Stale()), d.inFlight[j.Stale()];
    assert Fetched(d, t) && t.Whole() && Aligned(j, w, t);
    forall n | j.Stale() <= n < |d'.inFlight|
      ensures Fetched(d', d'.inFlight[n])
    {
      assert Fetched(d, d.inFlight[n + 1]);
    }
    hide Safe, StaleOk, Untouched, Idle, Overtaken, HasBegun, Contained;
  }

  /** A command that has succeeded is collected: the oldest of the job, and for a download
      one that fills the buffer to be copied out next. */
  lemma PopKeepsTransferring(j: Job, d: State, w: Window)
    requires Transferring(j, d, w) && j.Stale() < |d.inFlight|
    requires var t := d.inFlight[j.Stale()]; t.done && t.ok && (!j.toDevice ==> t.buffer == w.buffer)
    ensures Transferring(j, Pop(d, j.Stale()), w.(collected := w.collected + d.inFlight[j.Stale()].len))
  {
    if j.toDevice { PopKeepsUploading(j, d, w); } else { PopKeepsDownloading(j, d, w); }
  }

  /** The host copies out what it has collected, and turns to the buffer `next`. */
  lemma CopyOutKeepsDownloading(j: Job, d: State, w: Window, next: nat)
    requires Downloading(j, d, w) && |w.out| < w.collected
    requires forall i | j.Stale() <= i < |d.inFlight| && d.inFlight[i].buffer == next ::
               d.inFlight[i].addr == j.base + w.collected + d.inFlight[i].offset
    ensures
      var n := w.collected - |w.out|;
      Downloading(j, d, Window(w.collected, w.pushed, w.out + d.buffers[w.buffer][..n], next))
  {
    hide Safe, StaleOk, Untouched, Idle, Overtaken, Contained, Fetched;
  }
}
