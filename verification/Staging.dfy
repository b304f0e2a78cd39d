/** The staged and pinned DMA transfers of et-rs/src/device.rs: persistent host buffers,
    filled, emptied and handed on while the device runs on its own. */
module Staging {
  import opened LittleEndian
  import opened Dma
  import opened Leftovers
  import opened Sequences
  import opened Transport
  import opened Wrappers
  import opened Arith
  import DmaList

  /** A host buffer that the device can access: its identity, and the addresses that go
      into DMA nodes. */
  datatype HostBuffer = HostBuffer(id: nat, virt: DmaList.U64, phys: DmaList.U64)

  /** A buffer that the transport offers, with what is in it. */
  datatype Offer = Offer(host: HostBuffer, contents: seq<Byte>) {
    predicate Suits(d: State, size: nat) {
      && host.id !in d.buffers && size <= |contents|
      && host.virt + |contents| < 0x1_0000_0000_0000_0000 && host.phys + |contents| < 0x1_0000_0000_0000_0000
    }
  }

  /** `dma_may_be_in_flight`: the command may have been queued and not completed. */
  predicate MayBeInFlight(e: Error) {
    e.Timeout? || e.Io? || e.Protocol?
  }

  /** A transfer failed, and something of it may be in flight: the error does not exclude
      it, or `left` more commands are in flight than before. */
  predicate Uncertain(r: Outcome, left: int) {
    r.Failed? && (MayBeInFlight(r.error) || left > 0)
  }

  /** What an upload sends: the caller's bytes, or `total` copies of one. */
  datatype Source = Copied(bytes: seq<Byte>) | Pattern(total: nat, value: Byte) {
    function Data(): (r: seq<Byte>) {
      match this
      case Copied(bytes) => bytes
      case Pattern(total, value) => seq(total, _ => value)
    }
  }

  function NextPowerOfTwo(n: nat): (r: nat)
    ensures n <= r && 0 < r
    decreases n
  {
    if n <= 1 then 1 else 2 * NextPowerOfTwo((n + 1) / 2)
  }

  function Power(k: nat): nat {
    if k == 0 then 1 else 2 * Power(k - 1)
  }

  /** It is a power of two, and the next smaller one would not do. */
  lemma {:induction false} NextPowerIsLeast(n: nat) returns (k: nat)
    ensures NextPowerOfTwo(n) == Power(k) && (k > 0 ==> Power(k - 1) < n)
    decreases n
  {
    k := 0;
    if n > 1 {
      var m := NextPowerIsLeast((n + 1) / 2);
      k := m + 1;
      assert Power(k) == 2 * Power(m) && (m > 0 ==> Power(m) == 2 * Power(m - 1));
    }
  }

  function Ids(buffers: seq<HostBuffer>): set<nat> {
    set b | b in buffers :: b.id
  }

  const DEFAULT_STAGING_CAPACITY: nat := 0x100_0000

  /** What the driver reports about device memory. */
  datatype Dram = Dram(alignment: nat, elemSize: nat, elemCount: nat) {
    predicate Sensible() {
      alignment >= 1 && elemSize < 0x1_0000_0000
    }
  }

  /** `align_staging_capacity`: a multiple of twice the alignment, so that each half is
      aligned, and never zero. */
  function AlignStagingCapacity(bytes: nat, alignment: nat): (r: nat)
    requires alignment >= 1
    ensures r >= 2 * alignment && r % (2 * alignment) == 0
    ensures (r <= bytes || r == 2 * alignment) && bytes < r + 2 * alignment
  {
    RoundDown(bytes, 2 * alignment)
  }

  /** What holds of a transfer even after one of its commands has failed: `pending` of its
      commands at least are in flight, unless the failure leaves that open. */
  predicate JobHolds(j: Job, d: State, pending: nat, r: Outcome) {
    Surrounded(j, d) && (r.Failed? && !MayBeInFlight(r.error) ==> |d.inFlight| >= j.Stale() + pending)
  }

  /** What makes its end safe for its buffers: if none is left to await, none is in flight. */
  predicate JobSafe(j: Job, d: State, pending: nat, r: Outcome) {
    JobHolds(j, d, pending, r) && (r.Failed? && !MayBeInFlight(r.error) && pending == 0 ==> |d.inFlight| == j.Stale())
  }

  /** The commands in flight at `d` still are at `d'`, in the same places. */
  predicate Kept(d: State, d': State) {
    && |d.inFlight| <= |d'.inFlight|
    && forall i | 0 <= i < |d.inFlight| :: d.inFlight[i].Became(d'.inFlight[i])
  }

  /** Device memory and every host buffer have kept their sizes. */
  predicate SameSizes(d: State, d': State) {
    && |d'.memory| == |d.memory|
    && d'.buffers.Keys == d.buffers.Keys
    && forall b | b in d.buffers :: |d'.buffers[b]| == |d.buffers[b]|
  }

  /** The host buffers of an upload hold what they did. */
  predicate SameBuffers(j: Job, d: State, d': State) {
    && SameSizes(d, d')
    && (j.toDevice ==> forall b | b in j.mine && b in d.buffers :: d'.buffers[b] == d.buffers[b])
  }

  /** Since `was`, `pushed` commands have sent the next `start` bytes, out of buffer `b`. */
  ghost predicate Sending(j: Job, w: Window, was: State, d: State, b: nat, start: nat, pushed: nat) {
    && Transferring(j, d, w.(pushed := w.pushed + start))
    && Kept(was, d) && SameBuffers(j, was, d)
    && |d.inFlight| == |was.inFlight| + pushed
    && (forall i | |was.inFlight| <= i < |d.inFlight| ::
          && d.inFlight[i].buffer == b && d.inFlight[i].offset + d.inFlight[i].len <= start
          && d.inFlight[i].addr == j.base + w.pushed + d.inFlight[i].offset)
    && (start > 0 <==> pushed > 0)
    && (pushed > 0 ==> d.inFlight[|was.inFlight|].addr == j.base + w.pushed)
  }

  /** The next `len` bytes of the transfer can be sent from, or to, the start of buffer `b`. */
  ghost predicate Ready(j: Job, w: Window, d: State, b: nat, len: nat) {
    && Transferring(j, d, w)
    && b in j.mine && b in d.buffers && 0 < len <= |d.buffers[b]| && w.pushed + len <= |j.data|
    && if j.toDevice then forall x | 0 <= x < len :: d.buffers[b][x] == j.data[w.pushed + x]
       else
         && (forall i | j.Stale() <= i < |d.inFlight| :: d.inFlight[i].buffer != b)
         && (b == w.buffer ==> w.pushed == |w.out|)
  }

  lemma SendingBegins(j: Job, w: Window, d: State, b: nat, len: nat)
    requires Ready(j, w, d, b, len)
    ensures Sending(j, w, d, d, b, 0, 0)
    ensures b in d.buffers && 0 < len <= |d.buffers[b]| && j.base + w.pushed + len <= |d.memory|
  {
    assert w.(pushed := w.pushed + 0) == w;
  }

  lemma SendingProgress(j: Job, w: Window, was: State, d: State, d': State, b: nat, start: nat, pushed: nat)
    requires Sending(j, w, was, d, b, start, pushed)
    requires Transferring(j, d', w.(pushed := w.pushed + start)) && Kept(d, d') && SameBuffers(j, d, d')
    requires |d'.inFlight| == |d.inFlight|
    ensures Sending(j, w, was, d', b, start, pushed)
  {
    hide Transferring;
  }

  lemma SendingPush(j: Job, w: Window, was: State, d: State, d': State, b: nat, start: nat, pushed: nat, t: Transfer)
    requires Sending(j, w, was, d, b, start, pushed)
    requires t.buffer == b && t.offset == start && t.addr == j.base + w.pushed + start && 0 < t.len
    requires Transferring(j, d', w.(pushed := w.pushed + start + t.len)) && Kept(d, d') && SameBuffers(j, d, d')
    requires |d'.inFlight| == |d.inFlight| + 1 && d'.inFlight[|d.inFlight|] == t
    ensures Sending(j, w, was, d', b, start + t.len, pushed + 1)
  {
    hide Transferring;
  }

  lemma SendingContinues(j: Job, w: Window, was: State, d: State, b: nat, len: nat, start: nat, pushed: nat, t: Transfer)
    requires Ready(j, w, was, b, len) && Sending(j, w, was, d, b, start, pushed) && start < start + t.len <= len
    requires t == Transfer(j.queue, j.toDevice, b, start, j.base + w.pushed + start, t.len, {}, false, false)
    ensures Continues(j, d, w.(pushed := w.pushed + start), t)
  {
    forall i | j.Stale() <= i < |d.inFlight|
      ensures !j.toDevice ==> Apart(d.inFlight[i], t)
    {
      if i < |was.inFlight| {
        assert was.inFlight[i].Became(d.inFlight[i]);
      }
    }
  }

  lemma OkIsSafe(j: Job, d: State, w: Window, pending: nat)
    requires Transferring(j, d, w) && |d.inFlight| == j.Stale() + pending
    ensures forall r :: JobSafe(j, d, pending, r)
  {
    JobIsSurrounded(j, d, w);
    hide Surrounded, JobOk;
  }

  lemma PopIsSafe(j: Job, d: State, w: Window, left: nat)
    requires Transferring(j, d, w) && |d.inFlight| == j.Stale() + left + 1
    ensures forall r :: JobSafe(j, Pop(d, j.Stale()), left, r)
  {
    JobIsSurrounded(j, d, w);
    PopIsSurrounded(j, d);
    hide Surrounded, JobOk;
  }

  lemma PopIsSurrounded(j: Job, d: State)
    requires Surrounded(j, d) && j.Stale() < |d.inFlight|
    ensures Surrounded(j, Pop(d, j.Stale()))
  {
  }

  lemma OkIsSafeInFlight(j: Job, d: State, w: Window, left: nat, e: Error)
    requires Transferring(j, d, w) && MayBeInFlight(e)
    ensures JobSafe(j, d, left, Failed(e))
  {
    JobIsSurrounded(j, d, w);
    hide Surrounded, JobOk;
  }

  lemma SameBuffersOn(j: Job, was: State, d: State, d': State)
    ensures SameBuffers(j, was, was)
    ensures SameBuffers(j, was, d) && SameBuffers(j, d, d') ==> SameBuffers(j, was, d')
  {
  }

  /** How collecting the oldest command of the job ends, if this is what the device has done by
      the deadline and how the response arrives. */
  ghost predicate EndsAs(j: Job, d: State, turn: Turn<Effect, Offer>, h: Happening, r: Outcome) {
    && Wf(d) && j.Stale() < |Run(d, turn.effects).inFlight|
    && var t := Run(d, turn.effects).inFlight[j.Stale()];
    && h == Polled(t.done, t.ok, turn.reply)
    && (r.Done? <==> t.done && t.ok && turn.reply.Whole?)
    && (r == Failed(DeviceStatus) <==> t.done && !t.ok && turn.reply.Whole?)
    && (r == Failed(Timeout) <==> !t.done && !turn.reply.Broken?)
    && (r == Failed(Protocol) <==> turn.reply == Broken(false) || (t.done && turn.reply.Truncated?))
    && (r == Failed(Io) <==> turn.reply == Broken(true))
  }

  lemma EndsAsIs(j: Job, d: State, turn: Turn<Effect, Offer>, t: Transfer)
    requires Wf(d) && j.Stale() < |Run(d, turn.effects).inFlight| && t == Run(d, turn.effects).inFlight[j.Stale()]
    ensures
      var h := Polled(t.done, t.ok, turn.reply);
      EndsAs(j, d, turn, h, AsOutcome(Mishap(h)))
  {
    hide Run, Wf;
  }

  /** `n` commands of the job have been collected between `d` and `d'`. */
  predicate Shifted(stale: nat, d: State, d': State, n: nat) {
    && stale + n <= |d.inFlight| && |d'.inFlight| + n == |d.inFlight|
    && forall i | stale <= i < |d'.inFlight| :: d.inFlight[i + n].Became(d'.inFlight[i])
  }

  lemma NotShifted(stale: nat, d: State)
    requires stale <= |d.inFlight|
    ensures Shifted(stale, d, d, 0)
  {
  }

  lemma ShiftedByPop(stale: nat, d: State, d': State)
    requires Kept(d, d') && stale < |d.inFlight| == |d'.inFlight|
    ensures Shifted(stale, d, Pop(d', stale), 1)
  {
  }

  lemma ShiftedOn(stale: nat, was: State, d: State, d': State, n: nat)
    requires Shifted(stale, was, d, n) && Shifted(stale, d, d', 1)
    ensures Shifted(stale, was, d', n + 1)
  {
    forall i | stale <= i < |d'.inFlight|
      ensures was.inFlight[i + (n + 1)].Became(d'.inFlight[i])
    {
      assert was.inFlight[(i + 1) + n].Became(d.inFlight[i + 1]);
    }
  }

  lemma ShiftedHead(stale: nat, was: State, d: State, n: nat)
    requires Shifted(stale, was, d, n) && stale < |d.inFlight|
    ensures was.inFlight[stale + n].Became(d.inFlight[stale])
  {
  }

  /** Only commands of the transfer that use buffer `b` are still in flight, and there are
      `pending` of them. */
  predicate OnlyIn(j: Job, d: State, b: nat, pending: nat) {
    && |d.inFlight| == j.Stale() + pending
    && forall i | j.Stale() <= i < |d.inFlight| :: d.inFlight[i].buffer == b
  }

  /** What is in flight once a chunk has been sent out of buffer `b` and everything before
      it collected. */
  lemma ChunkInFlight(j: Job, w: Window, was: State, mid: State, d: State, w': Window, b: nat, len: nat,
                      before: nat, pushed: nat)
    requires |was.inFlight| == j.Stale() + before
    requires Sending(j, w, was, mid, b, len, pushed) && 0 < len
    requires Shifted(j.Stale(), mid, d, before) && SameBuffers(j, mid, d)
    requires Transferring(j, d, w') && w' == w.(pushed := w.pushed + len, collected := w'.collected)
    ensures w'.collected == w.pushed && OnlyIn(j, d, b, pushed) && SameBuffers(j, was, d)
    ensures forall i | j.Stale() <= i < |d.inFlight| :: d.inFlight[i].addr == j.base + w.pushed + d.inFlight[i].offset
  {
    assert mid.inFlight[j.Stale() + before].Became(d.inFlight[j.Stale()]);
  }

  function Place(host: HostBuffer, dst: DmaList.U64): DmaList.Place {
    DmaList.Place(host.virt, host.phys, dst)
  }

  /** After a transfer, leaking its buffers is enough to contain whatever is unfinished,
      and is not needed if it succeeded or failed with nothing in flight. */
  lemma JobEnds(j: Job, d: State, pending: nat, r: Outcome)
    requires JobHolds(j, d, pending, r) && j.sources <= j.leaked
    requires r.Done? ==> |d.inFlight| == j.Stale()
    ensures Contained(d.inFlight, j.leaked + j.mine, j.sources + if j.toDevice then j.mine else {})
    ensures JobSafe(j, d, pending, r) && (r.Done? || !(pending > 0 || MayBeInFlight(r.error))) ==>
              Contained(d.inFlight, j.leaked, j.sources)
  {
    var all := j.sources + if j.toDevice then j.mine else {};
    forall i | 0 <= i < |d.inFlight| && !d.inFlight[i].done
      ensures var t := d.inFlight[i]; t.buffer in j.leaked + j.mine && (t.toDevice <==> t.buffer in all)
      ensures i < j.Stale() ==> d.inFlight[i].buffer in j.leaked && (d.inFlight[i].toDevice <==> d.inFlight[i].buffer in j.sources)
    {
      if i < j.Stale() {
        assert j.start.inFlight[i].Became(d.inFlight[i]) && !j.start.inFlight[i].done;
      }
    }
  }

  lemma SparesNoUploads(d: State, d': State, toDevice: bool, queue: nat, at: nat, total: nat)
    requires Wf(d) && Spares(d, d', toDevice, queue, at, total) && |d'.inFlight| == |d.inFlight|
    ensures NoUploads(d.inFlight) ==> NoUploads(d'.inFlight)
  {
    forall i | 0 <= i < |d.inFlight|
      ensures d.inFlight[i].Became(d'.inFlight[i])
    {
    }
  }

  /** What a successful download has achieved. */
  lemma DownloadReturns(j: Job, d: State, out: seq<Byte>)
    requires Wf(j.start) && Safe(j) && |out| == |j.data| && exists b :: Downloading(j, d, Window(|j.data|, |j.data|, out, b))
    ensures j.base + |j.data| <= |d.memory| && d.memory[j.base..j.base + |j.data|] == out
  {
    var b :| Downloading(j, d, Window(|j.data|, |j.data|, out, b));
    var range := d.memory[j.base..j.base + |j.data|];
    forall k | 0 <= k < |j.data|
      ensures range[k] == out[k]
    {
      var a := j.base + k;
      assert out[a - j.base] == d.memory[a];
    }
  }

  /** In a fill, the first `n` bytes of each of the first `count` buffers hold the pattern. */
  predicate Painted(d: State, source: Source, buffers: seq<HostBuffer>, count: nat, n: nat) {
    source.Pattern? ==>
      forall k | 0 <= k < |buffers| && k < count ::
        && buffers[k].id in d.buffers && n <= |d.buffers[buffers[k].id]|
        && forall x | 0 <= x < n :: d.buffers[buffers[k].id][x] == source.value
  }

  lemma NothingPainted(d: State, source: Source, buffers: seq<HostBuffer>, n: nat)
    ensures Painted(d, source, buffers, 0, n)
  {
  }

  lemma PaintedTwice(d: State, source: Source, buffers: seq<HostBuffer>, index: nat, n: nat)
    requires Painted(d, source, buffers, index, n) && Distinct(buffers)
    ensures
      var host := buffers[index % |buffers|].id;
      source.Pattern? && index >= 2 ==>
        host in d.buffers && n <= |d.buffers[host]| && forall x | 0 <= x < n :: d.buffers[host][x] == source.value
  {
  }

  predicate Distinct(buffers: seq<HostBuffer>) {
    |buffers| == 1 || (|buffers| == 2 && buffers[0].id != buffers[1].id)
  }

  /** The two buffers of a fill take turns, so the pattern written into them first is still
      there for every later chunk. */
  lemma PaintedOn(j: Job, d: State, d': State, source: Source, buffers: seq<HostBuffer>, index: nat, n: nat)
    requires Distinct(buffers) && j.mine == Ids(buffers) && Painted(d, source, buffers, index, n)
    requires d'.buffers.Keys == d.buffers.Keys
    requires var host := buffers[index % |buffers|].id;
             && host in d.buffers && n <= |d'.buffers[host]|
             && (source.Pattern? ==> forall x | 0 <= x < n :: d'.buffers[host][x] == source.value)
             && forall b | b in j.mine && b in d'.buffers && b != host :: d'.buffers[b] == d.buffers[b]
    ensures Painted(d', source, buffers, index + 1, n)
  {
    forall k | 0 <= k < |buffers| && k < index + 1
      ensures buffers[k].id in j.mine && (k < index || k == index % |buffers|)
    {
      InIds(buffers, k);
    }
  }

  lemma InIds(buffers: seq<HostBuffer>, k: nat)
    requires k < |buffers|
    ensures buffers[k].id in Ids(buffers)
  {
  }

  /** Between two turns of an upload: `index` chunks, `offset` bytes in all, have been sent,
      and only the last of them, staged in buffer `previous`, is still in flight. */
  ghost predicate UploadLoop(j: Job, d: State, w: Window, source: Source, buffers: seq<HostBuffer>, chunk: nat,
                             offset: nat, index: nat, previous: nat, pending: nat) {
    && Distinct(buffers) && j.mine == Ids(buffers) && j.data == source.Data()
    && Uploading(j, d, w) && w == Window(w.collected, offset, [], 0)
    && offset <= |j.data| && OnlyIn(j, d, previous, pending)
    && (if index == 0 then pending == 0 else previous == buffers[(index - 1) % |buffers|].id)
    && (|buffers| == 1 && index > 0 ==> offset == |j.data|)
    && (offset < |j.data| ==> Painted(d, source, buffers, index, chunk))
  }

  lemma UploadReady(j: Job, d: State, w: Window, source: Source, buffers: seq<HostBuffer>, chunk: nat,
                    offset: nat, index: nat, previous: nat, pending: nat)
    requires UploadLoop(j, d, w, source, buffers, chunk, offset, index, previous, pending)
    requires |buffers| == 1 ==> |j.data| <= chunk
    ensures Uploading(j, d, w) && w == Window(w.collected, offset, [], 0) && OnlyIn(j, d, previous, pending)
    ensures
      var host := buffers[index % |buffers|].id;
      && host in j.mine
      && (offset < |j.data| && pending > 0 ==> previous != host)
      && (offset < |j.data| && source.Pattern? && index >= 2 ==>
            host in d.buffers && chunk <= |d.buffers[host]|
            && forall x | 0 <= x < chunk :: d.buffers[host][x] == source.value)
  {
    hide Uploading, Painted, Ids;
    InIds(buffers, index % |buffers|);
    if offset < |j.data| {
      PaintedTwice(d, source, buffers, index, chunk);
    }
  }

  lemma UploadTurn(j: Job, d: State, d': State, w: Window, w': Window, source: Source, buffers: seq<HostBuffer>,
                   chunk: nat, offset: nat, index: nat, previous: nat, pending: nat, left: nat, len: nat)
    requires UploadLoop(j, d, w, source, buffers, chunk, offset, index, previous, pending) && SameSizes(d, d')
    requires len == Min(chunk, |j.data| - offset) && (|buffers| == 1 ==> |j.data| <= chunk)
    requires offset < |j.data|
    requires var host := buffers[index % |buffers|].id;
             && host in d.buffers && chunk <= |d.buffers[host]|
             && Uploading(j, d', w') && w' == Window(offset, offset + len, [], 0) && OnlyIn(j, d', host, left)
             && (source.Pattern? ==> forall x | 0 <= x < len :: d'.buffers[host][x] == source.value)
             && forall b | b in j.mine && b in d'.buffers && b != host :: d'.buffers[b] == d.buffers[b]
    ensures UploadLoop(j, d', w', source, buffers, chunk, offset + len, index + 1, buffers[index % |buffers|].id, left)
  {
    hide Uploading;
    if offset + len < |j.data| {
      PaintedOn(j, d, d', source, buffers, index, chunk);
    }
  }

  /** Between two turns of a download: `out` has been copied out, and the only commands in
      flight fetch the next chunk. */
  ghost predicate DownloadLoop(j: Job, d: State, w: Window, buffers: seq<HostBuffer>, chunk: nat, out: seq<Byte>,
                               index: nat, pending: nat) {
    && Distinct(buffers) && j.mine == Ids(buffers)
    && Downloading(j, d, w)
    && |out| <= |j.data|
    && w == Window(|out|, Min(|out| + chunk, |j.data|), out, buffers[index % |buffers|].id)
    && (|out| < |j.data| ==> OnlyIn(j, d, w.buffer, pending))
    && (|out| == |j.data| ==> |d.inFlight| == j.Stale() && pending == 0)
  }

  lemma DownloadBegins(j: Job, d: State, b: nat, len: nat)
    requires Transferring(j, d, Window(0, 0, [], b)) && !j.toDevice && |d.inFlight| == j.Stale()
    requires b in j.mine && b in d.buffers && 0 < len <= |d.buffers[b]| && len <= |j.data|
    ensures Ready(j, Window(0, 0, [], b), d, b, len) && j.base + len <= |d.memory|
  {
  }

  lemma TransferringIsDownloading(j: Job, d: State, w: Window)
    requires Transferring(j, d, w) && !j.toDevice
    ensures Downloading(j, d, w)
  {
  }

  lemma DownloadIsOver(j: Job, d: State, w: Window, buffers: seq<HostBuffer>, chunk: nat, out: seq<Byte>, index: nat,
                       pending: nat)
    requires DownloadLoop(j, d, w, buffers, chunk, out, index, pending) && |out| == |j.data|
    ensures |d.inFlight| == j.Stale() && exists b :: Downloading(j, d, Window(|out|, |out|, out, b))
  {
    hide Downloading;
    assert Downloading(j, d, Window(|out|, |out|, out, w.buffer));
  }

  /** The chunk that has been collected is copied out, and the next one becomes current. */
  lemma DownloadTurn(j: Job, d: State, w: Window, w': Window, buffers: seq<HostBuffer>, chunk: nat, out: seq<Byte>,
                     index: nat, len: nat, pending: nat)
    requires Distinct(buffers) && j.mine == Ids(buffers)
    requires |out| < |j.data| && 0 < len == Min(chunk, |j.data| - |out|)
    requires w == Window(|out|, |out| + len, out, buffers[index % |buffers|].id)
    requires Downloading(j, d, w')
    requires w' == w.(collected := w.pushed, pushed := Min(|out| + len + chunk, |j.data|))
    requires |out| + len < |j.data| ==>
               && OnlyIn(j, d, buffers[(index + 1) % |buffers|].id, pending)
               && forall i | j.Stale() <= i < |d.inFlight| :: d.inFlight[i].addr == j.base + w.pushed + d.inFlight[i].offset
    requires |out| + len == |j.data| ==> |d.inFlight| == j.Stale() && pending == 0
    ensures w.buffer in d.buffers && len <= |d.buffers[w.buffer]|
    ensures
      var next := out + d.buffers[w.buffer][..len];
      DownloadLoop(j, d, Window(|next|, w'.pushed, next, buffers[(index + 1) % |buffers|].id), buffers, chunk, next,
                   index + 1, pending)
  {
    CopyOutKeepsDownloading(j, d, w', buffers[(index + 1) % |buffers|].id);
  }

  lemma AllCollected(j: Job, d: State, w: Window)
    requires Transferring(j, d, w) && |d.inFlight| == j.Stale()
    ensures w.collected == w.pushed
  {
  }

  class Engine {
    var hardware: State
    var staging: seq<HostBuffer>
    var pinned: set<nat>
    var leaked: set<nat>
    /** The leaked buffers that uploads were sending from. */
    ghost var sources: set<nat>
    var capacity: nat
    /** What the transport will answer to each request, and what it has answered. */
    const world: nat -> Turn<Effect, Offer>
    var log: seq<Happening>
    /** The limits the device and its queue report. */
    const elemSize: nat
    const elemCount: nat
    const message: nat
    /** Which commands `await_dma` takes from `pending`: all before it awaits the first, as the
        code has it, or each just before, as the comment on it says. */
    const drainFirst: bool

    /** A buffer that the driver may hand to a transfer, or back to the system. */
    predicate Usable(b: HostBuffer)
      reads this
    {
      && b.id in hardware.buffers && b.id !in leaked
      && b.virt + |hardware.buffers[b.id]| < 0x1_0000_0000_0000_0000
      && b.phys + |hardware.buffers[b.id]| < 0x1_0000_0000_0000_0000
    }

    /** Only leaked buffers are named by commands that the device has not finished. */
    ghost predicate Valid()
      reads this
    {
      && Intact()
      && Contained(hardware.inFlight, leaked, sources) && sources <= leaked
    }

    predicate Intact()
      reads this
    {
      && Wf(hardware)
      && |hardware.memory| < 0x1_0000_0000_0000_0000
      && elemSize < 0x1_0000_0000
      && capacity >= 2
      && leaked <= hardware.buffers.Keys && pinned <= hardware.buffers.Keys && pinned !! leaked
      && Pool(staging)
    }

    /** The buffers kept between transfers: a second one only if both hold half the capacity. */
    predicate Pool(buffers: seq<HostBuffer>)
      reads this
    {
      && |buffers| <= 2
      && (forall i | 0 <= i < |buffers| :: 
            Usable(buffers[i]) && buffers[i].id !in pinned && 0 < |hardware.buffers[buffers[i].id]|)
      && (|buffers| == 2 ==>
            && buffers[0].id != buffers[1].id
            && |hardware.buffers[buffers[0].id]| >= capacity / 2
            && |hardware.buffers[buffers[1].id]| >= capacity / 2)
    }

    predicate Holds(b: HostBuffer, n: nat)
      reads this
    {
      b.id in hardware.buffers && n <= |hardware.buffers[b.id]|
    }

    function Length(b: HostBuffer): nat
      requires b.id in hardware.buffers
      reads this
    {
      |hardware.buffers[b.id]|
    }

    constructor (memory: seq<Byte>, dram: Dram, message: nat, drainFirst: bool, world: nat -> Turn<Effect, Offer>)
      requires |memory| < 0x1_0000_0000_0000_0000 && dram.Sensible()
      ensures Valid() && hardware == State(memory, map[], []) && staging == [] && leaked == {} && this.drainFirst == drainFirst
      ensures this.world == world && log == []
    {
      hardware := State(memory, map[], []);
      staging, pinned, leaked := [], {}, {};
      sources := {};
      capacity := AlignStagingCapacity(DEFAULT_STAGING_CAPACITY, dram.alignment);
      elemSize, elemCount, this.message, this.drainFirst := dram.elemSize, dram.elemCount, message, drainFirst;
      this.world, log := world, [];
    }

    /** `set_staging_capacity`. */
    method SetStagingCapacity(bytes: nat, dram: Dram)
      requires Valid() && dram.Sensible()
      modifies this`capacity, this`staging
      ensures Valid() && staging == [] && capacity == AlignStagingCapacity(bytes, dram.alignment)
    {
      capacity := AlignStagingCapacity(bytes, dram.alignment);
      staging := [];
    }

    /** `dma_host_buffer`: the transport maps a new buffer of at least `size` bytes, if it has
        one to offer. */
    method MapBuffer(size: nat) returns (r: Option<HostBuffer>)
      requires Wf(hardware)
      modifies this`hardware, this`log
      ensures Wf(hardware) && Mapped(old(hardware), hardware)
      ensures
        var offer := world(|old(log)|).offer;
        && log == old(log) + [Offered(r.Some?)]
        && (r.Some? <==> offer.Some? && offer.value.Suits(old(hardware), size))
        && (r.Some? ==>
              && r.value == offer.value.host
              && hardware == old(hardware).(buffers := old(hardware).buffers[r.value.id := offer.value.contents]))
        && (r.None? ==> hardware == old(hardware))
    {
      var offer := world(|log|).offer;
      if offer.None? || !offer.value.Suits(hardware, size) {
        log := log + [Offered(false)];
        return None;
      }
      log := log + [Offered(true)];
      hardware := hardware.(buffers := hardware.buffers[offer.value.host.id := offer.value.contents]);
      r := Some(offer.value.host);
    }

    /** Puts a buffer of at least `required` bytes at position `index`, in place of one that
        is too small. */
    method Refill(buffers: seq<HostBuffer>, index: nat, required: nat, ghost start: seq<Happening>)
        returns (ok: bool, r: seq<HostBuffer>)
      requires Valid() && staging == [] && Pool(buffers) && index <= |buffers| <= 1
      requires 0 < required <= capacity / 2 && (index == 1 ==> required == capacity / 2 <= Length(buffers[0]))
      requires (index < |buffers| ==> Length(buffers[index]) < required) && Told(world, start, log, Done)
      modifies this`hardware, this`log
      ensures Valid() && Pool(r)
      ensures Mapped(old(hardware), hardware)
      ensures ok ==> |r| == index + 1 && r[..index] == buffers[..index] && Length(r[index]) >= required
      ensures Told(world, start, log, if ok then Done else Failed(Io))
    {
      r := buffers[..index];
      var size := NextPowerOfTwo(required);
      var replacement := MapBuffer(if size < capacity / 2 then size else capacity / 2);
      ok := replacement.Some?;
      OneTold(world, old(log), Offered(ok));
      ToldOn(world, start, old(log), log, if ok then Done else Failed(Io));
      if ok {
        r := r + [replacement.value];
      }
    }

    /** `take_staging`: one buffer that holds the whole transfer, or two that can take
        turns. Fails only if the transport cannot map a buffer. */
    method TakeStaging(total: nat) returns (ok: bool, buffers: seq<HostBuffer>)
      requires Valid() && 0 < total
      modifies this`hardware, this`log, this`staging
      ensures Valid() && Mapped(old(hardware), hardware)
      ensures ok ==> staging == [] && Pool(buffers) && |buffers| >= 1
      ensures ok && |buffers| == 1 ==> Holds(buffers[0], total)
      ensures |old(staging)| == 2 || (|old(staging)| == 1 && total <= capacity / 2 && total <= old(Length(staging[0]))) ==>
                ok && buffers == old(staging) && hardware == old(hardware)
      ensures Told(world, old(log), log, if ok then Done else Failed(Io))
    {
      var half := capacity / 2;
      var required := if total < half then total else half;
      var needed := if total > half then 2 else 1;
      buffers, staging := staging, [];
      ok := true;
      NothingTold(world, log);
      hide Told, Contained, Wf;
      for index := 0 to needed
        invariant Valid() && staging == [] && Pool(buffers) && ok
        invariant Mapped(old(hardware), hardware) && Told(world, old(log), log, Done)
        invariant index <= |buffers|
        invariant (0 < index ==> Length(buffers[0]) >= required) && (1 < index ==> Length(buffers[1]) >= required)
        invariant |old(staging)| == 2 || (|old(staging)| == 1 && needed == 1 && total <= old(Length(staging[0]))) ==>
                    buffers == old(staging) && hardware == old(hardware)
      {
        if index == |buffers| || Length(buffers[index]) < required {
          ok, buffers := Refill(buffers, index, required, old(log));
          if !ok {
            staging := buffers;
            return;
          }
        }
      }
    }

    /** `staging_chunk`. */
    method Chunk(buffers: seq<HostBuffer>) returns (chunk: nat)
      requires 1 <= |buffers| && forall i | 0 <= i < |buffers| :: Usable(buffers[i]) && 0 < Length(buffers[i])
      ensures forall i | 0 <= i < |buffers| :: buffers[i].id in hardware.buffers
      ensures chunk >= 1
      ensures forall i | 0 <= i < |buffers| :: chunk <= Length(buffers[i])
      ensures exists i | 0 <= i < |buffers| :: chunk == Length(buffers[i])
    {
      chunk := Length(buffers[0]);
      for n := 1 to |buffers|
        invariant chunk >= 1
        invariant forall i | 0 <= i < n :: chunk <= Length(buffers[i])
        invariant exists i | 0 <= i < n :: chunk == Length(buffers[i])
      {
        if Length(buffers[n]) < chunk {
          chunk := Length(buffers[n]);
        }
      }
    }

    // --- Commands -----------------------------------------------------------

    /** Time passes, and the device does this. */
    method Progress(ghost j: Job, ghost w: Window, effects: seq<Effect>)
      requires Transferring(j, hardware, w)
      modifies this`hardware
      ensures Wf(old(hardware)) && hardware == Run(old(hardware), effects)
      ensures Transferring(j, hardware, w)
      ensures |hardware.inFlight| == |old(hardware).inFlight| && Kept(old(hardware), hardware)
      ensures SameBuffers(j, old(hardware), hardware)
    {
      RunKeepsWf(hardware, effects);
      RunKeepsTransferring(j, hardware, effects, w);
      hardware := Run(hardware, effects);
    }

    /** Reserves a tag and pushes the command `t`, unless that is refused for good; it was
        never queued then. */
    method PushCommand(ghost j: Job, ghost w: Window, t: Transfer) returns (r: Outcome)
      requires Transferring(j, hardware, w) && Continues(j, hardware, w, t)
      modifies this`hardware, this`log
      ensures Kept(old(hardware), hardware) && SameBuffers(j, old(hardware), hardware)
      ensures log == old(log) + [Pushed(world(|old(log)|).refusal)] && r == AsOutcome(world(|old(log)|).refusal)
      ensures r.Failed? ==> Transferring(j, hardware, w) && |hardware.inFlight| == |old(hardware).inFlight|
      ensures r.Done? ==>
                && Transferring(j, hardware, w.(pushed := w.pushed + t.len))
                && |hardware.inFlight| == |old(hardware).inFlight| + 1
                && hardware.inFlight[|old(hardware).inFlight|] == t
    {
      var turn := world(|log|);
      log := log + [Pushed(turn.refusal)];
      Progress(j, w, turn.effects);
      r := AsOutcome(turn.refusal);
      if r.Failed? {
        return;
      }
      PushKeepsTransferring(j, hardware, t, w);
      hardware := Push(hardware, t);
    }

    function MaxElem(): (n: nat)
      ensures n >= 1 && (elemSize < 0x1_0000_0000 ==> n < 0x1_0000_0000) && (elemSize >= 1 ==> n == elemSize)
    {
      Max(elemSize, 1)
    }

    /** The most bytes that one command moves. */
    function PerCommand(): nat {
      DmaList.MaxListNodes(elemCount, message) * MaxElem()
    }

    /** The bytes of a command with the given nodes, never too many for its size field. */
    method Message(nodes: seq<DmaList.Node>, toDevice: bool, tag: DmaList.U16) returns (bytes: seq<Byte>)
      requires |nodes| <= DmaList.MaxListNodes(elemCount, message)
      ensures
        var id := if toDevice then DmaList.WRITELIST else DmaList.READLIST;
        DmaList.DecodeCommand(bytes) == Some(DmaList.Command(tag, id, DmaList.BARRIER, nodes))
    {
      var id := if toDevice then DmaList.WRITELIST else DmaList.READLIST;
      var c := DmaList.Command(tag, id, DmaList.BARRIER, nodes);
      DmaList.CommandRoundTrips(c, elemCount, message);
      bytes := DmaList.EncodeCommand(c).value;
    }

    /** Pushes the one command that moves bytes `start` to `end` of the buffer. */
    method PushRange(ghost j: Job, ghost w: Window, ghost was: State, host: HostBuffer, ghost len: nat,
                     start: nat, end: nat, pushed: nat, dst: nat,
                     queue: nat, toDevice: bool, ghost asked: seq<Happening>) returns (r: Outcome)
      requires Ready(j, w, was, host.id, len) && Sending(j, w, was, hardware, host.id, start, pushed)
      requires start < end <= len && dst == j.base + w.pushed && queue == j.queue && toDevice == j.toDevice
      requires Told(world, asked, log, Done)
      modifies this`hardware, this`log
      ensures r.Done? ==> Sending(j, w, was, hardware, host.id, end, pushed + 1)
      ensures r.Failed? ==> Sending(j, w, was, hardware, host.id, start, pushed)
      ensures Told(world, asked, log, r)
    {
      hide Transferring, Told;
      var t := Transfer(queue, toDevice, host.id, start, dst + start, end - start, {}, false, false);
      SendingContinues(j, w, was, hardware, host.id, len, start, pushed, t);
      ghost var before := hardware;
      r := PushCommand(j, w.(pushed := w.pushed + start), t);
      OneTold(world, old(log), Pushed(world(|old(log)|).refusal));
      ToldOn(world, asked, old(log), log, r);
      if r.Done? {
        SendingPush(j, w, was, before, hardware, host.id, start, pushed, t);
      } else {
        SendingProgress(j, w, was, before, hardware, host.id, start, pushed);
      }
    }

    /** Builds the command with the given nodes, and pushes it. */
    method PushNodes(ghost j: Job, ghost w: Window, ghost was: State, host: HostBuffer, len: nat, dst: DmaList.U64,
                     queue: nat, toDevice: bool, ghost sent: seq<DmaList.Node>, start: nat, nodes: seq<DmaList.Node>,
                     offset: nat, pushed: nat, ghost asked: seq<Happening>) returns (r: Outcome)
      requires Ready(j, w, was, host.id, len) && Sending(j, w, was, hardware, host.id, start, pushed)
      requires start < offset && dst == j.base + w.pushed && queue == j.queue && toDevice == j.toDevice
      requires Packed(host, len, dst, sent, pushed, start, nodes, offset) && Told(world, asked, log, Done)
      requires offset == len || |nodes| == DmaList.MaxListNodes(elemCount, message)
      modifies this`hardware, this`log
      ensures Told(world, asked, log, r)
      ensures r.Failed? ==> Sending(j, w, was, hardware, host.id, start, pushed)
      ensures r.Done? ==>
                && Sending(j, w, was, hardware, host.id, offset, pushed + 1)
                && Packed(host, len, dst, sent + nodes, pushed + 1, offset, [], offset)
    {
      hide Ready, Sending, Told, DmaList.MaxListNodes, DmaList.Tiles, DmaList.Splitting, MaxElem;
      DmaList.PackCommand(Place(host, dst), len, MaxElem(), DmaList.MaxListNodes(elemCount, message), sent, pushed,
                          start, nodes, offset);
      var tag: DmaList.U16 := *;
      var bytes := Message(nodes, toDevice, tag);
      r := PushRange(j, w, was, host, len, start, offset, pushed, dst, queue, toDevice, asked);
    }

    lemma OneIsEnough(host: HostBuffer, dst: DmaList.U64, len: nat, sent: seq<DmaList.Node>, pushed: nat)
      requires DmaList.Covered(Place(host, dst), len, MaxElem(), DmaList.MaxListNodes(elemCount, message), sent, pushed)
      ensures pushed <= 1 <==> len <= PerCommand()
    {
      DmaList.OneIsEnoughIff(pushed, len, PerCommand());
    }

    /** Half way through a transfer (see `DmaList.Packing`). */
    predicate Packed(host: HostBuffer, len: nat, dst: DmaList.U64, sent: seq<DmaList.Node>, pushed: nat, start: nat,
                     nodes: seq<DmaList.Node>, offset: nat)
    {
      DmaList.Packing(Place(host, dst), len, MaxElem(), DmaList.MaxListNodes(elemCount, message), sent, pushed, start,
                      nodes, offset)
    }

    /** `push_dma_read_staged` and `push_dma_write_staged`: moves the first `len` bytes of
        `host` to or from device address `dst`, in as many commands as the limits require.
        `pushed` counts those pushed and `sent` lists their nodes. */
    method PushStaged(ghost j: Job, ghost w: Window, host: HostBuffer, len: nat, dst: DmaList.U64, queue: nat,
                      toDevice: bool)
        returns (r: Outcome, pushed: nat, ghost sent: seq<DmaList.Node>)
      requires Ready(j, w, hardware, host.id, len) && Usable(host)
      requires elemSize < 0x1_0000_0000 && |hardware.memory| < 0x1_0000_0000_0000_0000
      requires dst == j.base + w.pushed && queue == j.queue && toDevice == j.toDevice
      modifies this`hardware, this`log
      ensures r.Done? ==>
                && Sending(j, w, old(hardware), hardware, host.id, len, pushed)
                && DmaList.Covered(Place(host, dst), len, MaxElem(), DmaList.MaxListNodes(elemCount, message), sent, pushed)
      ensures r.Failed? ==> exists n :: Sending(j, w, old(hardware), hardware, host.id, n, pushed)
      ensures Told(world, old(log), log, r)
    {
      hide Transferring, Sending, Ready, DmaList.Packing, DmaList.Covered, Told, DmaList.MaxListNodes, MaxElem, Wf;
      NothingTold(world, log);
      SendingBegins(j, w, hardware, host.id, len);
      assert host.virt + len < 0x1_0000_0000_0000_0000 && host.phys + len < 0x1_0000_0000_0000_0000;
      assert dst + len < 0x1_0000_0000_0000_0000;
      hide Engine.Usable;
      var most, elem := DmaList.MaxListNodes(elemCount, message), MaxElem();
      ghost var at := Place(host, dst);
      DmaList.PackingBegins(at, len, elem, most);
      var offset: nat, start: nat, nodes := 0, 0, [];
      pushed, sent := 0, [];
      while offset < len
        invariant start <= offset <= len && (offset == len ==> start == len) && |nodes| < most
        invariant Packed(host, len, dst, sent, pushed, start, nodes, offset)
        invariant Sending(j, w, old(hardware), hardware, host.id, start, pushed)
        invariant Told(world, old(log), log, Done)
      {
        var size := Min(len - offset, elem);
        var node := DmaList.Node(host.virt + offset, DmaList.NodePhys(host.phys, offset), dst + offset, size);
        DmaList.PackNode(at, len, elem, most, sent, pushed, start, nodes, offset, node);
        nodes, offset := nodes + [node], offset + size;
        if |nodes| == most || offset >= len {
          r := PushNodes(j, w, old(hardware), host, len, dst, queue, toDevice, sent, start, nodes, offset, pushed,
                         old(log));
          if r.Failed? {
            return;
          }
          pushed, sent := pushed + 1, sent + nodes;
          start, nodes := offset, [];
        }
      }
      r := Done;
      DmaList.PackingEnds(at, len, elem, most, sent, pushed, nodes, offset);
    }

    /** Collects the oldest command of the job; `left` are behind it. It succeeds exactly if the
        device has completed the command with success by the deadline and its response
        arrives whole; the error is its status only if all but that is so. */
    method Collect(ghost j: Job, ghost w: Window, left: nat) returns (r: Outcome, ghost len: nat)
      requires Transferring(j, hardware, w) && |hardware.inFlight| == j.Stale() + left + 1
      requires !j.toDevice ==> hardware.inFlight[j.Stale()].buffer == w.buffer
      modifies this`hardware, this`log
      ensures |log| == |old(log)| + 1 && Told(world, old(log), log, r)
      ensures EndsAs(j, old(hardware), world(|old(log)|), log[|old(log)|], r)
      ensures JobSafe(j, hardware, left, r)
      ensures r.Failed? ==> MayBeInFlight(r.error) || (r.error == DeviceStatus && |hardware.inFlight| == j.Stale() + left)
      ensures SameBuffers(j, old(hardware), hardware)
      ensures r.Done? ==>
                && Transferring(j, hardware, w.(collected := w.collected + len))
                && Shifted(j.Stale(), old(hardware), hardware, 1) && |hardware.inFlight| == j.Stale() + left
    {
      hide Transferring, Run, EndsAs;
      var turn := world(|log|);
      Progress(j, w, turn.effects);
      var at := |hardware.inFlight| - left - 1;
      var t := hardware.inFlight[at];
      len := t.len;
      log := log + [Polled(t.done, t.ok, turn.reply)];
      OneTold(world, old(log), Polled(t.done, t.ok, turn.reply));
      EndsAsIs(j, old(hardware), turn, t);
      hide Told;
      if turn.reply.Broken? {
        r := Failed(if turn.reply.io then Io else Protocol);
        OkIsSafeInFlight(j, hardware, w, left, r.error);
        return;
      }
      if !t.done {
        OkIsSafeInFlight(j, hardware, w, left, Timeout);
        return Failed(Timeout), len;
      }
      PopIsSafe(j, hardware, w, left);
      ghost var before := hardware;
      hardware := Pop(hardware, at);
      if turn.reply.Truncated? {
        return Failed(Protocol), len;
      }
      if !t.ok {
        return Failed(DeviceStatus), len;
      }
      PopKeepsTransferring(j, before, w);
      ShiftedByPop(j.Stale(), old(hardware), before);
      r := Done;
    }

    /** `await_dma`: collects the `count` oldest commands of the job in turn; `left` are in
        `pending` when it ends. Draining first, a bad status can leave commands in flight that
        are in no list, if they are the last and more than one (see DrainFirst). */
    method AwaitDma(ghost j: Job, ghost w: Window, pending: nat, count: nat)
        returns (r: Outcome, left: nat, ghost w': Window)
      requires Transferring(j, hardware, w) && |hardware.inFlight| == j.Stale() + pending && count <= pending
      requires !j.toDevice ==> forall i | j.Stale() <= i < j.Stale() + count :: hardware.inFlight[i].buffer == w.buffer
      modifies this`hardware, this`log
      ensures JobHolds(j, hardware, left, r)
      ensures !drainFirst || count < pending || count <= 1 || r != Failed(DeviceStatus) ==> JobSafe(j, hardware, left, r)
      ensures SameBuffers(j, old(hardware), hardware)
      ensures r.Failed? && drainFirst ==> left == pending - count
      ensures r.Done? ==>
                && Transferring(j, hardware, w') && w' == w.(collected := w'.collected)
                && left == pending - count && Shifted(j.Stale(), old(hardware), hardware, count)
      ensures Told(world, old(log), log, r)
    {
      NothingTold(world, log);
      var behind;
      behind, w', r := pending, w, Done;
      left := if drainFirst then pending - count else pending;
      OkIsSafe(j, hardware, w, pending);
      NotShifted(j.Stale(), hardware);
      SameBuffersOn(j, hardware, hardware, hardware);
      hide Transferring, Surrounded, Shifted, Told, EndsAs, SameBuffers;
      for n := 0 to count
        invariant Transferring(j, hardware, w') && w' == w.(collected := w'.collected)
        invariant behind == pending - n && |hardware.inFlight| == j.Stale() + behind
        invariant left == if drainFirst then pending - count else behind
        invariant Shifted(j.Stale(), old(hardware), hardware, n)
        invariant SameBuffers(j, old(hardware), hardware) && r == Done && Surrounded(j, hardware)
        invariant Told(world, old(log), log, Done)
      {
        behind := behind - 1;
        if !drainFirst {
          left := behind;
        }
        ghost var before, had, len := hardware, log, 0;
        ShiftedHead(j.Stale(), old(hardware), before, n);
        r, len := Collect(j, w', behind);
        SameBuffersOn(j, old(hardware), before, hardware);
        ToldOn(world, old(log), had, log, r);
        if r.Failed? {
          return;
        }
        w' := w'.(collected := w'.collected + len);
        ShiftedOn(j.Stale(), old(hardware), before, hardware, n);
      }
    }

    /** The turn that both pipelines take: push the next chunk, then collect the commands of
        the one before. */
    method Exchange(ghost j: Job, ghost w: Window, host: HostBuffer, len: nat, dst: DmaList.U64, queue: nat, toDevice: bool,
                    pending: nat) returns (r: Outcome, left: nat, ghost w': Window)
      requires Ready(j, w, hardware, host.id, len) && Usable(host) && |hardware.inFlight| == j.Stale() + pending
      requires elemSize < 0x1_0000_0000 && |hardware.memory| < 0x1_0000_0000_0000_0000
      requires dst == j.base + w.pushed && queue == j.queue && toDevice == j.toDevice
      requires !toDevice ==> OnlyIn(j, hardware, w.buffer, pending)
      modifies this`hardware, this`log
      ensures JobSafe(j, hardware, left, r)
      ensures SameBuffers(j, old(hardware), hardware)
      ensures r.Done? ==>
                && Transferring(j, hardware, w') && w' == w.(pushed := w.pushed + len, collected := w.pushed)
                && OnlyIn(j, hardware, host.id, left) && (len <= PerCommand() ==> left <= 1)
                && forall i | j.Stale() <= i < |hardware.inFlight| ::
                     hardware.inFlight[i].addr == j.base + w.pushed + hardware.inFlight[i].offset
      ensures Told(world, old(log), log, r)
    {
      hide Transferring, Surrounded, Ready, PerCommand, Told;
      ghost var was, sent := hardware, [];
      SendingBegins(j, w, was, host.id, len);
      var pushed;
      r, pushed, sent := PushStaged(j, w, host, len, dst, queue, toDevice);
      left, w' := pending + pushed, w;
      if r.Failed? {
        ghost var n: nat :| Sending(j, w, was, hardware, host.id, n, pushed);
        OkIsSafe(j, hardware, w.(pushed := w.pushed + n), left);
        return;
      }
      w' := w.(pushed := w.pushed + len);
      ghost var mid, asked := hardware, log;
      r, left, w' := AwaitDma(j, w', left, pending);
      ToldOn(world, old(log), asked, log, r);
      if r.Done? {
        ChunkInFlight(j, w, was, mid, hardware, w', host.id, len, pending, pushed);
        OneIsEnough(host, dst, len, sent, pushed);
      }
    }

    // --- Pipelines ------------------------------------------------------------

    /** Everything that a transfer of `total` bytes leaves in flight is accounted for: in the
        order of draining that is documented always, and in that of the code unless a command
        has reported a bad status and the transfer takes several. */
    predicate Orderly(r: Outcome, total: nat) {
      !drainFirst || r != Failed(DeviceStatus) || total <= PerCommand()
    }

    /** `produce`: the host writes the chunk at `offset` of the data into `host`. A fill
        writes its pattern for the first two chunks only. */
    method Produce(ghost j: Job, ghost w: Window, source: Source, host: HostBuffer, len: nat, offset: nat, index: nat)
      requires Uploading(j, hardware, w) && host.id in j.mine && host.id in hardware.buffers
      requires j.data == source.Data() && offset == w.pushed && 0 < len <= Length(host) && offset + len <= |j.data|
      requires forall i | j.Stale() <= i < |hardware.inFlight| :: hardware.inFlight[i].buffer != host.id
      requires source.Pattern? && index >= 2 ==>
                 forall x | 0 <= x < len :: hardware.buffers[host.id][x] == source.value
      modifies this`hardware
      ensures Ready(j, w, hardware, host.id, len)
      ensures hardware.inFlight == old(hardware).inFlight && hardware.memory == old(hardware).memory
      ensures hardware.buffers.Keys == old(hardware).buffers.Keys
      ensures |hardware.buffers[host.id]| == |old(hardware).buffers[host.id]|
      ensures forall b | b in hardware.buffers && b != host.id :: hardware.buffers[b] == old(hardware).buffers[b]
      ensures source.Pattern? ==> forall x | 0 <= x < len :: hardware.buffers[host.id][x] == source.value
    {
      hide Safe, Arrived, Untouched, Idle, StaleOk, Contained;
      if source.Copied? || index < 2 {
        var written := if source.Copied? then source.bytes[offset..offset + len] else seq(len, _ => source.value);
        var contents := Splice(hardware.buffers[host.id], 0, written);
        StageKeepsUploading(j, hardware, host.id, contents, w);
        hardware := hardware.(buffers := hardware.buffers[host.id := contents]);
      }
    }

    /** One turn of the upload: stage a chunk, push it, and collect the one before. */
    method UploadChunk(ghost j: Job, ghost w: Window, source: Source, host: HostBuffer, len: nat, dst: nat, queue: nat,
                       offset: nat, index: nat, ghost previous: nat, pending: nat)
        returns (r: Outcome, left: nat, ghost w': Window)
      requires Uploading(j, hardware, w) && host.id in j.mine && Usable(host)
      requires j.data == source.Data() && offset == w.pushed && 0 < len <= Length(host) && offset + len <= |j.data|
      requires dst == j.base + offset && queue == j.queue && w == Window(w.collected, offset, [], 0)
      requires OnlyIn(j, hardware, previous, pending) && (pending > 0 ==> previous != host.id)
      requires source.Pattern? && index >= 2 ==>
                 forall x | 0 <= x < len :: hardware.buffers[host.id][x] == source.value
      requires elemSize < 0x1_0000_0000 && |hardware.memory| < 0x1_0000_0000_0000_0000
      modifies this`hardware, this`log
      ensures JobSafe(j, hardware, left, r)
      ensures SameSizes(old(hardware), hardware)
      ensures forall b | b in j.mine && b in hardware.buffers && b != host.id ::
                hardware.buffers[b] == old(hardware).buffers[b]
      ensures source.Pattern? ==> forall x | 0 <= x < len :: hardware.buffers[host.id][x] == source.value
      ensures r.Done? ==>
                && Uploading(j, hardware, w') && w' == Window(offset, offset + len, [], 0)
                && OnlyIn(j, hardware, host.id, left) && (len <= PerCommand() ==> left <= 1)
      ensures Told(world, old(log), log, r)
    {
      assert j.toDevice;
      hide Uploading, Surrounded, Ready, PerCommand, Told;
      Produce(j, w, source, host, len, offset, index);
      r, left, w' := Exchange(j, w, host, len, dst, queue, true, pending);
    }

    /** `h2d_pipeline`: a loop of turns, after which the commands of the last chunk are
        collected. */
    method H2dPipeline(ghost j: Job, buffers: seq<HostBuffer>, source: Source, total: nat, dst: nat, queue: nat)
        returns (r: Outcome, pending: nat)
      requires Distinct(buffers) && (forall i | 0 <= i < |buffers| :: Usable(buffers[i]) && 0 < Length(buffers[i]))
      requires |buffers| == 1 ==> Usable(buffers[0]) && Length(buffers[0]) >= total
      requires j == Job(true, queue, dst, source.Data(), Ids(buffers), leaked, sources, hardware) && 0 < total == |source.Data()|
      requires Transferring(j, hardware, Window(0, 0, [], 0))
      requires elemSize < 0x1_0000_0000 && |hardware.memory| < 0x1_0000_0000_0000_0000
      modifies this`hardware, this`log
      ensures JobHolds(j, hardware, pending, r) && (Orderly(r, total) ==> JobSafe(j, hardware, pending, r))
      ensures SameSizes(old(hardware), hardware)
      ensures r.Done? ==> |hardware.inFlight| == j.Stale() && Uploading(j, hardware, Window(total, total, [], 0))
      ensures Told(world, old(log), log, r)
    {
      var chunk := Chunk(buffers);
      NothingPainted(hardware, source, buffers, chunk);
      assert UploadLoop(j, hardware, Window(0, 0, [], 0), source, buffers, chunk, 0, 0, 0, 0);
      hide Uploading, Surrounded, Painted, Ids, UploadLoop, PerCommand, Told;
      ghost var w;
      r, pending, w := UploadAll(j, buffers, source, chunk, total, dst, queue);
      if r.Done? {
        ghost var asked := log;
        r, pending, w := AwaitDma(j, w, pending, pending);
        ToldOn(world, old(log), asked, log, r);
      }
    }

    method UploadAll(ghost j: Job, buffers: seq<HostBuffer>, source: Source, chunk: nat, total: nat, dst: nat, queue: nat)
        returns (r: Outcome, pending: nat, ghost w: Window)
      requires forall i | 0 <= i < |buffers| :: Usable(buffers[i]) && chunk <= Length(buffers[i])
      requires 1 <= |buffers| && 0 < chunk && 0 < total == |j.data| && (|buffers| == 1 ==> total <= chunk)
      requires j.data == source.Data()
      requires dst == j.base && queue == j.queue
      requires UploadLoop(j, hardware, Window(0, 0, [], 0), source, buffers, chunk, 0, 0, 0, 0)
      requires elemSize < 0x1_0000_0000 && |hardware.memory| < 0x1_0000_0000_0000_0000
      modifies this`hardware, this`log
      ensures SameSizes(old(hardware), hardware)
      ensures r.Failed? ==> JobSafe(j, hardware, pending, r)
      ensures r.Done? ==>
                && Uploading(j, hardware, w) && w == Window(w.collected, total, [], 0)
                && |hardware.inFlight| == j.Stale() + pending && (total <= PerCommand() ==> pending <= 1)
      ensures Told(world, old(log), log, r)
    {
      NothingTold(world, log);
      hide Uploading, Surrounded, Painted, Ids, UploadLoop, PerCommand, Told;
      var offset, index := 0, 0;
      r, pending := Done, 0;
      w := Window(0, 0, [], 0);
      ghost var previous := 0;
      while offset < total
        invariant UploadLoop(j, hardware, w, source, buffers, chunk, offset, index, previous, pending)
        invariant SameSizes(old(hardware), hardware) && offset <= total && r.Done?
        invariant (total <= PerCommand() ==> pending <= 1) && Told(world, old(log), log, Done)
      {
        var len, slot := Min(chunk, total - offset), index % |buffers|;
        UploadReady(j, hardware, w, source, buffers, chunk, offset, index, previous, pending);
        ghost var before, had, last, asked := hardware, pending, w, log;
        r, pending, w := UploadChunk(j, w, source, buffers[slot], len, dst + offset, queue, offset, index, previous,
                                     pending);
        ToldOn(world, old(log), asked, log, r);
        if r.Failed? {
          return;
        }
        UploadTurn(j, before, hardware, last, w, source, buffers, chunk, offset, index, previous, had, pending, len);
        previous, offset, index := buffers[slot].id, offset + len, index + 1;
      }
      UploadReady(j, hardware, w, source, buffers, chunk, offset, index, previous, pending);
    }

    /** The first commands of a transfer are pushed. */
    method FirstChunk(ghost j: Job, ghost w: Window, host: HostBuffer, len: nat, at: nat, queue: nat, toDevice: bool)
        returns (r: Outcome, pending: nat, ghost w': Window)
      requires Ready(j, w, hardware, host.id, len) && w.pushed == 0 && |hardware.inFlight| == j.Stale()
      requires Usable(host) && at + len <= |hardware.memory| < 0x1_0000_0000_0000_0000 && elemSize < 0x1_0000_0000
      requires at == j.base && queue == j.queue && toDevice == j.toDevice
      modifies this`hardware, this`log
      ensures JobSafe(j, hardware, pending, r) && SameBuffers(j, old(hardware), hardware)
      ensures |hardware.inFlight| == j.Stale() + pending
      ensures r.Done? ==>
                && w' == w.(pushed := len) && Transferring(j, hardware, w')
                && OnlyIn(j, hardware, host.id, pending) && (len <= PerCommand() ==> pending <= 1)
      ensures Told(world, old(log), log, r)
    {
      hide Transferring, Surrounded, Ready, PerCommand, Told;
      ghost var sent;
      r, pending, sent := PushStaged(j, w, host, len, at, queue, toDevice);
      ghost var n: nat := len;
      if r.Failed? {
        n :| Sending(j, w, old(hardware), hardware, host.id, n, pending);
      }
      w' := w.(pushed := n);
      OkIsSafe(j, hardware, w', pending);
      if r.Done? {
        OneIsEnough(host, at, len, sent, pending);
      }
    }

    /** `d2h_pipeline`. */
    method D2hPipeline(ghost j: Job, buffers: seq<HostBuffer>, src: nat, total: nat, queue: nat)
        returns (r: Outcome, pending: nat, out: seq<Byte>)
      requires Distinct(buffers) && (forall i | 0 <= i < |buffers| :: Usable(buffers[i]) && 0 < Length(buffers[i]))
      requires |buffers| == 1 ==> Usable(buffers[0]) && Length(buffers[0]) >= total
      requires j == Job(false, queue, src, j.data, Ids(buffers), leaked, sources, hardware) && 0 < total == |j.data|
      requires Transferring(j, hardware, Window(0, 0, [], buffers[0].id))
      requires elemSize < 0x1_0000_0000 && |hardware.memory| < 0x1_0000_0000_0000_0000
      modifies this`hardware, this`log
      ensures JobHolds(j, hardware, pending, r) && (Orderly(r, total) ==> JobSafe(j, hardware, pending, r))
      ensures SameSizes(old(hardware), hardware)
      ensures r.Done? ==>
                && |hardware.inFlight| == j.Stale() && |out| == total
                && exists b :: Downloading(j, hardware, Window(total, total, out, b))
      ensures Told(world, old(log), log, r)
    {
      hide Told, Surrounded, Ready, Transferring, Downloading, PerCommand;
      var chunk := Chunk(buffers);
      var index, first := 0, Min(chunk, total);
      out := [];
      ghost var w := Window(0, 0, [], buffers[0].id);
      InIds(buffers, 0);
      DownloadBegins(j, hardware, buffers[0].id, first);
      r, pending, w := FirstChunk(j, w, buffers[0], first, src, queue, false);
      if r.Failed? {
        return;
      }
      ghost var asked := log;
      TransferringIsDownloading(j, hardware, w);
      assert DownloadLoop(j, hardware, w, buffers, chunk, out, 0, pending);
      hide DownloadLoop;
      r, pending, out := DownloadAll(j, w, buffers, chunk, src, total, queue, pending);
      ToldOn(world, old(log), asked, log, r);
    }

    /** The loop over the chunks, the first of which has been requested. */
    method DownloadAll(ghost j: Job, ghost w0: Window, buffers: seq<HostBuffer>, chunk: nat, src: nat, total: nat,
                       queue: nat, requested: nat)
        returns (r: Outcome, pending: nat, out: seq<Byte>)
      requires DownloadLoop(j, hardware, w0, buffers, chunk, [], 0, requested) && 0 < total == |j.data|
      requires src == j.base && queue == j.queue && chunk > 0 && (|buffers| == 1 ==> total <= chunk)
      requires forall i | 0 <= i < |buffers| :: Usable(buffers[i]) && chunk <= Length(buffers[i])
      requires elemSize < 0x1_0000_0000 && |hardware.memory| < 0x1_0000_0000_0000_0000
      requires (total <= PerCommand() ==> requested <= 1) && JobSafe(j, hardware, requested, Done)
      modifies this`hardware, this`log
      ensures JobHolds(j, hardware, pending, r) && (Orderly(r, total) ==> JobSafe(j, hardware, pending, r))
      ensures SameSizes(old(hardware), hardware)
      ensures r.Done? ==>
                && |hardware.inFlight| == j.Stale() && |out| == total
                && exists b :: Downloading(j, hardware, Window(total, total, out, b))
      ensures Told(world, old(log), log, r)
    {
      NothingTold(world, log);
      hide Told, DownloadLoop, Surrounded, Downloading, PerCommand;
      var index := 0;
      r, pending, out := Done, requested, [];
      ghost var w := w0;
      while |out| < total
        invariant DownloadLoop(j, hardware, w, buffers, chunk, out, index, pending) && |out| <= total
        invariant SameSizes(old(hardware), hardware) && JobSafe(j, hardware, pending, r) && r.Done?
        invariant (total <= PerCommand() ==> pending <= 1) && Told(world, old(log), log, Done)
        decreases total - |out|
      {
        ghost var asked := log;
        r, pending, w, out := DownloadChunk(j, w, buffers, chunk, src, total, queue, out, index, pending);
        ToldOn(world, old(log), asked, log, r);
        if r.Failed? {
          return;
        }
        index := index + 1;
      }
      DownloadIsOver(j, hardware, w, buffers, chunk, out, index, pending);
    }

    /** One turn of the download: push the next chunk, collect the current one, copy it out. */
    method DownloadChunk(ghost j: Job, ghost w: Window, buffers: seq<HostBuffer>, chunk: nat, src: nat, total: nat,
                         queue: nat, out: seq<Byte>, index: nat, pending: nat)
        returns (r: Outcome, left: nat, ghost w': Window, out': seq<Byte>)
      requires DownloadLoop(j, hardware, w, buffers, chunk, out, index, pending) && |out| < total == |j.data|
      requires src == j.base && queue == j.queue && chunk > 0 && (|buffers| == 1 ==> total <= chunk)
      requires forall i | 0 <= i < |buffers| :: Usable(buffers[i]) && chunk <= Length(buffers[i])
      requires elemSize < 0x1_0000_0000 && |hardware.memory| < 0x1_0000_0000_0000_0000
      modifies this`hardware, this`log
      requires total <= PerCommand() ==> pending <= 1
      ensures JobHolds(j, hardware, left, r) && (Orderly(r, total) ==> JobSafe(j, hardware, left, r))
      ensures SameSizes(old(hardware), hardware)
      ensures r.Done? ==> DownloadLoop(j, hardware, w', buffers, chunk, out', index + 1, left) && |out| < |out'| <= total
      ensures r.Done? && total <= PerCommand() ==> left <= 1
      ensures Told(world, old(log), log, r)
    {
      hide Told, Surrounded, Safe, Matches, Laid, Untouched, Idle, StaleOk, Tiles, Wf, Contained, PerCommand;
      var len := Min(chunk, total - |out|);
      out' := out;
      if |out| + len < total {
        var host := buffers[(index + 1) % |buffers|];
        InIds(buffers, (index + 1) % |buffers|);
        var next := Min(chunk, total - (|out| + len));
        r, left, w' := Exchange(j, w, host, next, src + |out| + len, queue, false, pending);
      } else {
        r, left, w' := AwaitDma(j, w, pending, pending);
        if r.Done? {
          AllCollected(j, hardware, w');
        }
      }
      if r.Done? {
        DownloadTurn(j, hardware, w, w', buffers, chunk, out, index, len, left);
        out' := out + hardware.buffers[buffers[index % |buffers|].id][..len];
        w' := Window(|out'|, w'.pushed, out', buffers[(index + 1) % |buffers|].id);
      }
    }

    // --- Transfers --------------------------------------------------------------

    /** What holds after a transfer has ended, and its buffers have been kept or leaked: it
        has spared all but its range, and left nothing in flight if it succeeded. */
    twostate predicate Ended(r: Outcome, toDevice: bool, queue: nat, at: nat, total: nat)
      requires old(Wf(hardware))
      reads this
    {
      && Spares(old(hardware), hardware, toDevice, queue, at, total)
      && (r.Done? ==> |hardware.inFlight| == |old(hardware).inFlight|)
      && (r.Done? && NoUploads(old(hardware).inFlight) ==> NoUploads(hardware.inFlight))
      && (leaked != old(leaked) ==> Uncertain(r, |hardware.inFlight| - |old(hardware).inFlight|))
    }

    /** `restore_staging`: the buffers are kept for reuse unless a command may still use
        them, and then leaked. */
    method RestoreStaging(ghost j: Job, buffers: seq<HostBuffer>, pending: nat, r: Outcome)
      requires Intact() && staging == [] && Pool(buffers) && j.leaked == leaked && j.sources == sources
      requires j.mine == Ids(buffers) && JobHolds(j, hardware, pending, r) && sources <= leaked
      requires r.Done? ==> |hardware.inFlight| == j.Stale()
      modifies this`staging, this`leaked, this`sources
      ensures Intact() && (old(JobSafe(j, hardware, pending, r)) ==> Valid())
      ensures (leaked, staging) == if r.Failed? && (pending > 0 || MayBeInFlight(r.error))
                                   then (old(leaked) + Ids(buffers), []) else (old(leaked), buffers)
    {
      JobEnds(j, hardware, pending, r);
      if r.Failed? && (pending > 0 || MayBeInFlight(r.error)) {
        leaked := leaked + Ids(buffers);
        sources := sources + if j.toDevice then Ids(buffers) else {};
      } else {
        staging := buffers;
      }
    }

    /** `h2d_staged`, for `memcpy_h2d` and `fill`: whatever the device's timing, on success
        the range holds the data and keeps it, provided that no leftover command could spoil
        it; and in any case nothing else is disturbed. */
    method H2dStaged(source: Source, total: nat, dst: nat, queue: nat) returns (r: Outcome)
      requires Valid() && total == |source.Data()| && dst + total <= |hardware.memory|
      modifies this`hardware, this`log, this`staging, this`leaked, this`sources
      ensures Intact() && (Orderly(r, total) ==> Valid()) && Ended(r, true, queue, dst, total)
      ensures forall b | b in pinned :: hardware.buffers[b] == old(hardware).buffers[b]
      ensures r.Done? && old(Clear(hardware, true, queue, dst, source.Data())) ==>
                Stable(hardware, dst, source.Data())
      ensures Told(world, old(log), log, r)
    {
      NothingTold(world, log);
      hide Contained, Pool, NoUploads, Clear, Stable, Told;
      ghost var was := hardware;
      if total == 0 {
        SparesItself(was, hardware, true, queue, dst, total);
        NothingIsStable(hardware, dst, source.Data());
        return Done;
      }
      var ok, buffers := TakeStaging(total);
      SparesItself(was, hardware, true, queue, dst, total);
      if !ok {
        return Failed(Io);
      }
      ghost var mapped, asked := hardware, log;
      r := UploadThrough(buffers, source, total, dst, queue);
      ToldOn(world, old(log), asked, log, r);
      MappedThenSpares(was, mapped, hardware, true, queue, dst, total);
      MappedIsClear(was, mapped, true, queue, dst, source.Data());
    }

    /** `memcpy_h2d`. */
    method MemcpyH2d(src: seq<Byte>, dst: nat, queue: nat) returns (r: Outcome)
      requires Valid() && dst + |src| <= |hardware.memory|
      modifies this`hardware, this`log, this`staging, this`leaked, this`sources
      ensures Intact() && (Orderly(r, |src|) ==> Valid()) && Ended(r, true, queue, dst, |src|)
      ensures forall b | b in pinned :: hardware.buffers[b] == old(hardware).buffers[b]
      ensures r.Done? && old(Clear(hardware, true, queue, dst, src)) ==>
                hardware.memory[dst..dst + |src|] == src && Stable(hardware, dst, src)
      ensures Told(world, old(log), log, r)
    {
      hide Spares, Contained, Told;
      r := H2dStaged(Copied(src), |src|, dst, queue);
      if Stable(hardware, dst, src) {
        StableRange(hardware, dst, src);
      }
    }

    /** `fill`: every byte of the region holds the value, although the pattern is staged for
        two chunks only. */
    method Fill(addr: nat, size: nat, value: Byte) returns (r: Outcome)
      requires Valid() && addr + size <= |hardware.memory|
      modifies this`hardware, this`log, this`staging, this`leaked, this`sources
      ensures Intact() && (Orderly(r, size) ==> Valid()) && Ended(r, true, 0, addr, size)
      ensures forall b | b in pinned :: hardware.buffers[b] == old(hardware).buffers[b]
      ensures r.Done? && old(Clear(hardware, true, 0, addr, seq(size, _ => value))) ==>
                && (forall a | addr <= a < addr + size :: hardware.memory[a] == value)
                && Stable(hardware, addr, seq(size, _ => value))
      ensures Told(world, old(log), log, r)
    {
      hide Spares, Contained, Told;
      r := H2dStaged(Pattern(size, value), size, addr, 0);
      ghost var data: seq<Byte> := seq(size, _ => value);
      assert Pattern(size, value).Data() == data;
    }

    method UploadThrough(buffers: seq<HostBuffer>, source: Source, total: nat, dst: nat, queue: nat) returns (r: Outcome)
      requires Valid() && 0 < total == |source.Data()| && dst + total <= |hardware.memory|
      requires staging == [] && Pool(buffers) && |buffers| >= 1 && (|buffers| == 1 ==> Holds(buffers[0], total))
      modifies this`hardware, this`log, this`staging, this`leaked, this`sources
      ensures Intact() && (Orderly(r, total) ==> Valid()) && Ended(r, true, queue, dst, total)
      ensures forall b | b in pinned :: hardware.buffers[b] == old(hardware).buffers[b]
      ensures r.Done? && old(Clear(hardware, true, queue, dst, source.Data())) ==>
                Stable(hardware, dst, source.Data())
      ensures Told(world, old(log), log, r)
    {
      ghost var j := Job(true, queue, dst, source.Data(), Ids(buffers), leaked, sources, hardware);
      TransferBegins(j, 0);
      hide Transferring, Uploading, Surrounded, JobHolds, JobSafe, Contained, Spares, Clear, Stable, Safe, NoUploads, Told;
      var pending;
      r, pending := H2dPipeline(j, buffers, source, total, dst, queue);
      JobHasEnded(j, hardware, pending, r);
      if r.Done? && Safe(j) {
        CompleteIsStable(j, hardware, Window(total, total, [], 0));
      }
      RestoreStaging(j, buffers, pending, r);
    }

    /** `memcpy_d2h`: on success the result is what the range of device memory holds,
        provided that no leftover command could change it meanwhile. */
    method MemcpyD2h(src: nat, total: nat, queue: nat) returns (r: Outcome, out: seq<Byte>)
      requires Valid() && src + total <= |hardware.memory|
      modifies this`hardware, this`log, this`staging, this`leaked, this`sources
      ensures Intact() && (Orderly(r, total) ==> Valid()) && Ended(r, false, queue, src, total)
      ensures forall b | b in pinned :: hardware.buffers[b] == old(hardware).buffers[b]
      ensures r.Done? && old(Clear(hardware, false, queue, src, hardware.memory[src..src + total])) ==>
                out == hardware.memory[src..src + total]
      ensures Told(world, old(log), log, r)
    {
      NothingTold(world, log);
      hide Contained, Pool, NoUploads, Clear, Told;
      ghost var was := hardware;
      out := [];
      if total == 0 {
        SparesItself(was, hardware, false, queue, src, total);
        return Done, out;
      }
      var ok, buffers := TakeStaging(total);
      SparesItself(was, hardware, false, queue, src, total);
      if !ok {
        return Failed(Io), out;
      }
      ghost var mapped, asked := hardware, log;
      r, out := DownloadThrough(buffers, src, total, queue);
      ToldOn(world, old(log), asked, log, r);
      MappedThenSpares(was, mapped, hardware, false, queue, src, total);
      MappedIsClear(was, mapped, false, queue, src, was.memory[src..src + total]);
    }

    method DownloadThrough(buffers: seq<HostBuffer>, src: nat, total: nat, queue: nat) returns (r: Outcome, out: seq<Byte>)
      requires Valid() && 0 < total && src + total <= |hardware.memory|
      requires staging == [] && Pool(buffers) && |buffers| >= 1 && (|buffers| == 1 ==> Holds(buffers[0], total))
      modifies this`hardware, this`log, this`staging, this`leaked, this`sources
      ensures Intact() && (Orderly(r, total) ==> Valid()) && Ended(r, false, queue, src, total)
      ensures forall b | b in pinned :: hardware.buffers[b] == old(hardware).buffers[b]
      ensures r.Done? && old(Clear(hardware, false, queue, src, hardware.memory[src..src + total])) ==>
                out == hardware.memory[src..src + total]
      ensures Told(world, old(log), log, r)
    {
      hide Told, Transferring, Downloading, Surrounded, JobHolds, JobSafe, Contained, Spares, Clear, Safe, NoUploads;
      ghost var j := Job(false, queue, src, hardware.memory[src..src + total], Ids(buffers), leaked, sources, hardware);
      TransferBegins(j, buffers[0].id);
      var pending;
      r, pending, out := D2hPipeline(j, buffers, src, total, queue);
      DownloadHasEnded(j, hardware, pending, r, out);
      RestoreStaging(j, buffers, pending, r);
    }

    /** `alloc_pinned`. */
    method AllocPinned(len: nat) returns (r: Option<PinnedBuffer>)
      requires Valid()
      modifies this`hardware, this`log, this`pinned
      ensures Told(world, old(log), log, if r.Some? then Done else Failed(Io))
      ensures Valid() && Mapped(old(hardware), hardware)
      ensures r.Some? ==>
                && fresh(r.value) && r.value.Live() && r.value.owner == this && r.value.len == len
                && r.value.host.Some? && r.value.host.value.id !in old(hardware).buffers
                && pinned == old(pinned) + {r.value.host.value.id}
      ensures r.None? ==> pinned == old(pinned)
    {
      var host := MapBuffer(len);
      OneTold(world, old(log), Offered(host.Some?));
      if host.None? {
        return None;
      }
      pinned := pinned + {host.value.id};
      var b := new PinnedBuffer(this, host.value, len);
      r := Some(b);
    }

    /** `pinned_transfer`, for `memcpy_h2d_pinned` and `memcpy_d2h_pinned`: moves the whole
        buffer to or from `at`. If it fails with anything still in flight, the caller loses
        the buffer. */
    method PinnedTransfer(b: PinnedBuffer, toDevice: bool, at: nat, queue: nat) returns (r: Outcome)
      requires Valid() && b.Live() && at + b.len <= |hardware.memory|
      modifies this`hardware, this`log, this`leaked, this`sources, this`pinned, b
      ensures Intact() && (Orderly(r, old(b.len)) ==> Valid()) && b.Live() && Ended(r, toDevice, queue, at, old(b.len))
      ensures b.owner != this ==> r == Failed(Limit) && hardware == old(hardware) && log == old(log) && b.host == old(b.host)
      ensures b.owner == this ==> Told(world, old(log), log, r)
      ensures r.Done? && old(b.host).Some? ==>
                && b.host == old(b.host) && b.len == old(b.len)
                && (toDevice && old(Clear(hardware, true, queue, at, b.Contents())) ==> Stable(hardware, at, b.Contents()))
                && (toDevice ==> b.Contents() == old(b.Contents()))
                && (!toDevice && old(Clear(hardware, false, queue, at, hardware.memory[at..at + b.len])) ==>
                      hardware.memory[at..at + b.len] == b.Contents())
      ensures if b.host == old(b.host) then pinned == old(pinned)
              else
                && b.host.None? && b.len == 0 && Uncertain(r, |hardware.inFlight| - |old(hardware).inFlight|)
                && old(b.host).Some? && pinned == old(pinned) - {old(b.host).value.id}
      ensures forall p | p in pinned && old(b.host) != None && p != old(b.host).value.id ::
                hardware.buffers[p] == old(hardware).buffers[p]
    {
      ghost var was := hardware;
      SparesItself(was, hardware, toDevice, queue, at, b.len);
      NothingTold(world, log);
      hide Spares, Clear, Stable, NoUploads, Wf, Contained, Told;
      if b.owner != this {
        return Failed(Limit);
      }
      if b.host.None? || b.len == 0 {
        NothingIsStable(hardware, at, []);
        return Done;
      }
      var lost;
      r, lost := PinnedThrough(b.host.value, b.len, toDevice, at, queue);
      if lost {
        b.host, b.len := None, 0;
      }
    }

    method PinnedThrough(host: HostBuffer, len: nat, toDevice: bool, at: nat, queue: nat)
        returns (r: Outcome, lost: bool)
      requires Valid() && Usable(host) && host.id in pinned && 0 < len <= Length(host) && at + len <= |hardware.memory|
      modifies this`hardware, this`log, this`leaked, this`sources, this`pinned
      ensures Intact() && (Orderly(r, len) ==> Valid()) && Ended(r, toDevice, queue, at, len)
      ensures host.id in hardware.buffers && Length(host) == old(Length(host))
      ensures toDevice ==> hardware.buffers[host.id] == old(hardware).buffers[host.id]
      ensures pinned == if lost then old(pinned) - {host.id} else old(pinned)
      ensures lost ==> Uncertain(r, |hardware.inFlight| - |old(hardware).inFlight|)
      ensures !lost ==> host.id !in leaked
      ensures r.Done? && old(Clear(hardware, toDevice, queue, at, if toDevice then hardware.buffers[host.id][..len]
                                                                 else hardware.memory[at..at + len])) ==>
                if toDevice then Stable(hardware, at, hardware.buffers[host.id][..len])
                else hardware.memory[at..at + len] == hardware.buffers[host.id][..len]
      ensures forall p | p in old(pinned) && p != host.id ::
                p in hardware.buffers && hardware.buffers[p] == old(hardware).buffers[p]
      ensures Told(world, old(log), log, r)
    {
      ghost var data := if toDevice then hardware.buffers[host.id][..len] else hardware.memory[at..at + len];
      ghost var j := Job(toDevice, queue, at, data, {host.id}, leaked, sources, hardware);
      TransferBegins(j, host.id);
      assert forall p | p in pinned && p != host.id :: p in j.start.buffers && p !in j.mine && p !in j.leaked;
      hide Transferring, Surrounded, JobHolds, JobSafe, Contained, Spares, Clear, Stable, NoUploads, Safe, Wf, Pool, Told;
      var pending;
      r, pending := PinnedPushAndAwait(j, host, len, at, queue, toDevice);
      JobHasEnded(j, hardware, pending, r);
      lost := LeakPinned(j, host, pending, r);
    }

    /** The end of `pinned_transfer`. */
    method LeakPinned(ghost j: Job, host: HostBuffer, pending: nat, r: Outcome) returns (lost: bool)
      requires Intact() && j.leaked == leaked && j.sources == sources && sources <= leaked
      requires j.mine == {host.id} && host.id in pinned && JobHolds(j, hardware, pending, r)
      requires r.Done? ==> |hardware.inFlight| == j.Stale()
      modifies this`leaked, this`sources, this`pinned
      ensures Intact() && (JobSafe(j, hardware, pending, r) ==> Valid())
      ensures lost == (r.Failed? && (pending > 0 || MayBeInFlight(r.error)))
      ensures pinned == if lost then old(pinned) - {host.id} else old(pinned)
      ensures leaked == if lost then old(leaked) + {host.id} else old(leaked)
    {
      JobEnds(j, hardware, pending, r);
      lost := r.Failed? && (pending > 0 || MayBeInFlight(r.error));
      if lost {
        leaked, pinned := leaked + {host.id}, pinned - {host.id};
        sources := sources + if j.toDevice then {host.id} else {};
      }
    }

    method PinnedPushAndAwait(ghost j: Job, host: HostBuffer, len: nat, at: nat, queue: nat, toDevice: bool)
        returns (r: Outcome, pending: nat)
      requires Usable(host) && 0 < len <= Length(host) && len == |j.data|
      requires j == Job(toDevice, queue, at, j.data, {host.id}, leaked, sources, hardware)
      requires toDevice ==> j.data == hardware.buffers[host.id][..len]
      requires Transferring(j, hardware, Window(0, 0, [], host.id))
      requires elemSize < 0x1_0000_0000 && at + len <= |hardware.memory| < 0x1_0000_0000_0000_0000
      modifies this`hardware, this`log
      ensures JobHolds(j, hardware, pending, r) && (Orderly(r, len) ==> JobSafe(j, hardware, pending, r))
      ensures SameSizes(old(hardware), hardware)
      ensures toDevice ==> hardware.buffers[host.id] == old(hardware).buffers[host.id]
      ensures r.Done? ==> |hardware.inFlight| == j.Stale()
      ensures r.Done? && Safe(j) ==>
                if toDevice then Stable(hardware, at, j.data)
                else hardware.memory[at..at + len] == hardware.buffers[host.id][..len]
      ensures Told(world, old(log), log, r)
    {
      ghost var w := Window(0, 0, [], host.id);
      assert Ready(j, w, hardware, host.id, len);
      hide Transferring, Surrounded, Ready, Stable, PerCommand, Told;
      r, pending, w := FirstChunk(j, w, host, len, at, queue, toDevice);
      if r.Done? {
        ghost var asked := log;
        r, pending, w := AwaitDma(j, w, pending, pending);
        ToldOn(world, old(log), asked, log, r);
        if r.Done? {
          AllCollected(j, hardware, w);
          PinnedHolds(j, hardware, w);
        }
      }
    }
  }

  /** A host buffer that the caller may use, until it is taken away (`host` is `None`). */
  class PinnedBuffer {
    const owner: Engine
    var host: Option<HostBuffer>
    var len: nat

    predicate Live()
      reads this, owner
    {
      host.Some? ==>
        && host.value.id in owner.pinned && owner.Usable(host.value)
        && len <= |owner.hardware.buffers[host.value.id]|
    }

    ghost function Contents(): (bytes: seq<Byte>)
      requires Live() && host.Some?
      reads this, owner
    {
      owner.hardware.buffers[host.value.id][..len]
    }

    constructor (owner: Engine, host: HostBuffer, len: nat)
      ensures this.owner == owner && this.host == Some(host) && this.len == len
    {
      this.owner, this.host, this.len := owner, Some(host), len;
    }
  }

  // --- Transfers one after another --------------------------------------------------

  /** What has been uploaded can be read back, on any queue. */
  method RoundTrip(e: Engine, src: seq<Byte>, at: nat, up: nat, down: nat) returns (r: Outcome, out: seq<Byte>)
    requires e.Valid() && at + |src| <= |e.hardware.memory|
    modifies e`hardware, e`log, e`staging, e`leaked, e`sources
    ensures e.Intact() && (e.Orderly(r, |src|) ==> e.Valid())
    ensures r.Done? && old(Clear(e.hardware, true, up, at, src)) ==> out == src
    ensures r.Done? && old(NoUploads(e.hardware.inFlight)) ==> out == src && NoUploads(e.hardware.inFlight)
    ensures Told(e.world, old(e.log), e.log, r)
  {
    hide Told, Contained, Clear, NoUploads, Stable, Spares, Engine.PerCommand;
    if NoUploads(e.hardware.inFlight) {
      NoUploadsIsClear(e.hardware, true, up, at, src);
    }
    out := [];
    ghost var was := e.hardware;
    r := e.MemcpyH2d(src, at, up);
    if r.Done? {
      ghost var mid, asked := e.hardware, e.log;
      SparesSize(was, mid, true, up, at, |src|);
      r, out := e.MemcpyD2h(at, |src|, down);
      ToldOn(e.world, old(e.log), asked, e.log, r);
      if r.Done? && Clear(was, true, up, at, src) {
        StableIsClear(mid, false, down, at, src);
        SparesStable(mid, e.hardware, false, down, at, |src|, at, src);
        StableRange(e.hardware, at, src);
      }
    }
  }

  /** Some data to upload, where to, and on which queue. */
  datatype Upload = Upload(at: nat, data: seq<Byte>, queue: nat) {
    predicate Disjoint(other: Upload) {
      at + |data| <= other.at || other.at + |other.data| <= at
    }
  }

  predicate AllDisjoint(uploads: seq<Upload>) {
    forall i, k | 0 <= i < k < |uploads| :: uploads[i].Disjoint(uploads[k])
  }

  /** Of any number of uploads to ranges that do not overlap, those that no leftover command
      could spoil when the first of them began are all in place in the end, and stay so. */
  method UploadEach(e: Engine, uploads: seq<Upload>) returns (r: Outcome)
    requires e.Valid() && AllDisjoint(uploads)
    requires forall u | u in uploads :: u.at + |u.data| <= |e.hardware.memory|
    modifies e`hardware, e`log, e`staging, e`leaked, e`sources
    ensures e.Intact() && (!e.drainFirst || r != Failed(DeviceStatus) ==> e.Valid())
    ensures r.Done? ==> forall u | u in uploads && old(Clear(e.hardware, true, u.queue, u.at, u.data)) ::
                          Stable(e.hardware, u.at, u.data)
    ensures Told(e.world, old(e.log), e.log, r)
  {
    NothingTold(e.world, e.log);
    assert e.Intact();
    hide Told, Contained, Clear, NoUploads, Stable, Spares, Engine.PerCommand, Engine.Valid, Engine.Intact;
    ghost var was := e.hardware;
    r := Done;
    for n := 0 to |uploads|
      invariant e.Valid() && e.Intact() && |e.hardware.memory| == |was.memory| && r.Done? && Told(e.world, old(e.log), e.log, r)
      invariant forall k | n <= k < |uploads| && Clear(was, true, uploads[k].queue, uploads[k].at, uploads[k].data) ::
                  Clear(e.hardware, true, uploads[k].queue, uploads[k].at, uploads[k].data)
      invariant forall k | 0 <= k < n && Clear(was, true, uploads[k].queue, uploads[k].at, uploads[k].data) ::
                  Stable(e.hardware, uploads[k].at, uploads[k].data)
    {
      ghost var mid, u, asked := e.hardware, uploads[n], e.log;
      r := e.MemcpyH2d(uploads[n].data, uploads[n].at, uploads[n].queue);
      ToldOn(e.world, old(e.log), asked, e.log, r);
      SparesSize(mid, e.hardware, true, u.queue, u.at, |u.data|);
      if r.Failed? {
        return;
      }
      forall k | 0 <= k < |uploads|
        ensures n < k && Clear(mid, true, uploads[k].queue, uploads[k].at, uploads[k].data) ==>
                  Clear(e.hardware, true, uploads[k].queue, uploads[k].at, uploads[k].data)
        ensures k < n && Stable(mid, uploads[k].at, uploads[k].data) ==>
                  Stable(e.hardware, uploads[k].at, uploads[k].data)
      {
        OthersKept(mid, e.hardware, u, uploads[k], k < n && u.Disjoint(uploads[k]));
      }
    }
  }

  lemma OthersKept(d: State, d': State, u: Upload, other: Upload, disjoint: bool)
    requires Wf(d) && Wf(d') && Spares(d, d', true, u.queue, u.at, |u.data|) && |d'.inFlight| == |d.inFlight|
    requires disjoint ==> u.Disjoint(other)
    ensures Clear(d, true, other.queue, other.at, other.data) ==> Clear(d', true, other.queue, other.at, other.data)
    ensures disjoint && Stable(d, other.at, other.data) ==> Stable(d', other.at, other.data)
  {
    if Clear(d, true, other.queue, other.at, other.data) {
      SparesClear(d, d', true, u.queue, u.at, |u.data|, other.queue, other.at, other.data);
    }
    if disjoint && Stable(d, other.at, other.data) {
      SparesStable(d, d', true, u.queue, u.at, |u.data|, other.at, other.data);
    }
  }

  /** An upload that has failed can be tried again on its own queue, even with other data,
      however much of the first try is still in flight. */
  method TryAgain(e: Engine, first: seq<Byte>, again: seq<Byte>, at: nat, queue: nat) returns (r: Outcome)
    requires e.Valid() && at + |first| <= |e.hardware.memory| && at + |again| <= |e.hardware.memory|
    requires !e.drainFirst || |first| <= e.PerCommand()
    modifies e`hardware, e`log, e`staging, e`leaked, e`sources
    ensures e.Intact() && (e.Orderly(r, |again|) ==> e.Valid())
    ensures r.Done? && old(Clear(e.hardware, true, queue, at, again)) ==> Stable(e.hardware, at, again)
    ensures exists asked :: old(e.log) <= asked && Told(e.world, asked, e.log, r)
  {
    hide Told, Contained, Clear, NoUploads, Stable, Spares, Engine.PerCommand;
    ghost var was := e.hardware;
    r := e.MemcpyH2d(first, at, queue);
    SparesSize(was, e.hardware, true, queue, at, |first|);
    if Clear(was, true, queue, at, again) {
      SparesClear(was, e.hardware, true, queue, at, |first|, queue, at, again);
    }
    ghost var asked := e.log;
    assert old(e.log) <= asked by {
      ToldFrom(e.world, old(e.log), asked, r);
    }
    r := e.MemcpyH2d(again, at, queue);
  }

  /** The contents of one pinned buffer reach another by way of the device. */
  method PinnedRoundTrip(e: Engine, a: PinnedBuffer, b: PinnedBuffer, at: nat, up: nat, down: nat) returns (r: Outcome)
    requires e.Valid() && a.owner == e && b.owner == e && a.Live() && b.Live() && a.host.Some? && b.host.Some?
    requires a != b && a.host.value.id != b.host.value.id && a.len == b.len && at + a.len <= |e.hardware.memory|
    modifies e`hardware, e`log, e`leaked, e`sources, e`pinned, a, b
    ensures e.Intact() && (e.Orderly(r, old(a.len)) ==> e.Valid()) && a.Live() && b.Live()
    ensures r.Done? && old(Clear(e.hardware, true, up, at, a.Contents())) ==>
              && a.host == old(a.host) && b.host == old(b.host) && b.len == old(b.len)
              && b.Contents() == old(a.Contents()) == a.Contents()
    ensures Told(e.world, old(e.log), e.log, r)
  {
    hide Told, Contained, Clear, NoUploads, Stable, Spares, Engine.PerCommand;
    ghost var was, data := e.hardware, a.Contents();
    r := e.PinnedTransfer(a, true, at, up);
    SparesSize(was, e.hardware, true, up, at, |data|);
    if r.Done? {
      ghost var mid, asked := e.hardware, e.log;
      r := e.PinnedTransfer(b, false, at, down);
      ToldOn(e.world, old(e.log), asked, e.log, r);
      if r.Done? && Clear(was, true, up, at, data) {
        StableIsClear(mid, false, down, at, data);
        StableRange(mid, at, data);
        SparesStable(mid, e.hardware, false, down, at, |data|, at, data);
        StableRange(e.hardware, at, data);
      }
    }
  }

  /** A finished transfer of a whole buffer, in either direction: the device range and the
      buffer hold the same bytes. */
  lemma PinnedHolds(j: Job, d: State, w: Window)
    requires Transferring(j, d, w) && w == Window(|j.data|, |j.data|, [], w.buffer) && 0 < |j.data|
    requires w.buffer in d.buffers && |j.data| <= |d.buffers[w.buffer]| && |d.inFlight| == j.Stale()
    ensures Wf(d) && j.base + |j.data| <= |d.memory|
    ensures Safe(j) ==>
              if j.toDevice then Stable(d, j.base, j.data)
              else d.memory[j.base..j.base + |j.data|] == d.buffers[w.buffer][..|j.data|]
  {
    if Safe(j) {
      if j.toDevice {
        CompleteIsStable(j, d, w);
      } else {
        HeldIsRange(j, d, w);
      }
    }
  }

  lemma HeldIsRange(j: Job, d: State, w: Window)
    requires Downloading(j, d, w) && Safe(j) && w.out == [] && w.collected > 0
    requires w.collected <= |d.buffers[w.buffer]|
    ensures d.memory[j.base..j.base + w.collected] == d.buffers[w.buffer][..w.collected]
  {
    var range, held := d.memory[j.base..j.base + w.collected], d.buffers[w.buffer][..w.collected];
    forall k | 0 <= k < w.collected
      ensures range[k] == held[k]
    {
      var a := j.base + k;
      assert d.buffers[w.buffer][a - (j.base + |w.out|)] == d.memory[a];
    }
  }

  lemma MappedIsClear(d: State, d': State, toDevice: bool, queue: nat, at: nat, data: seq<Byte>)
    requires Wf(d) && Wf(d') && Mapped(d, d')
    ensures Clear(d, toDevice, queue, at, data) ==> Clear(d', toDevice, queue, at, data)
  {
    ClearIsSafe(Job(toDevice, queue, at, data, {}, {}, {}, d'), d);
  }

  lemma DownloadHasEnded(j: Job, d: State, pending: nat, r: Outcome, out: seq<Byte>)
    requires JobHolds(j, d, pending, r) && !j.toDevice && (r.Done? ==> |d.inFlight| == j.Stale())
    requires r.Done? ==> |out| == |j.data| && exists b :: Downloading(j, d, Window(|j.data|, |j.data|, out, b))
    ensures r.Failed? && (pending > 0 || MayBeInFlight(r.error)) ==> Uncertain(r, |d.inFlight| - |j.start.inFlight|)
    ensures Wf(d)
    ensures Spares(j.start, d, false, j.queue, j.base, |j.data|)
    ensures r.Done? && NoUploads(j.start.inFlight) ==> NoUploads(d.inFlight)
    ensures forall b | b in j.start.buffers && b !in j.mine && b !in j.leaked ::
              b in d.buffers && d.buffers[b] == j.start.buffers[b]
    ensures r.Done? && Clear(j.start, false, j.queue, j.base, j.data) ==>
              j.base + |j.data| <= |d.memory| && out == d.memory[j.base..j.base + |j.data|]
  {
    JobHasEnded(j, d, pending, r);
    hide Spares, Safe, Clear, NoUploads, Downloading, JobHolds;
    if r.Done? && Safe(j) {
      DownloadReturns(j, d, out);
    }
  }

  /** What the caller of a transfer learns from its end. */
  lemma JobHasEnded(j: Job, d: State, pending: nat, r: Outcome)
    requires JobHolds(j, d, pending, r) && (r.Done? ==> |d.inFlight| == j.Stale())
    ensures r.Failed? && (pending > 0 || MayBeInFlight(r.error)) ==> Uncertain(r, |d.inFlight| - |j.start.inFlight|)
    ensures Spares(j.start, d, j.toDevice, j.queue, j.base, |j.data|)
    ensures r.Done? && NoUploads(j.start.inFlight) ==> NoUploads(d.inFlight)
    ensures Clear(j.start, j.toDevice, j.queue, j.base, j.data) ==> Safe(j)
    ensures forall b | b in j.start.buffers && b !in j.mine && b !in j.leaked ::
              b in d.buffers && d.buffers[b] == j.start.buffers[b]
  {
    SurroundedSpares(j, d);
    ClearIsSafe(j, j.start);
    hide Spares, Safe, Clear, NoUploads;
    if r.Done? {
      SparesNoUploads(j.start, d, j.toDevice, j.queue, j.base, |j.data|);
    }
  }
}
