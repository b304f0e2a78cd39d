/** The ping/pong message channel of et-k-rs/src/bin/channel_bench.rs, run by two
    Minions over CacheHierarchy. Every memory access and every per-line cache
    operation is one step; the two Minions and the caches interleave freely. */
module Channel {
  import opened CacheHierarchy

  const MAX_ITERATIONS: nat := 0x10_0000
  const U64_MAX: nat := 0xFFFF_FFFF_FFFF_FFFF

  /** What remains of the launch arguments once `entry_point` has accepted them. */
  datatype Config = Config(
    same: bool, writeback: nat, invalidate: nat, words: nat, iterations: nat, epoch: nat,
    payload: (nat, nat) -> Word)
  {
    predicate Valid() {
      && Join(same) <= writeback <= LEVELS
      && Join(same) <= invalidate <= LEVELS
      && words <= U64_MAX / 8
      && iterations < MAX_ITERATIONS
      && epoch < 0x1_0000_0000
    }

    /** Cache lines covered by a payload. */
    function DataLines(): nat {
      (8 * words + 63) / 64
    }

    function LineCount(): nat {
      2 + 2 * DataLines()
    }

    function FlagLine(r: Role): nat {
      if r.Ping? then 0 else 1
    }

    function DataLine(r: Role, j: nat): nat {
      (if r.Ping? then 2 else 2 + DataLines()) + j
    }

    function OwnerOf(line: nat): Role {
      if line == 0 || 2 <= line < 2 + DataLines() then Ping else Pong
    }

    /** `flag_value`: the epoch in the upper half, the iteration in the lower. */
    function Flag(iteration: nat): Word
      requires epoch < 0x1_0000_0000 && iteration < MAX_ITERATIONS
    {
      epoch * 0x1_0000_0000 + iteration
    }

    /** Word `index` of message `iteration` as sent by `r`: pong answers with the complement. */
    function Message(r: Role, iteration: nat, index: nat): Word {
      if r.Ping? then payload(iteration, index) else Complement(payload(iteration, index))
    }
  }

  /** `payload_word`: 64-bit, with bits shifted out of the top lost. */
  function PayloadWord(epoch: bv64, iteration: bv64, index: bv64): bv64 {
    ((epoch << 40) ^ (iteration << 20) ^ index) ^ 0x9E37_79B9_7F4A_7C15
  }

  function Complement(w: Word): Word {
    U64_MAX - w
  }

  datatype Pc =
    | Compose(index: nat)
    | WriteBackData(line: nat)
    | RaiseFlag
    | WriteBackFlag
    | Invalidate
    | Poll
    | InvalidateData(line: nat)
    | Verify(index: nat)
    | Reply(index: nat, value: Word)
    | RetireData(line: nat)
    | RetireFlag
    | Finished

  datatype Status = Ok | Timeout

  /** One Minion. `sent` and `received` count the flags it has raised and recognised. */
  datatype Minion = Minion(
    pc: Pc, iteration: nat, sent: nat, received: nat,
    status: Status, errors: nat, completed: nat, failedIteration: nat, lastFlag: Word)

  datatype State = State(lines: seq<Line>, ping: Minion, pong: Minion) {
    function Of(r: Role): Minion {
      if r.Ping? then ping else pong
    }

    function With(r: Role, m: Minion): State {
      if r.Ping? then this.(ping := m) else this.(pong := m)
    }
  }

  datatype Event =
    | Run(who: Role, giveUp: bool)
    | Fill(line: nat, who: Role, level: nat)
    | Drop(line: nat, slot: nat)
    | WriteBack(line: nat, who: Role, level: nat)

  // --- The program --------------------------------------------------------

  /** The head of the `for iteration in 1..=iterations` loop. */
  function Begin(c: Config, r: Role, m: Minion, iteration: nat): Minion {
    if iteration > c.iterations then m.(pc := RetireData(0))
    else m.(iteration := iteration, pc := if r.Ping? then Compose(0) else Invalidate)
  }

  function Start(c: Config, r: Role): Minion {
    Begin(c, r, Minion(Finished, 0, 0, 0, Ok, 0, 0, 0, 0), 1)
  }

  /** The memory access or cache operation a Minion performs in one step. */
  datatype Access =
    | Nothing
    | Read(line: nat, word: nat)
    | Write(line: nat, word: nat, value: Word)
    | FlushTo(line: nat, dest: nat)
    | EvictTo(line: nat, dest: nat)
  {
    predicate InRange(lineCount: nat) {
      match this
      case Nothing => true
      case Read(k, w) => k < lineCount && w < WORDS_PER_LINE
      case Write(k, w, _) => k < lineCount && w < WORDS_PER_LINE
      case FlushTo(k, dest) => k < lineCount && dest <= LEVELS
      case EvictTo(k, dest) => k < lineCount && dest <= LEVELS
    }
  }

  /** Every line exists and every access of the program is in range. */
  predicate Shaped(c: Config, s: State) {
    && c.Valid()
    && |s.lines| == c.LineCount()
    && ShapedMinion(c, s.ping)
    && ShapedMinion(c, s.pong)
  }

  predicate ShapedMinion(c: Config, m: Minion) {
    && m.iteration <= c.iterations
    && (m.pc.Reply? ==> m.pc.index < c.words)
  }

  lemma DataLineInRange(c: Config, r: Role, index: nat)
    requires index < c.words
    ensures index / 8 < c.DataLines() && c.DataLine(r, index / 8) < c.LineCount()
    ensures 8 * (index / 8) <= index
  {
  }

  /** What Minion `r` at `m` does to memory next. */
  function NextAccess(c: Config, r: Role, m: Minion): (a: Access)
    requires c.Valid() && ShapedMinion(c, m)
    ensures a.InRange(c.LineCount())
  {
    var peer := r.Peer();
    match m.pc
    case Compose(index) =>
      if index < c.words then
        DataLineInRange(c, r, index);
        Write(c.DataLine(r, index / 8), index % 8, c.Message(Ping, m.iteration, index))
      else Nothing
    case WriteBackData(j) => if j < c.DataLines() then FlushTo(c.DataLine(r, j), c.writeback) else Nothing
    case RaiseFlag => Write(c.FlagLine(r), 0, c.Flag(m.iteration))
    case WriteBackFlag => FlushTo(c.FlagLine(r), c.writeback)
    case Invalidate => EvictTo(c.FlagLine(peer), c.invalidate)
    case Poll => Read(c.FlagLine(peer), 0)
    case InvalidateData(j) => if j < c.DataLines() then EvictTo(c.DataLine(peer, j), c.invalidate) else Nothing
    case Verify(index) =>
      if index < c.words then
        DataLineInRange(c, peer, index);
        Read(c.DataLine(peer, index / 8), index % 8)
      else Nothing
    case Reply(index, value) =>
      DataLineInRange(c, r, index);
      Write(c.DataLine(r, index / 8), index % 8, Complement(value))
    case RetireData(j) => if j < c.DataLines() then FlushTo(c.DataLine(r, j), LEVELS) else Nothing
    case RetireFlag => FlushTo(c.FlagLine(r), LEVELS)
    case Finished => Nothing
  }

  function Perform(same: bool, r: Role, l: Line, a: Access): Line
    requires !a.Nothing? && a.InRange(a.line + 1)
  {
    match a
    case Read(_, _) => CacheHierarchy.Fill(same, l, r, 0)
    case Write(_, w, value) => Store(same, l, r, w, value)
    case FlushTo(_, dest) => Flush(same, l, r, dest)
    case EvictTo(_, dest) => Evict(same, l, r, dest)
  }

  /** Where `m` continues once it has `observed` the word it reads, if it reads one;
      `giveUp` says whether the poll deadline has passed. */
  function Advance(c: Config, r: Role, m: Minion, observed: Word, giveUp: bool): Minion
    requires c.Valid() && ShapedMinion(c, m)
  {
    match m.pc
    case Compose(index) => m.(pc := if index < c.words then Compose(index + 1) else WriteBackData(0))
    case WriteBackData(j) => m.(pc := if j < c.DataLines() then WriteBackData(j + 1) else RaiseFlag)
    case RaiseFlag => m.(pc := WriteBackFlag, sent := m.sent + 1)
    case WriteBackFlag =>
      if r.Ping? then m.(pc := Invalidate)
      else Begin(c, r, m.(completed := m.iteration), m.iteration + 1)
    case Invalidate => m.(pc := Poll)
    case Poll =>
      if observed == c.Flag(m.iteration) then m.(pc := InvalidateData(0), received := m.iteration)
      else if giveUp then
        m.(pc := RetireData(0), status := Timeout, failedIteration := m.iteration, lastFlag := observed)
      else m.(pc := Invalidate)
    case InvalidateData(j) => m.(pc := if j < c.DataLines() then InvalidateData(j + 1) else Verify(0))
    case Verify(index) =>
      if index < c.words then
        var wrong := observed != c.Message(r.Peer(), m.iteration, index);
        m.(errors := m.errors + (if wrong then 1 else 0),
           pc := if r.Ping? then Verify(index + 1) else Reply(index, observed))
      else if r.Ping? then Begin(c, r, m.(completed := m.iteration), m.iteration + 1)
      else m.(pc := WriteBackData(0))
    case Reply(index, _) => m.(pc := Verify(index + 1))
    case RetireData(j) => m.(pc := if j < c.DataLines() then RetireData(j + 1) else RetireFlag)
    case RetireFlag => m.(pc := Finished)
    case Finished => m
  }

  function Observed(c: Config, s: State, r: Role): Word
    requires Shaped(c, s)
  {
    var a := NextAccess(c, r, s.Of(r));
    if a.Read? then Load(c.same, s.lines[a.line], r, a.word) else 0
  }

  function StepLines(c: Config, s: State, r: Role): seq<Line>
    requires Shaped(c, s)
  {
    var a := NextAccess(c, r, s.Of(r));
    if a.Nothing? then s.lines else s.lines[a.line := Perform(c.same, r, s.lines[a.line], a)]
  }

  lemma AdvanceKeepsShape(c: Config, r: Role, m: Minion, observed: Word, giveUp: bool)
    requires c.Valid() && ShapedMinion(c, m)
    ensures ShapedMinion(c, Advance(c, r, m, observed, giveUp))
  {
  }

  /** One step of Minion `r`. */
  function Step(c: Config, s: State, r: Role, giveUp: bool): (s': State)
    requires Shaped(c, s)
    ensures Shaped(c, s') && s'.lines == StepLines(c, s, r)
    ensures s'.Of(r) == Advance(c, r, s.Of(r), Observed(c, s, r), giveUp) && s'.Of(r.Peer()) == s.Of(r.Peer())
  {
    AdvanceKeepsShape(c, r, s.Of(r), Observed(c, s, r), giveUp);
    s.(lines := StepLines(c, s, r)).With(r, Advance(c, r, s.Of(r), Observed(c, s, r), giveUp))
  }

  function Next(c: Config, s: State, e: Event): (s': State)
    requires Shaped(c, s)
    ensures Shaped(c, s')
  {
    match e
    case Run(who, giveUp) => Step(c, s, who, giveUp)
    case Fill(k, who, level) =>
      if k < |s.lines| && level < LEVELS
      then s.(lines := s.lines[k := CacheHierarchy.Fill(c.same, s.lines[k], who, level)]) else s
    case Drop(k, slot) =>
      if k < |s.lines| && slot < SLOTS
      then s.(lines := s.lines[k := CacheHierarchy.Drop(s.lines[k], slot)]) else s
    case WriteBack(k, who, level) =>
      if k < |s.lines| && level < LEVELS
      then s.(lines := s.lines[k := CacheHierarchy.WriteBack(c.same, s.lines[k], who, level)]) else s
  }

  function Exec(c: Config, s: State, events: seq<Event>): State
    requires Shaped(c, s)
    ensures Shaped(c, Exec(c, s, events))
    decreases |events|
  {
    if events == [] then s
    else
      Exec(c, Next(c, s, events[0]), events[1..])
  }

  /** Before the launch nothing is dirty, and no flag of this epoch is anywhere to be
      read; the caches may otherwise hold any stale copies. */
  ghost predicate Initial(c: Config, s: State) {
    && c.Valid()
    && |s.lines| == c.LineCount()
    && s.ping == Start(c, Ping)
    && s.pong == Start(c, Pong)
    && (forall k | 0 <= k < |s.lines| :: !s.lines[k].touched && !AnyDirty(s.lines[k]))
    && NoFuture(c, s.lines[0], 0)
    && NoFuture(c, s.lines[1], 0)
  }

  // --- The invariant ------------------------------------------------------

  /** No copy of a flag line announces a message beyond `sent`. */
  ghost predicate NoFuture(c: Config, l: Line, sent: nat)
    requires c.Valid()
  {
    forall k, ws: Words | sent < k <= c.iterations && Holds(l, ws) :: ws[0] != c.Flag(k)
  }

  ghost predicate LinesOk(c: Config, lines: seq<Line>) {
    && |lines| == c.LineCount()
    && forall k | 0 <= k < |lines| :: LineOk(c.same, c.OwnerOf(k), lines[k])
  }

  /** The first `count` words of the payload area of `r` are those of message `msg`. */
  predicate AreaHolds(c: Config, r: Role, lines: seq<Line>, msg: nat, count: nat)
    requires c.Valid() && |lines| == c.LineCount() && msg <= c.iterations && count <= c.words
  {
    forall k: nat | k < count :: WordHolds(c, r, lines, msg, k)
  }

  predicate WordHolds(c: Config, r: Role, lines: seq<Line>, msg: nat, k: nat)
    requires c.Valid() && |lines| == c.LineCount() && msg <= c.iterations && k < c.words
  {
    DataLineInRange(c, r, k);
    var l := lines[c.DataLine(r, k / 8)];
    l.touched && Latest(c.same, l, r)[k % 8] == c.Message(r, msg, k)
  }

  predicate AreaPublished(c: Config, r: Role, lines: seq<Line>, n: nat)
    requires |lines| == c.LineCount() && n <= c.DataLines()
  {
    forall j: nat | j < n :: Published(c.same, r, lines[c.DataLine(r, j)])
  }

  predicate AreaFresh(c: Config, r: Role, lines: seq<Line>, n: nat)
    requires |lines| == c.LineCount() && n <= c.DataLines()
  {
    forall j: nat | j < n :: Fresh(c.same, r, lines[c.DataLine(r, j)])
  }

  /** Whether `m` is overwriting its payload area. */
  predicate Composing(m: Minion) {
    m.pc.Compose? || m.pc.Reply?
  }

  predicate CountersOk(c: Config, r: Role, m: Minion) {
    && m.errors == 0
    && m.iteration <= c.iterations
    && (if m.pc.RetireData? || m.pc.RetireFlag? || m.pc.Finished? then
          if m.status.Ok? then m.sent == m.received == m.completed == c.iterations
          else
            && m.iteration >= 1 && m.failedIteration == m.iteration
            && m.received == m.completed == m.iteration - 1
            && m.sent == (if r.Ping? then m.iteration else m.iteration - 1)
        else
          && m.iteration >= 1 && m.status.Ok? && m.completed == m.iteration - 1
          && (match m.pc
              case Compose(k) => r.Ping? && k <= c.words && m.sent == m.received == m.iteration - 1
              case WriteBackData(j) => j <= c.DataLines() && m.sent == m.iteration - 1 && ReceivedFirst(r, m)
              case RaiseFlag => m.sent == m.iteration - 1 && ReceivedFirst(r, m)
              case WriteBackFlag => m.sent == m.iteration && ReceivedFirst(r, m)
              case Invalidate => m.received == m.iteration - 1 && SentFirst(r, m)
              case Poll => m.received == m.iteration - 1 && SentFirst(r, m)
              case InvalidateData(j) => j <= c.DataLines() && m.received == m.iteration && SentFirst(r, m)
              case Verify(k) => k <= c.words && m.received == m.iteration && SentFirst(r, m)
              case Reply(k, _) => r.Pong? && k < c.words && m.received == m.iteration && SentFirst(r, m)
              case _ => true))
  }

  /** While `r` sends: pong has already received message `iteration`, ping has not. */
  predicate ReceivedFirst(r: Role, m: Minion) {
    m.received == (if r.Ping? then m.iteration - 1 else m.iteration)
  }

  /** While `r` receives: ping has already sent message `iteration`, pong has not. */
  predicate SentFirst(r: Role, m: Minion) {
    m.sent == (if r.Ping? then m.iteration else m.iteration - 1)
  }

  /** The two Minions take turns. */
  predicate TurnsOk(s: State) {
    s.ping.received <= s.pong.sent <= s.pong.received <= s.ping.sent <= s.ping.received + 1
  }

  /** What `r` has in its payload area and flag line. */
  ghost predicate SenderOk(c: Config, r: Role, m: Minion, lines: seq<Line>)
    requires c.Valid() && |lines| == c.LineCount() && CountersOk(c, r, m)
  {
    && DataOk(c, r, m, lines)
    && FlagOk(c, r, m, lines[c.FlagLine(r)])
  }

  ghost predicate DataOk(c: Config, r: Role, m: Minion, lines: seq<Line>)
    requires c.Valid() && |lines| == c.LineCount() && CountersOk(c, r, m)
  {
    if m.pc.Compose? || (r.Pong? && (m.pc.Verify? || m.pc.Reply?)) then
      AreaHolds(c, r, lines, m.iteration, m.pc.index)
    else if m.pc.WriteBackData? then
      AreaHolds(c, r, lines, m.iteration, c.words) && AreaPublished(c, r, lines, m.pc.line)
    else if m.pc.RaiseFlag? then
      AreaHolds(c, r, lines, m.iteration, c.words) && AreaPublished(c, r, lines, c.DataLines())
    else
      m.sent >= 1 ==> AreaHolds(c, r, lines, m.sent, c.words) && AreaPublished(c, r, lines, c.DataLines())
  }

  ghost predicate FlagOk(c: Config, r: Role, m: Minion, l: Line)
    requires c.Valid() && CountersOk(c, r, m)
  {
    && NoFuture(c, l, m.sent)
    && (m.sent >= 1 ==> l.touched && Latest(c.same, l, r)[0] == c.Flag(m.sent))
    && (m.sent >= 1 && !m.pc.WriteBackFlag? ==> Published(c.same, r, l))
  }

  /** What `r` has made sure of in the payload area of its peer. */
  predicate ReaderOk(c: Config, r: Role, m: Minion, lines: seq<Line>)
    requires c.Valid() && |lines| == c.LineCount() && CountersOk(c, r, m)
  {
    match m.pc
    case InvalidateData(j) => AreaFresh(c, r.Peer(), lines, j)
    case Verify(k) => AreaFresh(c, r.Peer(), lines, c.DataLines())
    case Reply(k, value) =>
      AreaFresh(c, r.Peer(), lines, c.DataLines()) && value == c.Message(Ping, m.iteration, k)
    case _ => true
  }

  ghost predicate MinionOk(c: Config, r: Role, m: Minion, lines: seq<Line>)
    requires c.Valid() && |lines| == c.LineCount()
  {
    CountersOk(c, r, m) && SenderOk(c, r, m, lines) && ReaderOk(c, r, m, lines)
  }

  ghost predicate Inv(c: Config, s: State) {
    && Shaped(c, s)
    && LinesOk(c, s.lines)
    && MinionOk(c, Ping, s.ping, s.lines)
    && MinionOk(c, Pong, s.pong, s.lines)
    && TurnsOk(s)
  }

  /** The part of the invariant that speaks of program counters only. */
  predicate ControlOk(c: Config, s: State) {
    Shaped(c, s) && CountersOk(c, Ping, s.ping) && CountersOk(c, Pong, s.pong) && TurnsOk(s)
  }

  lemma InitialInv(c: Config, s: State)
    requires Initial(c, s)
    ensures Inv(c, s)
  {
  }

  // --- Steps that store nothing -------------------------------------------

  lemma QuietKeepsArea(c: Config, r: Role, lines: seq<Line>, k: nat, l: Line, msg: nat, count: nat)
    requires c.Valid() && |lines| == c.LineCount() && msg <= c.iterations && count <= c.words
    requires k < |lines| && Quiet(c.same, c.OwnerOf(k), lines[k], l)
    requires AreaHolds(c, r, lines, msg, count)
    ensures AreaHolds(c, r, lines[k := l], msg, count)
  {
    forall i: nat {:trigger WordHolds(c, r, lines[k := l], msg, i)} | i < count
      ensures WordHolds(c, r, lines[k := l], msg, i)
    {
      assert WordHolds(c, r, lines, msg, i);
      DataLineInRange(c, r, i);
    }
  }

  /** A quiet change of any one line keeps what either Minion relies on. */
  lemma QuietKeepsMinion(c: Config, r: Role, m: Minion, lines: seq<Line>, k: nat, l: Line)
    requires c.Valid() && LinesOk(c, lines) && MinionOk(c, r, m, lines)
    requires k < |lines| && Quiet(c.same, c.OwnerOf(k), lines[k], l)
    ensures LinesOk(c, lines[k := l]) && MinionOk(c, r, m, lines[k := l])
  {
    var lines' := lines[k := l];
    forall msg: nat, count: nat | msg <= c.iterations && count <= c.words && AreaHolds(c, r, lines, msg, count)
      ensures AreaHolds(c, r, lines', msg, count)
    {
      QuietKeepsArea(c, r, lines, k, l, msg, count);
    }
  }

  lemma HardwareIsQuiet(c: Config, s: State, e: Event)
    requires Shaped(c, s) && !e.Run? && e.line < |s.lines| && LineOk(c.same, c.OwnerOf(e.line), s.lines[e.line])
    ensures Quiet(c.same, c.OwnerOf(e.line), s.lines[e.line], Next(c, s, e).lines[e.line])
    ensures Next(c, s, e) == s.(lines := s.lines[e.line := Next(c, s, e).lines[e.line]])
  {
    var owner, l := c.OwnerOf(e.line), s.lines[e.line];
    match e {
      case Fill(_, who, level) => if level < LEVELS { FillIsQuiet(c.same, owner, l, who, level); }
      case Drop(_, slot) => if slot < SLOTS { DropIsQuiet(c.same, owner, l, slot); }
      case WriteBack(_, who, level) => if level < LEVELS { WriteBackIsQuiet(c.same, owner, l, who, level); }
    }
  }

  lemma HardwareKeepsInv(c: Config, s: State, e: Event)
    requires Inv(c, s) && !e.Run?
    ensures Inv(c, Next(c, s, e))
  {
    if e.line < |s.lines| {
      assert LineOk(c.same, c.OwnerOf(e.line), s.lines[e.line]);
      HardwareIsQuiet(c, s, e);
      var l' := Next(c, s, e).lines[e.line];
      QuietKeepsMinion(c, Ping, s.ping, s.lines, e.line, l');
      QuietKeepsMinion(c, Pong, s.pong, s.lines, e.line, l');
    }
  }

  // --- Steps of the program -------------------------------------------------

  /** Anything but a store is quiet, whoever performs it. */
  lemma PerformIsQuiet(same: bool, owner: Role, r: Role, l: Line, a: Access)
    requires LineOk(same, owner, l) && !a.Nothing? && !a.Write? && a.InRange(a.line + 1)
    ensures Quiet(same, owner, l, Perform(same, r, l, a))
  {
    match a {
      case Read(_, _) => FillIsQuiet(same, owner, l, r, 0);
      case FlushTo(_, dest) => FlushIsQuiet(same, owner, l, r, dest);
      case EvictTo(_, dest) => EvictIsQuiet(same, owner, l, r, dest);
    }
  }

  /** The lines after a step that does not store, with both Minions as before it. */
  lemma QuietStep(c: Config, s: State, r: Role)
    requires Inv(c, s) && !NextAccess(c, r, s.Of(r)).Write?
    ensures LinesOk(c, StepLines(c, s, r))
    ensures MinionOk(c, Ping, s.ping, StepLines(c, s, r)) && MinionOk(c, Pong, s.pong, StepLines(c, s, r))
  {
    var a := NextAccess(c, r, s.Of(r));
    if !a.Nothing? {
      var l := Perform(c.same, r, s.lines[a.line], a);
      PerformIsQuiet(c.same, c.OwnerOf(a.line), r, s.lines[a.line], a);
      QuietKeepsMinion(c, Ping, s.ping, s.lines, a.line, l);
      QuietKeepsMinion(c, Pong, s.pong, s.lines, a.line, l);
    }
  }

  /** What a non-storing step of `r` relies on to move from `m` to its next place. */
  ghost predicate MayAdvance(c: Config, r: Role, m: Minion, peer: Minion, lines: seq<Line>, observed: Word)
    requires c.Valid() && |lines| == c.LineCount() && CountersOk(c, r, m)
  {
    match m.pc
    case WriteBackData(j) => j < c.DataLines() ==> Published(c.same, r, lines[c.DataLine(r, j)])
    case WriteBackFlag => Published(c.same, r, lines[c.FlagLine(r)])
    case InvalidateData(j) => j < c.DataLines() ==> Fresh(c.same, r.Peer(), lines[c.DataLine(r.Peer(), j)])
    case Poll => observed == c.Flag(m.iteration) ==> peer.sent >= m.iteration
    case Verify(k) => k < c.words ==> observed == c.Message(r.Peer(), m.iteration, k)
    case _ => true
  }

  lemma AdvanceKeepsCounters(c: Config, r: Role, m: Minion, observed: Word, giveUp: bool)
    requires c.Valid() && ShapedMinion(c, m) && CountersOk(c, r, m)
    requires m.pc.Verify? && m.pc.index < c.words ==> observed == c.Message(r.Peer(), m.iteration, m.pc.index)
    ensures CountersOk(c, r, Advance(c, r, m, observed, giveUp))
  {
  }

  lemma AdvanceKeepsTurns(c: Config, s: State, r: Role, observed: Word, giveUp: bool)
    requires ControlOk(c, s)
    requires s.Of(r).pc.Poll? && observed == c.Flag(s.Of(r).iteration) ==> s.Of(r.Peer()).sent >= s.Of(r).iteration
    ensures TurnsOk(s.With(r, Advance(c, r, s.Of(r), observed, giveUp)))
  {
  }

  lemma AdvanceKeepsData(c: Config, r: Role, m: Minion, peer: Minion, lines: seq<Line>, observed: Word, giveUp: bool)
    requires c.Valid() && |lines| == c.LineCount() && ShapedMinion(c, m) && MinionOk(c, r, m, lines)
    requires !NextAccess(c, r, m).Write? && MayAdvance(c, r, m, peer, lines, observed)
    requires CountersOk(c, r, Advance(c, r, m, observed, giveUp))
    ensures DataOk(c, r, Advance(c, r, m, observed, giveUp), lines)
  {
  }

  lemma AdvanceKeepsFlag(c: Config, r: Role, m: Minion, peer: Minion, lines: seq<Line>, observed: Word, giveUp: bool)
    requires c.Valid() && |lines| == c.LineCount() && ShapedMinion(c, m) && MinionOk(c, r, m, lines)
    requires !NextAccess(c, r, m).Write? && MayAdvance(c, r, m, peer, lines, observed)
    requires CountersOk(c, r, Advance(c, r, m, observed, giveUp))
    ensures FlagOk(c, r, Advance(c, r, m, observed, giveUp), lines[c.FlagLine(r)])
  {
    assert Advance(c, r, m, observed, giveUp).sent == m.sent;
  }

  lemma AdvanceKeepsReader(c: Config, r: Role, m: Minion, peer: Minion, lines: seq<Line>, observed: Word, giveUp: bool)
    requires c.Valid() && |lines| == c.LineCount() && ShapedMinion(c, m) && MinionOk(c, r, m, lines)
    requires !NextAccess(c, r, m).Write? && MayAdvance(c, r, m, peer, lines, observed)
    requires CountersOk(c, r, Advance(c, r, m, observed, giveUp))
    ensures ReaderOk(c, r, Advance(c, r, m, observed, giveUp), lines)
  {
  }

  lemma StepMayAdvance(c: Config, s: State, r: Role)
    requires Inv(c, s) && !NextAccess(c, r, s.Of(r)).Write?
    ensures MayAdvance(c, r, s.Of(r), s.Of(r.Peer()), StepLines(c, s, r), Observed(c, s, r))
  {
    var m := s.Of(r);
    if m.pc.WriteBackData? && m.pc.line < c.DataLines() {
      WriteBackDataPublishes(c, s, r);
    } else if m.pc.WriteBackFlag? {
      FlushPublishes(c.same, r, s.lines[c.FlagLine(r)], c.writeback);
    } else if m.pc.InvalidateData? && m.pc.line < c.DataLines() {
      InvalidateDataFreshens(c, s, r);
    } else if m.pc.Poll? {
      FlagIsReadOnlyOnceRaised(c, s, r);
    } else if m.pc.Verify? && m.pc.index < c.words {
      VerifyReadsTheMessage(c, s, r);
    }
  }

  lemma WriteBackDataPublishes(c: Config, s: State, r: Role)
    requires Inv(c, s) && s.Of(r).pc.WriteBackData? && s.Of(r).pc.line < c.DataLines()
    ensures Published(c.same, r, StepLines(c, s, r)[c.DataLine(r, s.Of(r).pc.line)])
  {
    var j := s.Of(r).pc.line;
    assert WordHolds(c, r, s.lines, s.Of(r).iteration, 8 * j);
    FlushPublishes(c.same, r, s.lines[c.DataLine(r, j)], c.writeback);
  }

  /** Once message `i` is recognised its payload is whole, published and left alone. */
  lemma PeerAwaitsReader(c: Config, s: State, r: Role)
    requires Inv(c, s) && (s.Of(r).pc.InvalidateData? || s.Of(r).pc.Verify? || s.Of(r).pc.Reply?)
    ensures AreaHolds(c, r.Peer(), s.lines, s.Of(r).iteration, c.words)
    ensures AreaPublished(c, r.Peer(), s.lines, c.DataLines())
    ensures !Composing(s.Of(r.Peer()))
  {
    var peer := s.Of(r.Peer());
    assert peer.sent == s.Of(r).iteration;
  }

  lemma InvalidateDataFreshens(c: Config, s: State, r: Role)
    requires Inv(c, s) && s.Of(r).pc.InvalidateData? && s.Of(r).pc.line < c.DataLines()
    ensures Fresh(c.same, r.Peer(), StepLines(c, s, r)[c.DataLine(r.Peer(), s.Of(r).pc.line)])
  {
    var k := c.DataLine(r.Peer(), s.Of(r).pc.line);
    PeerAwaitsReader(c, s, r);
    EvictFreshens(c.same, r.Peer(), s.lines[k], c.invalidate);
  }

  /** A flag read from any copy was raised before. */
  lemma FlagIsReadOnlyOnceRaised(c: Config, s: State, r: Role)
    requires Inv(c, s) && s.Of(r).pc.Poll?
    ensures Observed(c, s, r) == c.Flag(s.Of(r).iteration) ==> s.Of(r.Peer()).sent >= s.Of(r).iteration
  {
    var l := s.lines[c.FlagLine(r.Peer())];
    assert Holds(l, View(c.same, l, r, 0));
  }

  /** Every payload word read is the one the peer published for this message. */
  lemma VerifyReadsTheMessage(c: Config, s: State, r: Role)
    requires Inv(c, s) && s.Of(r).pc.Verify? && s.Of(r).pc.index < c.words
    ensures Observed(c, s, r) == c.Message(r.Peer(), s.Of(r).iteration, s.Of(r).pc.index)
  {
    var i := s.Of(r).pc.index;
    PeerAwaitsReader(c, s, r);
    DataLineInRange(c, r.Peer(), i);
    assert WordHolds(c, r.Peer(), s.lines, s.Of(r).iteration, i);
    FreshReadsLatest(c.same, r.Peer(), s.lines[c.DataLine(r.Peer(), i / 8)]);
  }

  lemma Assemble(c: Config, s: State, r: Role, lines': seq<Line>, m': Minion)
    requires Inv(c, s)
    requires LinesOk(c, lines') && ShapedMinion(c, m')
    requires MinionOk(c, r, m', lines')
    requires MinionOk(c, r.Peer(), s.Of(r.Peer()), lines')
    requires TurnsOk(s.With(r, m'))
    ensures Inv(c, s.(lines := lines').With(r, m'))
  {
  }

  lemma QuietStepKeepsInv(c: Config, s: State, r: Role, giveUp: bool)
    requires Inv(c, s) && !NextAccess(c, r, s.Of(r)).Write?
    ensures Inv(c, Step(c, s, r, giveUp))
  {
    var m, peer, lines', observed := s.Of(r), s.Of(r.Peer()), StepLines(c, s, r), Observed(c, s, r);
    QuietStep(c, s, r);
    StepMayAdvance(c, s, r);
    AdvanceKeepsShape(c, r, m, observed, giveUp);
    AdvanceKeepsCounters(c, r, m, observed, giveUp);
    AdvanceKeepsTurns(c, s, r, observed, giveUp);
    AdvanceKeepsData(c, r, m, peer, lines', observed, giveUp);
    AdvanceKeepsFlag(c, r, m, peer, lines', observed, giveUp);
    AdvanceKeepsReader(c, r, m, peer, lines', observed, giveUp);
    Assemble(c, s, r, lines', Advance(c, r, m, observed, giveUp));
  }

  // --- Steps that store ---------------------------------------------------

  lemma StoreKeepsLines(c: Config, s: State, r: Role)
    requires Inv(c, s) && NextAccess(c, r, s.Of(r)).Write?
    ensures c.OwnerOf(NextAccess(c, r, s.Of(r)).line) == r
    ensures LinesOk(c, StepLines(c, s, r))
  {
    var a := NextAccess(c, r, s.Of(r));
    assert c.OwnerOf(a.line) == r by {
      if s.Of(r).pc.Compose? || s.Of(r).pc.Reply? {
        DataLineInRange(c, r, s.Of(r).pc.index);
      }
    }
    StoreUpdatesLatest(c.same, r, s.lines[a.line], a.word, a.value);
  }

  /** A Minion that stores only touches its own lines, and no payload line of its own
      while the peer may still read it. */
  lemma StoreKeepsPeer(c: Config, s: State, r: Role)
    requires Inv(c, s) && NextAccess(c, r, s.Of(r)).Write?
    ensures MinionOk(c, r.Peer(), s.Of(r.Peer()), StepLines(c, s, r))
  {
    StoreKeepsLines(c, s, r);
    StoreKeepsPeerReading(c, s, r);
    SenderDependsOnOwnLines(c, r.Peer(), s.Of(r.Peer()), s.lines, StepLines(c, s, r));
  }

  lemma StoreKeepsPeerReading(c: Config, s: State, r: Role)
    requires Inv(c, s) && NextAccess(c, r, s.Of(r)).Write?
    ensures ReaderOk(c, r.Peer(), s.Of(r.Peer()), StepLines(c, s, r))
  {
    var peer := s.Of(r.Peer());
    if peer.pc.InvalidateData? || peer.pc.Verify? || peer.pc.Reply? {
      PeerAwaitsReader(c, s, r.Peer());
    }
  }

  /** What a Minion has sent depends on its own lines only. */
  lemma SenderDependsOnOwnLines(c: Config, r: Role, m: Minion, lines: seq<Line>, lines': seq<Line>)
    requires c.Valid() && |lines| == |lines'| == c.LineCount() && CountersOk(c, r, m)
    requires forall k: nat | k < |lines| && c.OwnerOf(k) == r :: lines'[k] == lines[k]
    requires SenderOk(c, r, m, lines)
    ensures SenderOk(c, r, m, lines')
  {
    assert forall j: nat | j < c.DataLines() :: lines'[c.DataLine(r, j)] == lines[c.DataLine(r, j)];
    SameArea(c, r, lines, lines');
  }

  lemma SameArea(c: Config, r: Role, lines: seq<Line>, lines': seq<Line>)
    requires c.Valid() && |lines| == |lines'| == c.LineCount()
    requires forall j: nat | j < c.DataLines() :: lines'[c.DataLine(r, j)] == lines[c.DataLine(r, j)]
    ensures forall msg: nat, count: nat | msg <= c.iterations && count <= c.words ::
              AreaHolds(c, r, lines', msg, count) == AreaHolds(c, r, lines, msg, count)
  {
    forall msg: nat, k: nat | msg <= c.iterations && k < c.words
      ensures WordHolds(c, r, lines', msg, k) == WordHolds(c, r, lines, msg, k)
    {
      DataLineInRange(c, r, k);
    }
  }

  /** Storing word `index` extends the message under construction by that word. */
  lemma StoreExtendsArea(c: Config, r: Role, lines: seq<Line>, msg: nat, index: nat)
    requires c.Valid() && |lines| == c.LineCount() && LinesOk(c, lines) && msg <= c.iterations && index < c.words
    requires AreaHolds(c, r, lines, msg, index)
    requires c.DataLine(r, index / 8) < |lines|
    ensures AreaHolds(c, r,
                      lines[c.DataLine(r, index / 8) :=
                              Store(c.same, lines[c.DataLine(r, index / 8)], r, index % 8, c.Message(r, msg, index))],
                      msg, index + 1)
  {
    DataLineInRange(c, r, index);
    var k, value := c.DataLine(r, index / 8), c.Message(r, msg, index);
    assert LineOk(c.same, c.OwnerOf(k), lines[k]);
    StoreUpdatesLatest(c.same, r, lines[k], index % 8, value);
    var lines' := lines[k := Store(c.same, lines[k], r, index % 8, value)];
    forall i: nat {:trigger WordHolds(c, r, lines', msg, i)} | i < index + 1
      ensures WordHolds(c, r, lines', msg, i)
    {
      DataLineInRange(c, r, i);
      if i < index {
        assert WordHolds(c, r, lines, msg, i);
      }
    }
  }

  lemma ComposeKeepsMinion(c: Config, s: State, r: Role, giveUp: bool)
    requires Inv(c, s) && s.Of(r).pc.Compose? && s.Of(r).pc.index < c.words
    ensures MinionOk(c, r, Advance(c, r, s.Of(r), Observed(c, s, r), giveUp), StepLines(c, s, r))
  {
    DataLineInRange(c, r, s.Of(r).pc.index);
    StoreExtendsArea(c, r, s.lines, s.Of(r).iteration, s.Of(r).pc.index);
  }

  lemma ReplyKeepsMinion(c: Config, s: State, r: Role, giveUp: bool)
    requires Inv(c, s) && s.Of(r).pc.Reply?
    ensures MinionOk(c, r, Advance(c, r, s.Of(r), Observed(c, s, r), giveUp), StepLines(c, s, r))
  {
    DataLineInRange(c, r, s.Of(r).pc.index);
    StoreExtendsArea(c, r, s.lines, s.Of(r).iteration, s.Of(r).pc.index);
  }

  lemma FlagsDiffer(c: Config, i: nat, j: nat)
    requires c.Valid() && i < MAX_ITERATIONS && j < MAX_ITERATIONS && i != j
    ensures c.Flag(i) != c.Flag(j)
  {
  }

  lemma RaiseFlagKeepsFlag(c: Config, r: Role, m: Minion, l: Line)
    requires c.Valid() && CountersOk(c, r, m) && m.pc.RaiseFlag? && LineOk(c.same, r, l) && NoFuture(c, l, m.sent)
    ensures FlagOk(c, r, m.(pc := WriteBackFlag, sent := m.sent + 1), Store(c.same, l, r, 0, c.Flag(m.iteration)))
  {
    var l' := Store(c.same, l, r, 0, c.Flag(m.iteration));
    StoreUpdatesLatest(c.same, r, l, 0, c.Flag(m.iteration));
    forall k, ws: Words | m.sent + 1 < k <= c.iterations && Holds(l', ws)
      ensures ws[0] != c.Flag(k)
    {
      FlagsDiffer(c, m.iteration, k);
    }
  }

  lemma RaiseFlagKeepsMinion(c: Config, s: State, r: Role, giveUp: bool)
    requires Inv(c, s) && s.Of(r).pc.RaiseFlag?
    ensures MinionOk(c, r, Advance(c, r, s.Of(r), Observed(c, s, r), giveUp), StepLines(c, s, r))
  {
    var lines' := StepLines(c, s, r);
    RaiseFlagKeepsFlag(c, r, s.Of(r), s.lines[c.FlagLine(r)]);
    SameArea(c, r, s.lines, lines');
  }

  lemma StoreStepKeepsInv(c: Config, s: State, r: Role, giveUp: bool)
    requires Inv(c, s) && NextAccess(c, r, s.Of(r)).Write?
    ensures Inv(c, Step(c, s, r, giveUp))
  {
    StoreKeepsLines(c, s, r);
    StoreKeepsPeer(c, s, r);
    AdvanceKeepsShape(c, r, s.Of(r), Observed(c, s, r), giveUp);
    AdvanceKeepsTurns(c, s, r, Observed(c, s, r), giveUp);
    if s.Of(r).pc.Compose? {
      ComposeKeepsMinion(c, s, r, giveUp);
    } else if s.Of(r).pc.Reply? {
      ReplyKeepsMinion(c, s, r, giveUp);
    } else {
      RaiseFlagKeepsMinion(c, s, r, giveUp);
    }
    Assemble(c, s, r, StepLines(c, s, r), Advance(c, r, s.Of(r), Observed(c, s, r), giveUp));
  }

  // --- Whole runs ---------------------------------------------------------

  lemma NextKeepsInv(c: Config, s: State, e: Event)
    requires Inv(c, s)
    ensures Inv(c, Next(c, s, e))
  {
    if !e.Run? {
      HardwareKeepsInv(c, s, e);
    } else if NextAccess(c, e.who, s.Of(e.who)).Write? {
      StoreStepKeepsInv(c, s, e.who, e.giveUp);
    } else {
      QuietStepKeepsInv(c, s, e.who, e.giveUp);
    }
  }

  lemma {:induction false} ExecKeepsInv(c: Config, s: State, events: seq<Event>)
    requires Inv(c, s)
    ensures Inv(c, Exec(c, s, events))
    decreases |events|
  {
    if events != [] {
      NextKeepsInv(c, s, events[0]);
      ExecKeepsInv(c, Next(c, s, events[0]), events[1..]);
    }
  }

  /** Data integrity: in every run from a clean start, whatever the caches do and however
      the Minions interleave, no payload word ever differs from the one the peer sent. */
  lemma ChannelDelivers(c: Config, s: State, events: seq<Event>)
    requires Initial(c, s)
    ensures
      var s' := Exec(c, s, events);
      && s'.ping.errors == 0 && s'.pong.errors == 0
      && (forall r: Role | s'.Of(r).pc.Verify? && s'.Of(r).pc.index < c.words ::
            Observed(c, s', r) == c.Message(r.Peer(), s'.Of(r).iteration, s'.Of(r).pc.index))
      && (forall r: Role | s'.Of(r).pc.Finished? && s'.Of(r).status.Ok? :: s'.Of(r).completed == c.iterations)
  {
    InitialInv(c, s);
    ExecKeepsInv(c, s, events);
    var s' := Exec(c, s, events);
    forall r: Role | s'.Of(r).pc.Verify? && s'.Of(r).pc.index < c.words
      ensures Observed(c, s', r) == c.Message(r.Peer(), s'.Of(r).iteration, s'.Of(r).pc.index)
    {
      VerifyReadsTheMessage(c, s', r);
    }
  }

  /** Turn-taking: no payload area is overwritten while the peer may still read it, and
      neither Minion is ever more than one message ahead. */
  lemma ChannelTakesTurns(c: Config, s: State, events: seq<Event>)
    requires Initial(c, s)
    ensures
      var s' := Exec(c, s, events);
      && (forall r: Role | s'.Of(r).pc.InvalidateData? || s'.Of(r).pc.Verify? || s'.Of(r).pc.Reply? ::
            !Composing(s'.Of(r.Peer())))
      && s'.ping.completed <= s'.pong.completed + 1
      && s'.pong.completed <= s'.ping.completed + 1
  {
    InitialInv(c, s);
    ExecKeepsInv(c, s, events);
    var s' := Exec(c, s, events);
    forall r: Role | s'.Of(r).pc.InvalidateData? || s'.Of(r).pc.Verify? || s'.Of(r).pc.Reply?
      ensures !Composing(s'.Of(r.Peer()))
    {
      PeerAwaitsReader(c, s', r);
    }
  }

  // --- Progress -----------------------------------------------------------

  /** The peer of `r` has finished publishing the message that `r` polls for. */
  predicate Announced(s: State, r: Role) {
    s.Of(r.Peer()).sent >= s.Of(r).iteration && !s.Of(r.Peer()).pc.WriteBackFlag?
  }

  predicate Polling(m: Minion) {
    m.pc.Invalidate? || m.pc.Poll?
  }

  /** `r` has invalidated the flag line since the message it waits for was announced. */
  predicate WillSucceed(c: Config, s: State, r: Role)
    requires Shaped(c, s)
  {
    && s.Of(r).pc.Poll?
    && s.Of(r.Peer()).sent == s.Of(r).iteration
    && Fresh(c.same, r.Peer(), s.lines[c.FlagLine(r.Peer())])
  }

  lemma AnnouncedOnce(c: Config, s: State, r: Role)
    requires ControlOk(c, s) && Polling(s.Of(r)) && s.Of(r.Peer()).sent >= s.Of(r).iteration
    ensures s.Of(r.Peer()).sent == s.Of(r).iteration && !s.Of(r.Peer()).pc.RaiseFlag?
  {
  }

  lemma InvalidateMakesReady(c: Config, s: State, r: Role, giveUp: bool)
    requires Inv(c, s) && s.Of(r).pc.Invalidate? && Announced(s, r)
    ensures WillSucceed(c, Step(c, s, r, giveUp), r)
  {
    AnnouncedOnce(c, s, r);
    EvictFreshens(c.same, r.Peer(), s.lines[c.FlagLine(r.Peer())], c.invalidate);
  }

  /** Between stores to it, a line changes only quietly. */
  lemma LinesChangeQuietly(c: Config, s: State, e: Event, k: nat)
    requires Inv(c, s) && k < |s.lines|
    requires e.Run? ==> !NextAccess(c, e.who, s.Of(e.who)).Write? || NextAccess(c, e.who, s.Of(e.who)).line != k
    ensures Quiet(c.same, c.OwnerOf(k), s.lines[k], Next(c, s, e).lines[k])
  {
    assert LineOk(c.same, c.OwnerOf(k), s.lines[k]);
    if e.Run? {
      var a := NextAccess(c, e.who, s.Of(e.who));
      if !a.Nothing? && a.line == k {
        PerformIsQuiet(c.same, c.OwnerOf(k), e.who, s.lines[k], a);
      }
    } else if e.line == k {
      HardwareIsQuiet(c, s, e);
    }
  }

  /** A Minion whose message is still being polled for raises no further flag. */
  lemma AnnouncerRaisesNoFlag(c: Config, s: State, r: Role, giveUp: bool)
    requires ControlOk(c, s) && Polling(s.Of(r)) && s.Of(r.Peer()).sent == s.Of(r).iteration
    ensures
      var a := NextAccess(c, r.Peer(), s.Of(r.Peer()));
      a.Write? ==> a.line != c.FlagLine(r.Peer())
    ensures Step(c, s, r.Peer(), giveUp).Of(r.Peer()).sent == s.Of(r.Peer()).sent
  {
    var m := s.Of(r.Peer());
    AnnouncedOnce(c, s, r);
    if (m.pc.Compose? || m.pc.Reply?) && m.pc.index < c.words {
      DataLineInRange(c, r.Peer(), m.pc.index);
    }
  }

  lemma OthersKeepReady(c: Config, s: State, r: Role, e: Event)
    requires Inv(c, s) && WillSucceed(c, s, r) && (e.Run? ==> e.who != r)
    ensures WillSucceed(c, Next(c, s, e), r)
  {
    if e.Run? {
      AnnouncerRaisesNoFlag(c, s, r, e.giveUp);
    }
    LinesChangeQuietly(c, s, e, c.FlagLine(r.Peer()));
    assert Next(c, s, e).Of(r) == s.Of(r) && Next(c, s, e).Of(r.Peer()).sent == s.Of(r.Peer()).sent;
  }

  lemma {:induction false} OthersKeepReadyForLong(c: Config, s: State, r: Role, events: seq<Event>)
    requires Inv(c, s) && WillSucceed(c, s, r)
    requires forall e | e in events :: e.Run? ==> e.who != r
    ensures Inv(c, Exec(c, s, events)) && WillSucceed(c, Exec(c, s, events), r)
    decreases |events|
  {
    if events != [] {
      NextKeepsInv(c, s, events[0]);
      OthersKeepReady(c, s, r, events[0]);
      OthersKeepReadyForLong(c, Next(c, s, events[0]), r, events[1..]);
    }
  }

  lemma ReadyPollSucceeds(c: Config, s: State, r: Role, giveUp: bool)
    requires ControlOk(c, s) && LinesOk(c, s.lines) && WillSucceed(c, s, r)
    requires FlagOk(c, r.Peer(), s.Of(r.Peer()), s.lines[c.FlagLine(r.Peer())])
    ensures Observed(c, s, r) == c.Flag(s.Of(r).iteration)
    ensures Step(c, s, r, giveUp).Of(r).pc == InvalidateData(0)
  {
    FreshReadsLatest(c.same, r.Peer(), s.lines[c.FlagLine(r.Peer())]);
  }

  /** A poll begun after the peer's `publish` has returned succeeds, whatever the caches
      and the peer do between the invalidation and the read. */
  lemma PollAfterPublishSucceeds(
      c: Config, s: State, before: seq<Event>, r: Role, between: seq<Event>, giveUp: bool)
    requires Initial(c, s)
    requires Exec(c, s, before).Of(r).pc.Invalidate? && Announced(Exec(c, s, before), r)
    requires forall e | e in between :: e.Run? ==> e.who != r
    ensures
      var polling := Exec(c, s, before);
      var read := Exec(c, Step(c, polling, r, giveUp), between);
      && Observed(c, read, r) == c.Flag(polling.Of(r).iteration)
      && Step(c, read, r, giveUp).Of(r).pc == InvalidateData(0)
  {
    InitialInv(c, s);
    ExecKeepsInv(c, s, before);
    var polling := Exec(c, s, before);
    PublishedIsObserved(c, polling, r, between, giveUp);
  }

  lemma PublishedIsObserved(c: Config, s: State, r: Role, between: seq<Event>, giveUp: bool)
    requires Inv(c, s) && s.Of(r).pc.Invalidate? && Announced(s, r)
    requires forall e | e in between :: e.Run? ==> e.who != r
    ensures
      var read := Exec(c, Step(c, s, r, giveUp), between);
      && Observed(c, read, r) == c.Flag(s.Of(r).iteration)
      && Step(c, read, r, giveUp).Of(r).pc == InvalidateData(0)
  {
    var s1 := Step(c, s, r, giveUp);
    var read := Exec(c, s1, between);
    assert Inv(c, s1) && WillSucceed(c, s1, r) by {
      NextKeepsInv(c, s, Run(r, giveUp));
      InvalidateMakesReady(c, s, r, giveUp);
    }
    assert s1.Of(r).iteration == s.Of(r).iteration;
    OthersKeepReadyForLong(c, s1, r, between);
    OthersLeave(c, s1, r, between);
    ReadyPollSucceeds(c, read, r, giveUp);
  }

  lemma {:induction false} OthersLeave(c: Config, s: State, r: Role, events: seq<Event>)
    requires Shaped(c, s)
    requires forall e | e in events :: e.Run? ==> e.who != r
    ensures Exec(c, s, events).Of(r) == s.Of(r)
    decreases |events|
  {
    if events != [] {
      OthersLeave(c, Next(c, s, events[0]), r, events[1..]);
    }
  }

  /** No deadlock: until both have finished, as long as neither has timed out, some
      Minion has work to do other than polling, or polls for a message already announced. */
  lemma ChannelProgresses(c: Config, s: State, events: seq<Event>)
    requires Initial(c, s)
    requires
      var s' := Exec(c, s, events);
      && s'.ping.status.Ok? && s'.pong.status.Ok?
      && !(s'.ping.pc.Finished? && s'.pong.pc.Finished?)
    ensures
      var s' := Exec(c, s, events);
      exists r: Role ::
        !s'.Of(r).pc.Finished? && (Polling(s'.Of(r)) ==> Announced(s', r))
  {
    InitialInv(c, s);
    ExecKeepsInv(c, s, events);
    var s' := Exec(c, s, events);
    if s'.ping.pc.Finished? || (Polling(s'.ping) && !Announced(s', Ping)) {
      assert !s'.Of(Pong).pc.Finished? && (Polling(s'.Of(Pong)) ==> Announced(s', Pong));
    } else {
      assert !s'.Of(Ping).pc.Finished? && (Polling(s'.Of(Ping)) ==> Announced(s', Ping));
    }
  }

  // --- After the launch -----------------------------------------------------

  /** The lines `r` has retired are dirty in no cache. */
  predicate Retired(c: Config, r: Role, m: Minion, lines: seq<Line>)
    requires |lines| == c.LineCount()
  {
    && (m.pc.RetireData? ==> DataClean(c, r, lines, m.pc.line))
    && (m.pc.RetireFlag? ==> DataClean(c, r, lines, c.DataLines()))
    && (m.pc.Finished? ==> DataClean(c, r, lines, c.DataLines()) && !AnyDirty(lines[c.FlagLine(r)]))
  }

  predicate DataClean(c: Config, r: Role, lines: seq<Line>, n: nat)
    requires |lines| == c.LineCount()
  {
    forall j: nat | j < n && j < c.DataLines() :: !AnyDirty(lines[c.DataLine(r, j)])
  }

  /** A Minion that is retiring has stored for the last time, and its peer never stores
      to its lines. */
  lemma RetiringLinesStayClean(c: Config, s: State, e: Event, r: Role, k: nat)
    requires Inv(c, s) && k < |s.lines| && c.OwnerOf(k) == r
    requires Retiring(s.Of(r))
    ensures AnyDirty(Next(c, s, e).lines[k]) ==> AnyDirty(s.lines[k])
  {
    if e.Run? && NextAccess(c, e.who, s.Of(e.who)).Write? {
      StoreKeepsLines(c, s, e.who);
    }
    LinesChangeQuietly(c, s, e, k);
  }

  lemma RetireStepCleans(c: Config, s: State, r: Role, giveUp: bool)
    requires Shaped(c, s) && LinesOk(c, s.lines)
    ensures s.Of(r).pc.RetireData? && s.Of(r).pc.line < c.DataLines() ==>
              !AnyDirty(Step(c, s, r, giveUp).lines[c.DataLine(r, s.Of(r).pc.line)])
    ensures s.Of(r).pc.RetireFlag? ==> !AnyDirty(Step(c, s, r, giveUp).lines[c.FlagLine(r)])
  {
    if s.Of(r).pc.RetireData? && s.Of(r).pc.line < c.DataLines() {
      FlushToMemoryCleansAll(c.same, r, s.lines[c.DataLine(r, s.Of(r).pc.line)]);
    } else if s.Of(r).pc.RetireFlag? {
      FlushToMemoryCleansAll(c.same, r, s.lines[c.FlagLine(r)]);
    }
  }

  predicate Retiring(m: Minion) {
    m.pc.RetireData? || m.pc.RetireFlag? || m.pc.Finished?
  }

  lemma RetireAdvances(c: Config, r: Role, m: Minion, observed: Word, giveUp: bool, lines: seq<Line>)
    requires c.Valid() && |lines| == c.LineCount() && ShapedMinion(c, m) && Retired(c, r, m, lines)
    requires m.pc.RetireData? && m.pc.line < c.DataLines() ==> !AnyDirty(lines[c.DataLine(r, m.pc.line)])
    requires m.pc.RetireFlag? ==> !AnyDirty(lines[c.FlagLine(r)])
    ensures Retired(c, r, Advance(c, r, m, observed, giveUp), lines)
  {
  }

  lemma RetiredLinesStay(c: Config, s: State, r: Role, lines': seq<Line>)
    requires c.Valid() && |s.lines| == |lines'| == c.LineCount() && Retired(c, r, s.Of(r), s.lines)
    requires Retiring(s.Of(r))
    requires forall k: nat | k < |s.lines| && c.OwnerOf(k) == r :: AnyDirty(lines'[k]) ==> AnyDirty(s.lines[k])
    ensures Retired(c, r, s.Of(r), lines')
  {
    assert forall j: nat | j < c.DataLines() :: c.OwnerOf(c.DataLine(r, j)) == r;
  }

  lemma NextKeepsRetired(c: Config, s: State, e: Event, r: Role)
    requires Inv(c, s) && Retired(c, r, s.Of(r), s.lines)
    ensures Retired(c, r, Next(c, s, e).Of(r), Next(c, s, e).lines)
  {
    var s' := Next(c, s, e);
    if Retiring(s.Of(r)) {
      forall k: nat | k < |s.lines| && c.OwnerOf(k) == r
        ensures AnyDirty(s'.lines[k]) ==> AnyDirty(s.lines[k])
      {
        RetiringLinesStayClean(c, s, e, r, k);
      }
      RetiredLinesStay(c, s, r, s'.lines);
    }
    if e.Run? && e.who == r {
      RetireStepCleans(c, s, r, e.giveUp);
      RetireAdvances(c, r, s.Of(r), Observed(c, s, r), e.giveUp, StepLines(c, s, r));
    }
  }

  lemma {:induction false} ExecKeepsRetired(c: Config, s: State, events: seq<Event>, r: Role)
    requires Inv(c, s) && Retired(c, r, s.Of(r), s.lines)
    ensures Retired(c, r, Exec(c, s, events).Of(r), Exec(c, s, events).lines)
    decreases |events|
  {
    if events != [] {
      NextKeepsInv(c, s, events[0]);
      NextKeepsRetired(c, s, events[0], r);
      ExecKeepsRetired(c, Next(c, s, events[0]), events[1..], r);
    }
  }

  /** Once both Minions have returned, with or without a timeout, no line of the channel
      buffer is dirty in any cache, so the next launch may start. */
  lemma NothingDirtyAfterLaunch(c: Config, s: State, events: seq<Event>)
    requires Initial(c, s)
    requires Exec(c, s, events).ping.pc.Finished? && Exec(c, s, events).pong.pc.Finished?
    ensures forall k | 0 <= k < c.LineCount() :: !AnyDirty(Exec(c, s, events).lines[k])
  {
    InitialInv(c, s);
    ExecKeepsRetired(c, s, events, Ping);
    ExecKeepsRetired(c, s, events, Pong);
    AllLinesClean(c, Exec(c, s, events).lines);
  }

  lemma AllLinesClean(c: Config, lines: seq<Line>)
    requires |lines| == c.LineCount()
    requires DataClean(c, Ping, lines, c.DataLines()) && DataClean(c, Pong, lines, c.DataLines())
    requires !AnyDirty(lines[c.FlagLine(Ping)]) && !AnyDirty(lines[c.FlagLine(Pong)])
    ensures forall k | 0 <= k < c.LineCount() :: !AnyDirty(lines[k])
  {
    forall k | 0 <= k < c.LineCount()
      ensures !AnyDirty(lines[k])
    {
      if 2 <= k < 2 + c.DataLines() {
        assert k == c.DataLine(Ping, k - 2);
      } else if k >= 2 {
        assert k == c.DataLine(Pong, k - 2 - c.DataLines());
      }
    }
  }
}
