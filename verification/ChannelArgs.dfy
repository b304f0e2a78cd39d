/** From launch arguments to a channel: which arguments `entry_point` accepts, and that
    the cache lines of Channel are those its range operations touch. */
module ChannelArgs {
  import opened CacheHierarchy
  import opened CacheOps
  import opened Channel
  import opened Wrappers

  const MINIONS_PER_SHIRE: nat := 32
  const FORWARD_FLAG_OFFSET: nat := 0
  const REPLY_FLAG_OFFSET: nat := 64
  const FORWARD_DATA_OFFSET: nat := 128

  datatype Args = Args(
    buffer: nat, results: nat, messageBytes: nat, pingShire: nat, pingMinion: nat, pongShire: nat,
    pongMinion: nat, writebackLevel: nat, iterations: nat, epoch: nat, invalidateLevel: nat)
  {
    /** The ranges of the `u64` and `u32` fields. */
    predicate InRange() {
      buffer <= U64_MAX && results <= U64_MAX && messageBytes <= U64_MAX && epoch < 0x1_0000_0000
    }
  }

  /** The cache levels are numbered as in CacheHierarchy; L2 needs a common shire. */
  function Destination(level: nat, args: Args): Option<nat> {
    if level == 1 && args.pingShire == args.pongShire then Some(1)
    else if level == 2 then Some(2)
    else if level == 3 then Some(3)
    else None
  }

  function PayloadOf(epoch: nat): (nat, nat) -> Word
    requires epoch < 0x1_0000_0000
  {
    (iteration: nat, index: nat) =>
      if iteration < MAX_ITERATIONS && index <= U64_MAX
      then PayloadWord(epoch as bv64, iteration as bv64, index as bv64) as nat else 0
  }

  /** A word of a stale message, of another iteration of the same launch, is never the
      expected one. */
  lemma StaleWordsDiffer(epoch: bv64, i: bv64, k: bv64, index: bv64)
    requires i < 0x10_0000 && k < 0x10_0000
    ensures PayloadWord(epoch, i, index) == PayloadWord(epoch, k, index) <==> i == k
  {
  }

  /** The salt does not keep every payload word from being zero: exactly one is. */
  lemma ZeroWordIff(epoch: bv64, iteration: bv64, index: bv64)
    requires epoch < 0x1_0000_0000 && iteration < 0x10_0000 && index < 0x10_0000
    ensures PayloadWord(epoch, iteration, index) == 0 <==>
            epoch & 0xFF_FFFF == 0x9E_3779 && iteration == 0xB_97F4 && index == 0xA_7C15
  {
  }

  /** `None` is `CHANNEL_STATUS_BAD_ARGUMENTS`. */
  function Accept(args: Args): Option<Config>
    requires args.InRange()
  {
    var same := args.pingShire == args.pongShire;
    var validArguments :=
      && !(same && args.pingMinion == args.pongMinion)
      && args.pingMinion < MINIONS_PER_SHIRE
      && args.pongMinion < MINIONS_PER_SHIRE
      && args.messageBytes % 8 == 0
      && args.iterations < MAX_ITERATIONS
      && args.buffer % LINE_BYTES == 0
      && args.results % LINE_BYTES == 0;
    match (Destination(args.writebackLevel, args), Destination(args.invalidateLevel, args))
    case (Some(writeback), Some(invalidate)) =>
      if validArguments then
        Some(Config(same, writeback, invalidate, args.messageBytes / 8, args.iterations, args.epoch, PayloadOf(args.epoch)))
      else None
    case (_, _) => None
  }

  /** Accepted arguments give a channel whose levels both Minions share; a pair of distinct
      Minions with well-formed arguments is refused exactly when a level is not shared. */
  lemma AcceptedIsValid(args: Args)
    requires args.InRange()
    ensures Accept(args).Some? ==>
              var c := Accept(args).value;
              && c.Valid() && 8 * c.words == args.messageBytes && c.iterations == args.iterations && c.epoch == args.epoch
              && c.same == (args.pingShire == args.pongShire)
              && c.writeback == args.writebackLevel && c.invalidate == args.invalidateLevel
    ensures
      && args.pingMinion < MINIONS_PER_SHIRE && args.pongMinion < MINIONS_PER_SHIRE
      && (args.pingShire != args.pongShire || args.pingMinion != args.pongMinion)
      && args.messageBytes % 8 == 0 && args.iterations < MAX_ITERATIONS
      && args.buffer % LINE_BYTES == 0 && args.results % LINE_BYTES == 0 ==>
        (Accept(args).Some? <==>
           var join := Join(args.pingShire == args.pongShire);
           join <= args.writebackLevel <= LEVELS && join <= args.invalidateLevel <= LEVELS)
  {
  }

  function RoundUp(n: nat): nat {
    (n + 63) / LINE_BYTES * LINE_BYTES
  }

  function ReplyDataOffset(messageBytes: nat): nat {
    FORWARD_DATA_OFFSET + RoundUp(messageBytes)
  }

  function BufferBytes(messageBytes: nat): nat {
    ReplyDataOffset(messageBytes) + RoundUp(messageBytes)
  }

  function DataOffset(r: Role, messageBytes: nat): nat {
    if r.Ping? then FORWARD_DATA_OFFSET else ReplyDataOffset(messageBytes)
  }

  function FlagOffset(r: Role): nat {
    if r.Ping? then FORWARD_FLAG_OFFSET else REPLY_FLAG_OFFSET
  }

  lemma LineOfByte(q: nat, r: nat)
    requires r < LINE_BYTES
    ensures (LINE_BYTES * q + r) / LINE_BYTES == q && (LINE_BYTES * q + r) % LINE_BYTES == r
  {
  }

  /** The buffer layout puts each flag and each payload on lines of its own: the range
      operations on them touch exactly the lines that Channel gives them. */
  lemma LayoutMatchesChannel(c: Config, buffer: nat, r: Role)
    requires c.Valid() && buffer % LINE_BYTES == 0
    ensures
      var base, data := buffer / LINE_BYTES, buffer + DataOffset(r, 8 * c.words);
      && LineCount(data, 8 * c.words) == c.DataLines()
      && data == LINE_BYTES * (base + c.DataLine(r, 0))
      && LineCount(buffer + FlagOffset(r), LINE_BYTES) == 1
      && (buffer + FlagOffset(r)) / LINE_BYTES == base + c.FlagLine(r)
      && BufferBytes(8 * c.words) == LINE_BYTES * c.LineCount()
  {
    var base, data := buffer / LINE_BYTES, buffer + DataOffset(r, 8 * c.words);
    assert buffer == LINE_BYTES * base;
    assert data == LINE_BYTES * (base + c.DataLine(r, 0));
    LineCountOfAligned(base + c.DataLine(r, 0), 8 * c.words);
    LineCountOfAligned(base + c.FlagLine(r), LINE_BYTES);
  }

  lemma LineCountOfAligned(line: nat, len: nat)
    ensures LineCount(LINE_BYTES * line, len) == (len + 63) / LINE_BYTES
  {
    LineOfByte(line, 0);
    LineOfByte(line + (len + 63) / LINE_BYTES, (len + 63) % LINE_BYTES);
  }

  /** Word `index` of a payload lies in its `index / 8`-th line, at word `index % 8`. */
  lemma WordsMatchChannel(c: Config, buffer: nat, r: Role, index: nat)
    requires c.Valid() && buffer % LINE_BYTES == 0 && index < c.words
    ensures
      var addr := buffer + DataOffset(r, 8 * c.words) + 8 * index;
      && addr / LINE_BYTES == buffer / LINE_BYTES + c.DataLine(r, index / 8)
      && addr % LINE_BYTES == 8 * (index % 8)
  {
    LayoutMatchesChannel(c, buffer, r);
    LineOfByte(buffer / LINE_BYTES + c.DataLine(r, index / 8), 8 * (index % 8));
  }

  /** For all accepted arguments, in every run, neither side ever counts an error. */
  lemma AcceptedChannelNeverErrs(args: Args, s: State, events: seq<Event>)
    requires args.InRange() && Accept(args).Some? && Initial(Accept(args).value, s)
    ensures
      var s' := Exec(Accept(args).value, s, events);
      s'.ping.errors == 0 && s'.pong.errors == 0
  {
    ChannelDelivers(Accept(args).value, s, events);
  }
}
