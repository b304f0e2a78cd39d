/** The lock-free single-producer, single-consumer ring of et-k-rs/src/bin/spsc.rs: two
    harts that take turns in any way, one shared access at a time, on coherent memory. */
module Spsc {
  import Arith

  const CAP: nat := 256
  const WORD: nat := 0x1_0000_0000
  const DWORD: nat := 0x1_0000_0000_0000_0000
  const GO: nat := 0x600D_600D

  type U32 = n: nat | n < WORD

  function Wrap(n: nat): U32 {
    n % WORD
  }

  /** `wrapping_sub`. */
  function Minus(a: U32, b: U32): U32 {
    if a >= b then a - b else a + WORD - b
  }

  function Payload(i: nat): U32 {
    Wrap(i + 1)
  }

  /** The number of items, and how often a wait may find nothing before it gives up. */
  datatype Config = Config(items: nat, spinMax: nat)

  datatype Shared = Shared(tail: U32, head: U32, go: U32, ring: seq<U32>)

  /** What the producer does next: initialise, wait for room, write the slot, publish it. */
  datatype ProducerPc = InitTail | InitHead | SetGo | ReadHead | WriteSlot | WriteTail | Sent

  datatype Producer = Producer(pc: ProducerPc, tail: U32, i: nat, spins: nat, ok: bool)

  /** What the consumer does next: wait to start, wait for an item, read it, free the slot. */
  datatype ConsumerPc = ReadGo | ReadTail | ReadSlot | WriteHead | Received

  datatype Consumer = Consumer(pc: ConsumerPc, head: U32, i: nat, sum: nat, errors: nat, spins: nat, ok: bool)

  /** Both harts and their memory, and every value the consumer has read from the ring. */
  datatype State = State(shared: Shared, p: Producer, c: Consumer, read: seq<U32>)

  function ProducerNext(g: Config, p: Producer): ProducerPc {
    if p.i < g.items then ReadHead else Sent
  }

  function ConsumerNext(g: Config, i: nat): ConsumerPc {
    if i < g.items then ReadTail else Received
  }

  function StepProducer(g: Config, s: State): State
    requires |s.shared.ring| == CAP
  {
    var (m, p) := (s.shared, s.p);
    match p.pc
    case InitTail => s.(shared := m.(tail := 0), p := p.(pc := InitHead))
    case InitHead => s.(shared := m.(head := 0), p := p.(pc := SetGo))
    case SetGo => s.(shared := m.(go := GO), p := p.(pc := ProducerNext(g, p)))
    case ReadHead =>
      if Minus(p.tail, m.head) < CAP then s.(p := p.(pc := WriteSlot, spins := 0))
      else if p.spins + 1 > g.spinMax then s.(p := p.(pc := Sent, ok := false))
      else s.(p := p.(spins := p.spins + 1))
    case WriteSlot =>
      s.(shared := m.(ring := m.ring[p.tail % CAP := Payload(p.i)]), p := p.(pc := WriteTail))
    case WriteTail =>
      var tail := Wrap(p.tail + 1);
      var done := p.(tail := tail, i := p.i + 1);
      s.(shared := m.(tail := tail), p := done.(pc := ProducerNext(g, done)))
    case Sent => s
  }

  function StepConsumer(g: Config, s: State): State
    requires |s.shared.ring| == CAP
  {
    var (m, c) := (s.shared, s.c);
    match c.pc
    case ReadGo =>
      if m.go == GO then s.(c := c.(pc := ConsumerNext(g, 0), spins := 0))
      else if c.spins + 1 > g.spinMax then s.(c := c.(pc := Received, ok := false))
      else s.(c := c.(spins := c.spins + 1))
    case ReadTail =>
      if m.tail != c.head then s.(c := c.(pc := ReadSlot, spins := 0))
      else if c.spins + 1 > g.spinMax then s.(c := c.(pc := Received, ok := false))
      else s.(c := c.(spins := c.spins + 1))
    case ReadSlot =>
      var v := m.ring[c.head % CAP];
      s.(read := s.read + [v],
         c := c.(pc := WriteHead, errors := c.errors + (if v != Payload(c.i) then 1 else 0),
                 sum := (c.sum + v) % DWORD))
    case WriteHead =>
      var head := Wrap(c.head + 1);
      s.(shared := m.(head := head), c := c.(pc := ConsumerNext(g, c.i + 1), head := head, i := c.i + 1))
    case Received => s
  }

  datatype Side = ByProducer | ByConsumer

  function Step(g: Config, s: State, side: Side): State
    requires |s.shared.ring| == CAP
  {
    if side == ByProducer then StepProducer(g, s) else StepConsumer(g, s)
  }

  function Run(g: Config, s: State, schedule: seq<Side>): (r: State)
    requires |s.shared.ring| == CAP
    ensures |r.shared.ring| == CAP
    decreases |schedule|
  {
    if schedule == [] then s else Run(g, Step(g, s, schedule[0]), schedule[1..])
  }

  /** A launch, on whatever the memory holds. */
  function Start(shared: Shared): State {
    State(shared, Producer(InitTail, 0, 0, 0, true), Consumer(ReadGo, 0, 0, 0, 0, 0, true), [])
  }

  /** The sentinel is not there yet, as in a freshly loaded image, or else the tail says that
      the ring is empty. */
  predicate Clean(shared: Shared) {
    shared.go != GO || shared.tail == 0
  }

  predicate Initial(s: State) {
    |s.shared.ring| == CAP && Clean(s.shared) && s == Start(s.shared)
  }

  // --- What every step keeps ---------------------------------------------------------

  predicate Starting(p: Producer) {
    p.pc.InitTail? || p.pc.InitHead? || p.pc.SetGo?
  }

  /** 1 + 2 + ... + n. */
  function Triangle(n: nat): nat {
    if n == 0 then 0 else Triangle(n - 1) + n
  }

  predicate ReadsOk(s: State) {
    && |s.read| == s.c.i + (if s.c.pc.WriteHead? then 1 else 0)
    && (forall k | 0 <= k < |s.read| :: s.read[k] == Payload(k))
    && s.c.errors == 0
    && (|s.read| < WORD ==> s.c.sum == Triangle(|s.read|) % DWORD)
  }

  /** The slots of the items sent and not yet consumed hold those items. */
  predicate SlotsOk(s: State)
    requires |s.shared.ring| == CAP
  {
    forall k | s.c.i <= k < s.p.i :: s.shared.ring[k % CAP] == Payload(k)
  }

  predicate IndicesOk(s: State) {
    && s.c.i <= s.p.i <= s.c.i + CAP
    && s.p.tail == Wrap(s.p.i) && s.c.head == Wrap(s.c.i)
    && (!s.p.pc.InitTail? ==> s.shared.tail == s.p.tail)
    && (!Starting(s.p) || s.p.pc.SetGo? ==> s.shared.head == s.c.head)
  }

  /** Before the producer has started, the consumer has at most seen an old sentinel. */
  predicate ConsumerWaits(s: State) {
    s.c.pc.ReadGo? || (s.c.pc.ReadTail? && s.shared.tail == 0) || s.c.pc.Received?
  }

  predicate PcsOk(g: Config, s: State) {
    && (if Starting(s.p) then s.p.i == 0 && s.c.i == 0 && Clean(s.shared) && ConsumerWaits(s) else s.shared.go == GO)
    && (!s.p.ok ==> s.p.pc.Sent?) && (!s.c.ok ==> s.c.pc.Received?)
    && (s.p.pc.WriteSlot? || s.p.pc.WriteTail? ==> s.p.i < s.c.i + CAP)
    && (s.p.pc.WriteTail? ==> |s.shared.ring| == CAP && s.shared.ring[s.p.i % CAP] == Payload(s.p.i))
    && (s.c.pc.ReadGo? ==> s.c.i == 0)
    && (s.c.pc.ReadSlot? || s.c.pc.WriteHead? ==> s.c.i < s.p.i)
    && s.p.i <= g.items && s.c.i <= g.items
    && (s.p.pc.ReadHead? || s.p.pc.WriteSlot? || s.p.pc.WriteTail? ==> s.p.i < g.items)
    && (s.c.pc.ReadTail? || s.c.pc.ReadSlot? || s.c.pc.WriteHead? ==> s.c.i < g.items)
    && (s.p.pc.Sent? && s.p.ok ==> s.p.i == g.items)
    && (s.c.pc.Received? && s.c.ok ==> s.c.i == g.items)
  }

  predicate Inv(g: Config, s: State) {
    |s.shared.ring| == CAP && ReadsOk(s) && SlotsOk(s) && IndicesOk(s) && PcsOk(g, s)
  }

  lemma WrapFacts(n: nat)
    ensures Wrap(n) % CAP == n % CAP
    ensures Wrap(Wrap(n) + 1) == Wrap(n + 1)
  {
    var q, r := n / WORD, n % WORD;
    Arith.DivModUnique(n, CAP, WORD / CAP * q + r / CAP, r % CAP);
    Arith.DivModUnique(n + 1, WORD, if r + 1 < WORD then q else q + 1, if r + 1 < WORD then r + 1 else 0);
  }

  /** What a wrapped difference of counters tells about the counters. */
  lemma MinusIsDistance(p: nat, c: nat)
    requires c <= p <= c + CAP
    ensures Minus(Wrap(p), Wrap(c)) == p - c
    ensures Wrap(p) == Wrap(c) <==> p == c
  {
  }

  /** The slot the producer writes holds no item that the consumer still has to read. */
  lemma SlotIsFree(p: nat, c: nat, k: nat)
    requires c <= k < p < c + CAP
    ensures k % CAP != p % CAP
  {
  }

  lemma SumAdds(n: nat, sum: nat)
    requires n + 1 < WORD && sum == Triangle(n) % DWORD
    ensures (sum + Payload(n)) % DWORD == Triangle(n + 1) % DWORD
  {
    var t := Triangle(n);
    var low := sum + n + 1;
    assert t + n + 1 == DWORD * (t / DWORD) + low;
    if low < DWORD {
      Arith.DivModUnique(t + n + 1, DWORD, t / DWORD, low);
    } else {
      Arith.DivModUnique(t + n + 1, DWORD, t / DWORD + 1, low - DWORD);
    }
  }

  lemma ProducerKeepsInv(g: Config, s: State)
    requires Inv(g, s)
    ensures Inv(g, StepProducer(g, s))
  {
    WrapFacts(s.p.i);
    if !Starting(s.p) {
      MinusIsDistance(s.p.i, s.c.i);
    }
    if s.p.pc.WriteSlot? {
      forall k | s.c.i <= k < s.p.i
        ensures k % CAP != s.p.i % CAP
      {
        SlotIsFree(s.p.i, s.c.i, k);
      }
    }
    hide Wrap, Triangle;
  }

  /** The consumer reads the item that the producer sent in the same position. */
  lemma ReadSlotKeepsReads(g: Config, s: State)
    requires Inv(g, s) && s.c.pc.ReadSlot?
    ensures ReadsOk(StepConsumer(g, s))
  {
    WrapFacts(s.c.i);
    assert s.shared.ring[s.c.i % CAP] == Payload(s.c.i);
    if s.c.i + 1 < WORD {
      SumAdds(s.c.i, s.c.sum);
    }
    hide Wrap, Triangle, Payload;
  }

  lemma ConsumerKeepsInv(g: Config, s: State)
    requires Inv(g, s)
    ensures Inv(g, StepConsumer(g, s))
  {
    WrapFacts(s.c.i);
    MinusIsDistance(s.p.i, s.c.i);
    if s.c.pc.ReadSlot? {
      ReadSlotKeepsReads(g, s);
    }
    hide Wrap, Triangle, Payload;
  }

  lemma {:induction false} RunKeepsInv(g: Config, s: State, schedule: seq<Side>)
    requires Inv(g, s)
    ensures Inv(g, Run(g, s, schedule))
    decreases |schedule|
  {
    if schedule != [] {
      if schedule[0] == ByProducer {
        ProducerKeepsInv(g, s);
      } else {
        ConsumerKeepsInv(g, s);
      }
      RunKeepsInv(g, Step(g, s, schedule[0]), schedule[1..]);
    }
  }

  // --- Main results ---------------------------------------------------------------------

  predicate Fifo(s: State) {
    forall k | 0 <= k < |s.read| :: s.read[k] == Payload(k)
  }

  /** In every interleaving the consumer's reads are the items in order, and the number of
      items sent but not consumed stays within the capacity. */
  lemma RingIsFifo(g: Config, start: State, schedule: seq<Side>)
    requires Initial(start)
    ensures
      var s := Run(g, start, schedule);
      && Fifo(s)
      && s.c.i <= s.p.i <= s.c.i + CAP
      && s.c.i <= |s.read| <= s.p.i
  {
    RunKeepsInv(g, start, schedule);
  }

  /** Launched once more on its own memory, with the tail that the last launch has left, the
      consumer takes a stale word for the first item before the producer has done anything. */
  lemma StaleWordIsRead(g: Config, shared: Shared, schedule: seq<Side>)
    requires g.items > 0 && |shared.ring| == CAP && !Clean(shared)
    requires schedule == [ByConsumer, ByConsumer, ByConsumer]
    ensures
      var s := Run(g, Start(shared), schedule);
      s.read == [shared.ring[0]] && s.c.errors == if shared.ring[0] == Payload(0) then 0 else 1
  {
    var s0 := Start(shared);
    var s1 := Step(g, s0, ByConsumer);
    var s2 := Step(g, s1, ByConsumer);
    var s3 := Step(g, s2, ByConsumer);
    assert schedule[1..] == [ByConsumer, ByConsumer] && schedule[1..][1..] == [ByConsumer];
    assert Run(g, s2, [ByConsumer]) == Run(g, s3, [ByConsumer][1..]) == s3;
    assert Run(g, s1, [ByConsumer, ByConsumer]) == Run(g, s2, [ByConsumer, ByConsumer][1..]);
  }

  /** The ring is a queue for all contents and all schedules if and only if it is clean at the
      start. */
  lemma FifoIff(g: Config, shared: Shared)
    requires g.items > 0 && |shared.ring| == CAP
    ensures (forall ring: seq<U32>, schedule | |ring| == CAP :: Fifo(Run(g, Start(shared.(ring := ring)), schedule))) <==>
            Clean(shared)
  {
    if Clean(shared) {
      forall ring: seq<U32>, schedule | |ring| == CAP
        ensures Fifo(Run(g, Start(shared.(ring := ring)), schedule))
      {
        RingIsFifo(g, Start(shared.(ring := ring)), schedule);
      }
    } else {
      var ring := shared.ring[0 := 0];
      var schedule := [ByConsumer, ByConsumer, ByConsumer];
      StaleWordIsRead(g, shared.(ring := ring), schedule);
      assert !Fifo(Run(g, Start(shared.(ring := ring)), schedule));
    }
  }

  /** A launch that has sent all its items leaves the memory unfit for another, except if their
      number wraps to zero. */
  lemma RelaunchIsUnclean(g: Config, start: State, schedule: seq<Side>)
    requires Initial(start)
    ensures
      var s := Run(g, start, schedule);
      s.p.pc.Sent? && s.p.ok ==> (Clean(s.shared) <==> Wrap(g.items) == 0)
  {
    RunKeepsInv(g, start, schedule);
  }

  /** When the producer writes a slot, every item in that slot has been read. */
  lemma NoSlotIsOverwrittenUnread(g: Config, start: State, schedule: seq<Side>, k: nat)
    requires Initial(start)
    ensures
      var s := Run(g, start, schedule);
      s.p.pc.WriteSlot? && k < s.p.i && k % CAP == s.p.tail % CAP ==> k < s.c.i
  {
    RunKeepsInv(g, start, schedule);
    var s := Run(g, start, schedule);
    WrapFacts(s.p.i);
    if s.p.pc.WriteSlot? && s.c.i <= k < s.p.i {
      SlotIsFree(s.p.i, s.c.i, k);
    }
  }

  /** What the consumer reports as PASS. */
  predicate Pass(g: Config, c: Consumer) {
    c.pc.Received? && c.ok && c.errors == 0 && c.i == g.items && c.sum == g.items * (g.items + 1) / 2
  }

  lemma {:induction false} TriangleIsProduct(n: nat)
    ensures 2 * Triangle(n) == n * (n + 1)
    decreases n
  {
    if n > 0 {
      TriangleIsProduct(n - 1);
    }
  }

  /** For any number of items that a 32-bit count can express, a consumer that ends without
      a timeout reports PASS, and it ends either way with an exact prefix of the items. */
  lemma ConsumerPassesIffNoTimeout(g: Config, start: State, schedule: seq<Side>)
    requires Initial(start) && g.items < WORD
    ensures
      var s := Run(g, start, schedule);
      s.c.pc.Received? ==> (Pass(g, s.c) <==> s.c.ok)
  {
    RunKeepsInv(g, start, schedule);
    var s := Run(g, start, schedule);
    SumOfAll(g.items);
    hide Run, Triangle, Payload, SlotsOk, IndicesOk;
  }

  lemma SumOfAll(n: nat)
    requires n < WORD
    ensures Triangle(n) % DWORD == n * (n + 1) / 2
  {
    TriangleIsProduct(n);
    TriangleIsSmall(n);
  }

  lemma TriangleIsSmall(n: nat)
    requires n < WORD
    ensures Triangle(n) < DWORD
  {
    TriangleIsProduct(n);
    Arith.MulMonotone(n, WORD, n + 1);
  }

  /** A poll that finds nothing. */
  predicate Spins(s: State, side: Side)
  {
    if side == ByProducer then s.p.pc.ReadHead? && Minus(s.p.tail, s.shared.head) >= CAP
    else (s.c.pc.ReadGo? && s.shared.go != GO) || (s.c.pc.ReadTail? && s.shared.tail == s.c.head)
  }

  predicate Finished(s: State, side: Side) {
    if side == ByProducer then s.p.pc.Sent? else s.c.pc.Received?
  }

  lemma {:induction false} RunLast(g: Config, s: State, schedule: seq<Side>)
    requires |s.shared.ring| == CAP && schedule != []
    ensures Run(g, s, schedule) == Step(g, Run(g, s, schedule[..|schedule| - 1]), schedule[|schedule| - 1])
    decreases |schedule|
  {
    var n := |schedule| - 1;
    if n == 0 {
      assert schedule[1..] == [];
    } else {
      RunLast(g, Step(g, s, schedule[0]), schedule[1..]);
      assert schedule[1..][..n - 1] == schedule[..n][1..] && schedule[1..][n - 1] == schedule[n];
    }
  }

  /** How many polls of `side` have found nothing since it last did something else. */
  function EmptyPolls(g: Config, s: State, schedule: seq<Side>, side: Side): nat
    requires |s.shared.ring| == CAP
    decreases |schedule|
  {
    if schedule == [] then 0
    else
      var (earlier, last) := (schedule[..|schedule| - 1], schedule[|schedule| - 1]);
      var before := Run(g, s, earlier);
      if last != side || Finished(before, side) then EmptyPolls(g, s, earlier, side)
      else if Spins(before, side) then EmptyPolls(g, s, earlier, side) + 1
      else 0
  }

  /** A hart gives up exactly when it has polled more than `spinMax` times in a row and found
      nothing, on whatever memory it was launched. */
  lemma {:induction false} TimesOutIff(g: Config, shared: Shared, schedule: seq<Side>)
    requires |shared.ring| == CAP
    ensures
      var s := Run(g, Start(shared), schedule);
      var (produced, consumed) := (EmptyPolls(g, Start(shared), schedule, ByProducer),
                                   EmptyPolls(g, Start(shared), schedule, ByConsumer));
      && (!s.p.ok <==> produced > g.spinMax) && (!s.c.ok <==> consumed > g.spinMax)
      && (s.p.ok ==> s.p.spins == produced) && (s.c.ok ==> s.c.spins == consumed)
      && (s.p.ok && !s.p.pc.ReadHead? ==> produced == 0)
      && (s.c.ok && !s.c.pc.ReadGo? && !s.c.pc.ReadTail? ==> consumed == 0)
      && (!s.p.ok ==> s.p.pc.Sent?) && (!s.c.ok ==> s.c.pc.Received?)
    decreases |schedule|
  {
    if schedule != [] {
      TimesOutIff(g, shared, schedule[..|schedule| - 1]);
      RunLast(g, Start(shared), schedule);
      hide Run;
    }
  }

  /** The two harts are never both stuck: unless one has timed out, a hart that has not
      finished has a step to take that is not an unsuccessful poll. */
  lemma SomeoneCanMove(g: Config, start: State, schedule: seq<Side>) returns (side: Side)
    requires Initial(start)
    ensures
      var s := Run(g, start, schedule);
      s.p.ok && s.c.ok && !(s.p.pc.Sent? && s.c.pc.Received?) ==>
        && !Spins(s, side)
        && (if side == ByProducer then !s.p.pc.Sent? else !s.c.pc.Received?)
  {
    RunKeepsInv(g, start, schedule);
    var s := Run(g, start, schedule);
    side := if s.p.pc.Sent? || Spins(s, ByProducer) then ByConsumer else ByProducer;
    if !Starting(s.p) {
      MinusIsDistance(s.p.i, s.c.i);
    }
  }
}
