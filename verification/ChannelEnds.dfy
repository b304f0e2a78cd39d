/** How the runs of Channel end: when a Minion may time out, what it then reports, and that
    without a timeout both can always complete. */
module ChannelEnds {
  import opened CacheHierarchy
  import opened Channel

  // --- Timeouts -------------------------------------------------------------------

  /** No poll in the run finds its deadline passed. */
  predicate InTime(events: seq<Event>) {
    forall e | e in events && e.Run? :: !e.giveUp
  }

  lemma StepKeepsOk(c: Config, s: State, e: Event)
    requires Shaped(c, s) && s.ping.status.Ok? && s.pong.status.Ok? && (e.Run? ==> !e.giveUp)
    ensures Next(c, s, e).ping.status.Ok? && Next(c, s, e).pong.status.Ok?
  {
    if e.Run? {
      assert Next(c, s, e).Of(e.who).status.Ok?;
    }
  }

  lemma {:induction false} RunKeepsOk(c: Config, s: State, events: seq<Event>)
    requires Shaped(c, s) && s.ping.status.Ok? && s.pong.status.Ok? && InTime(events)
    ensures Exec(c, s, events).ping.status.Ok? && Exec(c, s, events).pong.status.Ok?
    decreases |events|
  {
    if events != [] {
      StepKeepsOk(c, s, events[0]);
      RunKeepsOk(c, Next(c, s, events[0]), events[1..]);
    }
  }

  /** A Minion times out only once the deadline of a poll has passed. */
  lemma NoTimeoutInTime(c: Config, s: State, events: seq<Event>)
    requires Initial(c, s) && InTime(events)
    ensures Exec(c, s, events).ping.status.Ok? && Exec(c, s, events).pong.status.Ok?
  {
    RunKeepsOk(c, s, events);
  }

  /** What a poll leads to: on to the payload if it finds the flag; else, before the deadline,
      to another poll for the same message, and after it to the end of the program, with
      TIMEOUT, the number of the message and the flag that was found. */
  lemma PollOutcome(c: Config, s: State, events: seq<Event>, r: Role, giveUp: bool)
    requires Initial(c, s) && Exec(c, s, events).Of(r).pc.Poll?
    ensures
      var polling := Exec(c, s, events);
      var (m, found, m') := (polling.Of(r), Observed(c, polling, r), Step(c, polling, r, giveUp).Of(r));
      && (found == c.Flag(m.iteration) ==> m'.pc == InvalidateData(0) && m'.status.Ok? && m'.received == m.iteration)
      && (found != c.Flag(m.iteration) && !giveUp ==>
            m'.pc == Invalidate && m'.status.Ok? && m'.iteration == m.iteration
            && m'.sent == m.sent && m'.received == m.received && m'.completed == m.completed)
      && (found != c.Flag(m.iteration) && giveUp ==>
            Retiring(m') && m'.status.Timeout? && m'.failedIteration == m.iteration && m'.lastFlag == found
            && m'.completed == m.iteration - 1)
  {
    InitialInv(c, s);
    ExecKeepsInv(c, s, events);
  }

  /** The poll at which `r` gave up, as the `k`-th event of the run: what it reports. */
  ghost predicate GaveUp(c: Config, s: State, events: seq<Event>, r: Role, k: nat)
    requires Shaped(c, s)
  {
    && k < |events| && events[k] == Run(r, true)
    && (var polling := Exec(c, s, events[..k]);
        var final := Exec(c, s, events).Of(r);
        && polling.Of(r).pc.Poll? && Observed(c, polling, r) != c.Flag(polling.Of(r).iteration)
        && final.failedIteration == polling.Of(r).iteration && final.lastFlag == Observed(c, polling, r))
  }

  lemma {:induction false} ExecAppends(c: Config, s: State, a: seq<Event>, b: seq<Event>)
    requires Shaped(c, s)
    ensures Exec(c, s, a + b) == Exec(c, Exec(c, s, a), b)
    decreases |a|
  {
    if a == [] {
      assert a + b == b;
    } else {
      assert (a + b)[0] == a[0] && (a + b)[1..] == a[1..] + b;
      ExecAppends(c, Next(c, s, a[0]), a[1..], b);
    }
  }

  lemma ExecOne(c: Config, s: State, events: seq<Event>, e: Event)
    requires Shaped(c, s)
    ensures Exec(c, s, events + [e]) == Next(c, Exec(c, s, events), e)
  {
    ExecAppends(c, s, events, [e]);
    assert Exec(c, Next(c, Exec(c, s, events), e), []) == Next(c, Exec(c, s, events), e);
    assert [e][1..] == [];
  }

  /** What the last event of a run does to a Minion's report of a timeout. */
  lemma LastEvent(c: Config, s: State, e: Event, r: Role)
    requires Inv(c, s) && Next(c, s, e).Of(r).status.Timeout?
    ensures s.Of(r).status.Timeout? ==>
              Next(c, s, e).Of(r).failedIteration == s.Of(r).failedIteration
              && Next(c, s, e).Of(r).lastFlag == s.Of(r).lastFlag
    ensures s.Of(r).status.Ok? ==>
              && e == Run(r, true) && s.Of(r).pc.Poll? && Observed(c, s, r) != c.Flag(s.Of(r).iteration)
              && Next(c, s, e).Of(r).failedIteration == s.Of(r).iteration
              && Next(c, s, e).Of(r).lastFlag == Observed(c, s, r)
  {
    assert CountersOk(c, r, s.Of(r));
    if e.Run? && e.who != r {
      assert Next(c, s, e).Of(r) == s.Of(r);
    }
  }

  /** Over whole runs: a Minion that reports TIMEOUT has polled past its deadline, and reports
      the message it was polling for and the flag that it found. */
  lemma {:induction false} TimeoutIsReported(c: Config, s: State, events: seq<Event>, r: Role) returns (k: nat)
    requires Initial(c, s) && Exec(c, s, events).Of(r).status.Timeout?
    ensures GaveUp(c, s, events, r, k)
    decreases |events|
  {
    hide Inv, Initial, Next, Observed;
    InitialInv(c, s);
    k := 0;
    if events != [] {
      var n := |events| - 1;
      var (before, e) := (events[..n], events[n]);
      assert events == before + [e];
      ExecOne(c, s, before, e);
      ExecKeepsInv(c, s, before);
      LastEvent(c, Exec(c, s, before), e, r);
      hide Exec;
      if Exec(c, s, before).Of(r).status.Ok? {
        k := n;
      } else {
        k := TimeoutIsReported(c, s, before, r);
        assert before[..k] == events[..k];
      }
    } else {
      StartIsOk(c, s, r);
    }
  }

  lemma StartIsOk(c: Config, s: State, r: Role)
    requires Initial(c, s)
    ensures Exec(c, s, []).Of(r).status.Ok?
  {
  }

  // --- Errors ----------------------------------------------------------------------

  /** `r` reads a payload word that is not the one it expects. */
  predicate Mismatch(c: Config, s: State, e: Event, r: Role)
    requires Shaped(c, s)
  {
    && e.Run? && e.who == r && s.Of(r).pc.Verify? && s.Of(r).pc.index < c.words
    && Observed(c, s, r) != c.Message(r.Peer(), s.Of(r).iteration, s.Of(r).pc.index)
  }

  function Mismatches(c: Config, s: State, events: seq<Event>, r: Role): nat
    requires Shaped(c, s)
    decreases |events|
  {
    if events == [] then 0
    else (if Mismatch(c, s, events[0], r) then 1 else 0) + Mismatches(c, Next(c, s, events[0]), events[1..], r)
  }

  lemma MismatchIsCounted(c: Config, s: State, e: Event, r: Role)
    requires Shaped(c, s)
    ensures Next(c, s, e).Of(r).errors == s.Of(r).errors + if Mismatch(c, s, e, r) then 1 else 0
  {
    if e.Run? && e.who != r {
      assert Next(c, s, e).Of(r) == s.Of(r);
    }
  }

  /** In any run, from any state at all, every wrong word is counted, once, and nothing else. */
  lemma {:induction false} ErrorsAreMismatches(c: Config, s: State, events: seq<Event>, r: Role)
    requires Shaped(c, s)
    ensures Exec(c, s, events).Of(r).errors == s.Of(r).errors + Mismatches(c, s, events, r)
    decreases |events|
  {
    hide Mismatch, Next, Shaped;
    if events != [] {
      MismatchIsCounted(c, s, events[0], r);
      ErrorsAreMismatches(c, Next(c, s, events[0]), events[1..], r);
    }
  }

  // --- Completion ------------------------------------------------------------------

  /** What a Minion has still to do, in three digits: iterations, phases of this one, and
      accesses of this phase. Polls that fail do not count. */
  function IterationsLeft(c: Config, m: Minion): nat {
    if Retiring(m) || m.iteration > c.iterations then 0 else c.iterations - m.iteration + 1
  }

  function PhasesLeft(r: Role, m: Minion): nat {
    match m.pc
    case Compose(_) => 12
    case WriteBackData(_) => if r.Ping? then 11 else 5
    case RaiseFlag => if r.Ping? then 10 else 4
    case WriteBackFlag => if r.Ping? then 9 else 3
    case Invalidate => 8
    case Poll => 8
    case InvalidateData(_) => 7
    case Verify(_) => 6
    case Reply(_, _) => 6
    case RetireData(_) => 2
    case RetireFlag => 1
    case Finished => 0
  }

  function AccessesLeft(c: Config, m: Minion): nat {
    match m.pc
    case Compose(k) => if k <= c.words then c.words - k + 1 else 0
    case WriteBackData(j) => if j <= c.DataLines() then c.DataLines() - j + 1 else 0
    case InvalidateData(j) => if j <= c.DataLines() then c.DataLines() - j + 1 else 0
    case Verify(k) => if k <= c.words then 2 * (c.words - k) + 1 else 0
    case Reply(k, _) => if k <= c.words then 2 * (c.words - k) else 0
    case RetireData(j) => if j <= c.DataLines() then c.DataLines() - j + 1 else 0
    case _ => 0
  }

  predicate Closer(c: Config, r: Role, m: Minion, m': Minion) {
    || IterationsLeft(c, m') < IterationsLeft(c, m)
    || (IterationsLeft(c, m') == IterationsLeft(c, m)
        && (|| PhasesLeft(r, m') < PhasesLeft(r, m)
            || (PhasesLeft(r, m') == PhasesLeft(r, m) && AccessesLeft(c, m') < AccessesLeft(c, m))))
  }

  /** Every step but a failed poll, and the invalidation before one, brings its Minion closer
      to its end. */
  lemma AdvanceIsCloser(c: Config, r: Role, m: Minion, observed: Word)
    requires c.Valid() && ShapedMinion(c, m) && CountersOk(c, r, m) && !m.pc.Finished? && !m.pc.Invalidate?
    requires m.pc.Poll? ==> observed == c.Flag(m.iteration)
    ensures Closer(c, r, m, Advance(c, r, m, observed, false))
  {
    hide Config.DataLines;
  }

  /** A state that a run without a timeout reaches. */
  ghost predicate Going(c: Config, s: State) {
    Inv(c, s) && s.ping.status.Ok? && s.pong.status.Ok?
  }

  lemma StepKeepsGoing(c: Config, s: State, r: Role)
    requires Going(c, s)
    ensures Going(c, Step(c, s, r, false))
  {
    NextKeepsInv(c, s, Run(r, false));
    StepKeepsOk(c, s, Run(r, false));
  }

  /** One step of `r`, of those that count. */
  lemma OneStep(c: Config, s: State, r: Role) returns (events: seq<Event>)
    requires Going(c, s) && !s.Of(r).pc.Finished? && !s.Of(r).pc.Invalidate?
    requires s.Of(r).pc.Poll? ==> Observed(c, s, r) == c.Flag(s.Of(r).iteration)
    ensures InTime(events) && Going(c, Exec(c, s, events)) && Exec(c, s, events).Of(r.Peer()) == s.Of(r.Peer())
    ensures Closer(c, r, s.Of(r), Exec(c, s, events).Of(r))
  {
    events := [Run(r, false)];
    assert CountersOk(c, r, s.Of(r));
    AdvanceIsCloser(c, r, s.Of(r), Observed(c, s, r));
    StepKeepsGoing(c, s, r);
    ExecOne(c, s, [], Run(r, false));
    hide Inv, Advance, Closer;
  }

  lemma StepThen(c: Config, s: State, r: Role, rest: seq<Event>)
    requires Shaped(c, s)
    ensures Exec(c, s, [Run(r, false)] + rest) == Exec(c, Step(c, s, r, false), rest)
  {
    assert ([Run(r, false)] + rest)[1..] == rest;
  }

  lemma PollsAlike(c: Config, r: Role, m: Minion, m': Minion, later: Minion)
    requires Polling(m) && Polling(m') && m' == m.(pc := m'.pc) && Closer(c, r, m', later)
    ensures Closer(c, r, m, later)
  {
  }

  /** From the invalidation on. */
  lemma InvalidateThenPoll(c: Config, s: State, r: Role) returns (events: seq<Event>)
    requires Going(c, s) && s.Of(r).pc.Invalidate? && Announced(s, r)
    ensures InTime(events) && Going(c, Exec(c, s, events)) && Exec(c, s, events).Of(r.Peer()) == s.Of(r.Peer())
    ensures Closer(c, r, s.Of(r), Exec(c, s, events).Of(r))
  {
    var mid := Step(c, s, r, false);
    StepKeepsGoing(c, s, r);
    PublishedIsObserved(c, s, r, [], false);
    assert mid.Of(r) == s.Of(r).(pc := Poll) && Exec(c, mid, []) == mid;
    hide Going, Closer, Announced, Step, Observed;
    var rest := OneStep(c, mid, r);
    PollsAlike(c, r, s.Of(r), mid.Of(r), Exec(c, mid, rest).Of(r));
    StepThen(c, s, r, rest);
    events := [Run(r, false)] + rest;
  }

  /** A Minion that polls for a message already announced gets it: at once, or after one more
      invalidation. */
  lemma PollSucceeds(c: Config, s: State, r: Role) returns (events: seq<Event>)
    requires Going(c, s) && Polling(s.Of(r)) && Announced(s, r)
    ensures InTime(events) && Going(c, Exec(c, s, events)) && Exec(c, s, events).Of(r.Peer()) == s.Of(r.Peer())
    ensures Closer(c, r, s.Of(r), Exec(c, s, events).Of(r))
  {
    if s.Of(r).pc.Invalidate? {
      events := InvalidateThenPoll(c, s, r);
    } else if Observed(c, s, r) == c.Flag(s.Of(r).iteration) {
      events := OneStep(c, s, r);
    } else {
      var mid := Step(c, s, r, false);
      StepKeepsGoing(c, s, r);
      assert mid.Of(r) == s.Of(r).(pc := Invalidate) && Announced(mid, r);
      hide Going, Closer, Announced, Step, Observed;
      var rest := InvalidateThenPoll(c, mid, r);
      PollsAlike(c, r, s.Of(r), mid.Of(r), Exec(c, mid, rest).Of(r));
      StepThen(c, s, r, rest);
      events := [Run(r, false)] + rest;
    }
  }

  /** Some Minion can come closer to its end. */
  lemma SomeoneComesCloser(c: Config, s: State) returns (r: Role, events: seq<Event>)
    requires Going(c, s) && !(s.ping.pc.Finished? && s.pong.pc.Finished?)
    ensures InTime(events) && Going(c, Exec(c, s, events)) && Exec(c, s, events).Of(r.Peer()) == s.Of(r.Peer())
    ensures Closer(c, r, s.Of(r), Exec(c, s, events).Of(r))
  {
    r := SomeoneMoves(c, s);
    hide Closer, Going;
    if Polling(s.Of(r)) {
      events := PollSucceeds(c, s, r);
    } else {
      events := OneStep(c, s, r);
    }
  }

  lemma SomeoneMoves(c: Config, s: State) returns (r: Role)
    requires Going(c, s) && !(s.ping.pc.Finished? && s.pong.pc.Finished?)
    ensures !s.Of(r).pc.Finished? && (Polling(s.Of(r)) ==> Announced(s, r))
  {
    r := if s.ping.pc.Finished? || (Polling(s.ping) && !Announced(s, Ping)) then Pong else Ping;
    assert CountersOk(c, Ping, s.ping) && CountersOk(c, Pong, s.pong);
  }

  lemma InTimeBoth(a: seq<Event>, b: seq<Event>)
    requires InTime(a) && InTime(b)
    ensures InTime(a + b)
  {
  }

  /** What both have still to do, digit by digit. */
  function Iterations(c: Config, s: State): nat {
    IterationsLeft(c, s.ping) + IterationsLeft(c, s.pong)
  }

  function Phases(s: State): nat {
    PhasesLeft(Ping, s.ping) + PhasesLeft(Pong, s.pong)
  }

  function Accesses(c: Config, s: State): nat {
    AccessesLeft(c, s.ping) + AccessesLeft(c, s.pong)
  }

  lemma BothAreCloser(c: Config, s: State, s': State, r: Role)
    requires s'.Of(r.Peer()) == s.Of(r.Peer()) && Closer(c, r, s.Of(r), s'.Of(r))
    ensures Iterations(c, s') <= Iterations(c, s)
    ensures Iterations(c, s') == Iterations(c, s) ==>
              Phases(s') < Phases(s) || (Phases(s') == Phases(s) && Accesses(c, s') < Accesses(c, s))
  {
    hide IterationsLeft, PhasesLeft, AccessesLeft;
  }

  lemma {:induction false} BothComplete(c: Config, s: State) returns (events: seq<Event>)
    requires Going(c, s)
    ensures
      var s' := Exec(c, s, events);
      InTime(events) && Going(c, s') && s'.ping.pc.Finished? && s'.pong.pc.Finished?
    decreases Iterations(c, s), Phases(s), Accesses(c, s)
  {
    hide MinionOk, LinesOk, TurnsOk, Exec, InTime, Shaped, Closer, Iterations, Phases, Accesses;
    events := [];
    if !(s.ping.pc.Finished? && s.pong.pc.Finished?) {
      var r, first := SomeoneComesCloser(c, s);
      var mid := Exec(c, s, first);
      BothAreCloser(c, s, mid, r);
      var rest := BothComplete(c, mid);
      ExecAppends(c, s, first, rest);
      InTimeBoth(first, rest);
      events := first + rest;
    } else {
      NothingToDo(c, s);
    }
  }

  lemma NothingToDo(c: Config, s: State)
    requires Shaped(c, s)
    ensures InTime([]) && Exec(c, s, []) == s
  {
  }

  /** From wherever a run without a timeout has led, both Minions can complete all their
      iterations, with status OK and no error. */
  lemma LaunchCanComplete(c: Config, s: State, events: seq<Event>) returns (rest: seq<Event>)
    requires Initial(c, s)
    requires Exec(c, s, events).ping.status.Ok? && Exec(c, s, events).pong.status.Ok?
    ensures
      var s' := Exec(c, s, events + rest);
      && InTime(rest)
      && forall r: Role :: s'.Of(r).pc.Finished? && s'.Of(r).status.Ok? && s'.Of(r).completed == c.iterations
                           && s'.Of(r).errors == 0
  {
    InitialInv(c, s);
    ExecKeepsInv(c, s, events);
    rest := BothComplete(c, Exec(c, s, events));
    ExecAppends(c, s, events, rest);
    var s' := Exec(c, s, events + rest);
    forall r: Role
      ensures s'.Of(r).pc.Finished? && s'.Of(r).status.Ok? && s'.Of(r).completed == c.iterations && s'.Of(r).errors == 0
    {
      assert CountersOk(c, r, s'.Of(r));
    }
  }
}
