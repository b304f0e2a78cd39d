/** What the transport and the device answer to the requests of et-rs/src/device.rs, and which
    error, if any, an operation that makes several of them ends with. */
module Transport {
  import opened Wrappers

  datatype Error = DeviceStatus | Timeout | Io | Protocol | Limit

  datatype Outcome = Done | Failed(error: Error)

  /** How the response to a command that is done arrives: whole, or too short to hold a status
      word. Or the queue cannot be read, or what is popped is no response. */
  datatype Reply = Whole | Truncated | Broken(io: bool)

  /** What meets a request: what the device has done since the last one, the buffer that is
      mapped, why a push is refused for good, and how a response arrives. */
  datatype Turn<E, O> = Turn(effects: seq<E>, offer: Option<O>, refusal: Option<Error>, reply: Reply)

  /** What a request came to: a buffer was mapped or not; a command was pushed, or refused; a
      command was awaited, which by the deadline was done or not, with success or not. */
  datatype Happening =
    | Offered(ok: bool)
    | Pushed(refusal: Option<Error>)
    | Polled(done: bool, ok: bool, reply: Reply)

  function Mishap(h: Happening): Option<Error> {
    match h
    case Offered(ok) => if ok then None else Some(Io)
    case Pushed(refusal) => refusal
    case Polled(done, ok, reply) =>
      if reply.Broken? then Some(if reply.io then Io else Protocol)
      else if !done then Some(Timeout)
      else if reply.Truncated? then Some(Protocol)
      else if !ok then Some(DeviceStatus)
      else None
  }

  function AsOutcome(mishap: Option<Error>): Outcome {
    match mishap
    case None => Done
    case Some(e) => Failed(e)
  }

  /** How an operation ends: with its first mishap, and well if there is none. */
  function Verdict(log: seq<Happening>): Outcome
    decreases |log|
  {
    if log == [] then Done
    else if Mishap(log[0]).Some? then Failed(Mishap(log[0]).value)
    else Verdict(log[1..])
  }

  /** An operation ends well exactly if nothing went wrong, and otherwise with the error of the
      first request that did. */
  lemma {:induction false} VerdictIs(log: seq<Happening>)
    ensures Verdict(log).Done? <==> forall h | h in log :: Mishap(h).None?
    ensures Verdict(log).Failed? ==>
              exists n | 0 <= n < |log| ::
                Mishap(log[n]) == Some(Verdict(log).error) && forall k | 0 <= k < n :: Mishap(log[k]).None?
    decreases |log|
  {
    if log != [] && Mishap(log[0]).None? {
      VerdictIs(log[1..]);
      if Verdict(log).Failed? {
        var n :| 0 <= n < |log[1..]| && Mishap(log[1..][n]) == Some(Verdict(log).error)
                 && forall k | 0 <= k < n :: Mishap(log[1..][k]).None?;
        var m := n + 1;
        assert Mishap(log[m]) == Some(Verdict(log).error);
        forall k | 0 <= k < m
          ensures Mishap(log[k]).None?
        {
          if k > 0 {
            assert log[k] == log[1..][k - 1];
          }
        }
      }
    }
  }

  /** The request met what the world had for it. Only a want of tags is the driver's own. */
  predicate Met<E, O>(h: Happening, turn: Turn<E, O>) {
    match h
    case Offered(ok) => ok ==> turn.offer.Some?
    case Pushed(refusal) => refusal == turn.refusal || refusal == Some(Limit)
    case Polled(_, _, reply) => reply == turn.reply
  }

  /** Of all requests so far, those after `before` met the world, and `r` is what an operation
      that made them has to report. */
  predicate Told<E, O>(world: nat -> Turn<E, O>, before: seq<Happening>, after: seq<Happening>, r: Outcome) {
    && before <= after
    && (forall n | |before| <= n < |after| :: Met(after[n], world(n)))
    && r == Verdict(after[|before|..])
  }

  /** The same of an operation that reports only whether it went well. */
  ghost predicate Went<E, O>(world: nat -> Turn<E, O>, before: seq<Happening>, after: seq<Happening>, ok: bool) {
    exists r :: Told(world, before, after, r) && r.Done? == ok
  }

  lemma OneWent<E, O>(world: nat -> Turn<E, O>, log: seq<Happening>, h: Happening)
    requires Met(h, world(|log|))
    ensures Went(world, log, log + [h], Mishap(h).None?)
  {
    OneTold(world, log, h);
  }

  lemma NothingWent<E, O>(world: nat -> Turn<E, O>, log: seq<Happening>)
    ensures Went(world, log, log, true)
  {
    NothingTold(world, log);
  }

  lemma WentOn<E, O>(world: nat -> Turn<E, O>, a: seq<Happening>, b: seq<Happening>, c: seq<Happening>, ok: bool)
    requires Went(world, a, b, true) && Went(world, b, c, ok)
    ensures Went(world, a, c, ok)
  {
    hide Told;
    var r :| Told(world, b, c, r) && r.Done? == ok;
    assert Told(world, a, b, Done);
    ToldOn(world, a, b, c, r);
  }

  lemma WentIsOne<E, O>(world: nat -> Turn<E, O>, before: seq<Happening>, after: seq<Happening>)
    ensures !(Went(world, before, after, true) && Went(world, before, after, false))
  {
  }

  lemma ToldFrom<E, O>(world: nat -> Turn<E, O>, before: seq<Happening>, after: seq<Happening>, r: Outcome)
    requires Told(world, before, after, r)
    ensures before <= after
  {
  }

  lemma NothingTold<E, O>(world: nat -> Turn<E, O>, log: seq<Happening>)
    ensures Told(world, log, log, Done)
  {
    assert log[|log|..] == [];
  }

  lemma OneTold<E, O>(world: nat -> Turn<E, O>, log: seq<Happening>, h: Happening)
    requires Met(h, world(|log|))
    ensures Told(world, log, log + [h], AsOutcome(Mishap(h)))
  {
    assert (log + [h])[|log|..] == [h];
    assert Verdict([h][1..]) == Done;
  }

  lemma {:induction false} VerdictOn(a: seq<Happening>, b: seq<Happening>)
    requires Verdict(a) == Done
    ensures Verdict(a + b) == Verdict(b)
    decreases |a|
  {
    if a == [] {
      assert a + b == b;
    } else {
      assert (a + b)[0] == a[0] && (a + b)[1..] == a[1..] + b;
      VerdictOn(a[1..], b);
    }
  }

  /** After a part that went well, the rest decides. */
  lemma ToldOn<E, O>(world: nat -> Turn<E, O>, a: seq<Happening>, b: seq<Happening>, c: seq<Happening>, r: Outcome)
    requires Told(world, a, b, Done) && Told(world, b, c, r)
    ensures Told(world, a, c, r)
  {
    hide Met, Verdict;
    assert c[..|b|] == b && b[..|a|] == a;
    assert c[|a|..] == b[|a|..] + c[|b|..];
    VerdictOn(b[|a|..], c[|b|..]);
    forall n | |a| <= n < |c|
      ensures Met(c[n], world(n))
    {
      if n < |b| {
        assert c[n] == b[n];
      }
    }
  }
}
