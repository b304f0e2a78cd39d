/** The command methods of `Device` in et-rs/src/device.rs, updating its tag tables in
    place, over a device that answers when and in what order it likes. What the transport
    and the device do is an argument of each method, and the method is proved to be the
    sequence of the events of Commands that follows from it. */
module Driver {
  import opened Commands
  import opened Wrappers

  /** `DEV_OPS_API_DMA_RESPONSE_COMPLETE`. */
  const DMA_COMPLETE: nat := 0

  /** How the collection of one command ended. */
  datatype Collected = Answer(response: Response) | Failed

  /** What one poll of the completion queue finds before the deadline: the answer to a command,
      nothing yet, or a queue that cannot be read. */
  datatype Turn = Popped(id: nat, status: Option<nat>) | Empty | Broken

  /** A handle such as `PendingLaunch`: the tag, and the command it was issued for. */
  datatype Handle = Handle(tag: Tag, id: nat)

  // --- What a wait comes to -----------------------------------------------------------

  /** The answer to `id` is popped by these polls. */
  predicate Arrives(id: nat, polls: seq<Turn>)
    decreases |polls|
  {
    && polls != [] && !polls[0].Broken?
    && ((polls[0].Popped? && polls[0].id == id) || Arrives(id, polls[1..]))
  }

  /** The events of waiting for `id` with these polls. */
  function Wait(id: nat, polls: seq<Turn>): seq<Event>
    decreases |polls|
  {
    if polls == [] || polls[0].Broken? then [GiveUp(id)]
    else if polls[0].Empty? then Wait(id, polls[1..])
    else
      [Receive(id, polls[0].id, polls[0].status)]
      + if polls[0].id == id then [] else Wait(id, polls[1..])
  }

  /** The events of collecting the response to `id`. */
  function Collection(s: System, id: nat, polls: seq<Turn>): seq<Event> {
    if HasStashed(s, id) then [TakeStashed(id)] else Wait(id, polls)
  }

  predicate WaitsFor(s: System, h: Handle) {
    h.id in s.waiting && h.id in s.issued && s.issued[h.id] == h.tag
  }

  /** The command was answered, with the report that it completed. */
  predicate Completed(s: System, id: nat) {
    id in s.answered && s.answered[id] == Some(DMA_COMPLETE)
  }

  /** Collecting the commands of `hs` in turn, each with its polls, up to the first that has
      not completed: what becomes of the tables, and how many completed. */
  function Awaited(s: System, hs: seq<Handle>, polls: seq<seq<Turn>>): (System, nat)
    requires |polls| == |hs|
    decreases |hs|
  {
    if hs == [] then (s, 0)
    else
      var s' := Exec(s, Collection(s, hs[0].id, polls[0]));
      if Completed(s', hs[0].id) then
        var (end, n) := Awaited(s', hs[1..], polls[1..]);
        (end, n + 1)
      else (s', 0)
  }

  /** The answer to the awaited command is handed over, any other is parked. */
  lemma ReceiveIs(s: System, id: nat, answer: nat, status: Option<nat>)
    requires Inv(s) && Polls(s, id) && answer in s.unanswered
    ensures
      var s' := Next(s, Receive(id, answer, status));
      var rsp := Response(s.issued[answer], status, answer);
      var popped := Answered(s, answer, status);
      && Inv(s')
      && (if answer == id then rsp.tag == s.issued[id] && s' == Deliver(popped, s.host, id, rsp)
          else rsp.tag != s.issued[id] && s' == popped.(host := Commands.Park(s.host, rsp)) && Polls(s', id))
  {
    NextKeepsInv(s, Receive(id, answer, status));
  }

  /** A poll that does not bring the awaited answer leaves the wait as it would have been
      without it, after its own effect. */
  lemma WaitStep(s: System, id: nat, turn: Turn, rest: seq<Turn>)
    requires Inv(s) && Polls(s, id) && !turn.Broken? && !(turn.Popped? && turn.id == id)
    ensures
      var s' := if turn.Popped? then Next(s, Receive(id, turn.id, turn.status)) else s;
      && Inv(s') && Polls(s', id) && s'.waiting == s.waiting && s'.issued == s.issued && s'.delivered == s.delivered
      && (turn.Popped? && turn.id !in s.unanswered ==> s' == s)
      && Exec(s, Wait(id, [turn] + rest)) == Exec(s', Wait(id, rest))
  {
    assert ([turn] + rest)[1..] == rest;
    if turn.Popped? {
      var e := Receive(id, turn.id, turn.status);
      assert ([e] + Wait(id, rest))[1..] == Wait(id, rest);
      if turn.id in s.unanswered {
        ReceiveIs(s, id, turn.id, turn.status);
      }
      hide Inv;
    }
  }

  /** Waiting with the polls from the `n`-th on in state `s` is what remains to be done. */
  ghost predicate WaitOnCourse(was: System, id: nat, polls: seq<Turn>, s: System, n: nat) {
    && n <= |polls| && Inv(s) && Polls(s, id) && s.issued == was.issued
    && Exec(s, Wait(id, polls[n..])) == Exec(was, Wait(id, polls))
    && (Arrives(id, polls[n..]) <==> Arrives(id, polls))
  }

  lemma WaitStarts(was: System, id: nat, polls: seq<Turn>)
    requires Inv(was) && Polls(was, id)
    ensures WaitOnCourse(was, id, polls, was, 0)
  {
    assert polls[0..] == polls;
  }

  /** How a wait goes on after its `n`-th poll. */
  lemma WaitTurns(was: System, id: nat, polls: seq<Turn>, s: System, n: nat)
    requires WaitOnCourse(was, id, polls, s, n) && n < |polls|
    ensures Inv(s) && Polls(s, id)
    ensures
      var s' := if polls[n].Popped? then Next(s, Receive(id, polls[n].id, polls[n].status)) else s;
      if polls[n].Broken? then Exec(was, Wait(id, polls)) == Next(s, GiveUp(id)) && !Arrives(id, polls)
      else if polls[n].Popped? && polls[n].id == id then Exec(was, Wait(id, polls)) == s' && Arrives(id, polls)
      else WaitOnCourse(was, id, polls, s', n + 1)
  {
    var (turn, rest) := (polls[n], polls[n + 1..]);
    assert polls[n..] == [turn] + rest;
    if !turn.Broken? && !(turn.Popped? && turn.id == id) {
      WaitStep(s, id, turn, rest);
    } else {
      hide Inv, Next;
      var e := if turn.Broken? then GiveUp(id) else Receive(id, turn.id, turn.status);
      assert Wait(id, [turn] + rest) == [e];
      ExecOne(s, e);
    }
  }

  lemma NoMoreTurns(was: System, id: nat, polls: seq<Turn>, s: System)
    requires WaitOnCourse(was, id, polls, s, |polls|)
    ensures Inv(s) && Polls(s, id)
    ensures Exec(was, Wait(id, polls)) == Next(s, GiveUp(id)) && !Arrives(id, polls)
  {
    assert polls[|polls|..] == [];
    ExecOne(s, GiveUp(id));
  }

  lemma ExecOne(s: System, e: Event)
    ensures Exec(s, [e]) == Next(s, e)
  {
    assert Exec(Next(s, e), []) == Next(s, e);
  }

  /** What a wait comes to: the device's answer to the command is handed to its waiter if it
      arrives, and otherwise the command is abandoned unanswered. */
  ghost predicate WaitOver(s: System, s': System, id: nat, arrived: bool) {
    && Inv(s') && s'.waiting == s.waiting - {id} && s'.issued == s.issued
    && (if arrived then
          id in s.issued && id in s'.answered
          && s'.delivered == s.delivered[id := Response(s.issued[id], s'.answered[id], id)]
        else
          id in s.issued && id in s'.unanswered && s.issued[id] in s'.host.abandoned && s'.delivered == s.delivered)
  }

  lemma WaitEnds(s: System, id: nat, polls: seq<Turn>)
    requires Inv(s) && Polls(s, id)
    requires polls == [] || polls[0].Broken? || (polls[0].Popped? && polls[0].id == id)
    ensures WaitOver(s, Exec(s, Wait(id, polls)), id, Arrives(id, polls))
  {
    if polls != [] && polls[0].Popped? {
      ReceiveIs(s, id, id, polls[0].status);
      assert Wait(id, polls) == [Receive(id, id, polls[0].status)];
    } else {
      NextKeepsInv(s, GiveUp(id));
    }
  }

  lemma {:induction false} WaitIs(s: System, id: nat, polls: seq<Turn>)
    requires Inv(s) && Polls(s, id)
    ensures WaitOver(s, Exec(s, Wait(id, polls)), id, Arrives(id, polls))
    decreases |polls|
  {
    if polls == [] || polls[0].Broken? || (polls[0].Popped? && polls[0].id == id) {
      WaitEnds(s, id, polls);
    } else {
      WaitStep(s, id, polls[0], polls[1..]);
      hide Inv, Polls, Exec;
      assert polls == [polls[0]] + polls[1..];
      var s' := if polls[0].Popped? then Next(s, Receive(id, polls[0].id, polls[0].status)) else s;
      WaitIs(s', id, polls[1..]);
    }
  }

  lemma TakeStashedIs(s: System, id: nat)
    requires Inv(s) && HasStashed(s, id)
    ensures
      var s' := Next(s, TakeStashed(id));
      var t := s.issued[id];
      && WaitOver(s, s', id, true) && s'.answered == s.answered
      && s.host.stash[t] == Response(t, s.answered[id], id)
      && s' == Deliver(s, s.host.(stash := s.host.stash - {t}), id, s.host.stash[t])
  {
    NextKeepsInv(s, TakeStashed(id));
  }

  lemma DropIs(s: System, id: nat)
    requires Inv(s) && id in s.waiting
    ensures
      && id in s.issued && Inv(Next(s, Drop(id)))
      && Next(s, Drop(id)) == s.(host := Commands.Abandon(s.host, s.issued[id]), waiting := s.waiting - {id})
  {
    NextKeepsInv(s, Drop(id));
  }

  lemma CollectionIs(s: System, id: nat, polls: seq<Turn>)
    requires Inv(s) && id in s.waiting
    ensures WaitOver(s, Exec(s, Collection(s, id, polls)), id, HasStashed(s, id) || Arrives(id, polls))
  {
    assert HasStashed(s, id) || Polls(s, id);
    hide Inv;
    if HasStashed(s, id) {
      TakeStashedIs(s, id);
      assert Exec(Next(s, TakeStashed(id)), []) == Next(s, TakeStashed(id));
    } else {
      WaitIs(s, id, polls);
    }
  }

  /** The commands of `hs` from the `n`-th on are still waited for. */
  ghost predicate WaitAll(s: System, hs: seq<Handle>, n: nat) {
    Inv(s) && forall i | n <= i < |hs| :: WaitsFor(s, hs[i])
  }

  lemma RestStillWaited(s: System, s': System, hs: seq<Handle>, n: nat)
    requires n < |hs| && Apart(hs) && WaitAll(s, hs, n)
    requires Inv(s') && s'.waiting == s.waiting - {hs[n].id} && s'.issued == s.issued
    ensures WaitAll(s', hs, n + 1)
  {
    hide Inv;
  }

  /** What awaiting several commands comes to: those collected no longer wait, all but the
      last of them completed, and the last only if nothing failed. */
  ghost predicate AllOver(s: System, hs: seq<Handle>, end: System, n: nat) {
    && n <= |hs| && Inv(end) && end.issued == s.issued
    && end.waiting == s.waiting - Ids(hs[..if n < |hs| then n + 1 else n])
    && (forall i | 0 <= i < n :: Completed(end, hs[i].id))
    && (n < |hs| ==> !Completed(end, hs[n].id))
  }

  lemma {:induction false} AwaitedIs(s: System, hs: seq<Handle>, polls: seq<seq<Turn>>)
    requires Apart(hs) && |polls| == |hs| && WaitAll(s, hs, 0)
    ensures AllOver(s, hs, Awaited(s, hs, polls).0, Awaited(s, hs, polls).1)
    decreases |hs|
  {
    if hs != [] {
      var events := Collection(s, hs[0].id, polls[0]);
      var s' := Exec(s, events);
      CollectionIs(s, hs[0].id, polls[0]);
      if Completed(s', hs[0].id) {
        RestStillWaited(s, s', hs, 0);
        AwaitedIs(s', hs[1..], polls[1..]);
        var (end, n) := Awaited(s', hs[1..], polls[1..]);
        CompletedStays(s', hs[1..], polls[1..], hs[0].id);
        FirstIsOver(s, s', hs, end, n);
      } else {
        assert hs[..1] == [hs[0]];
      }
    }
  }

  lemma FirstIsOver(s: System, s': System, hs: seq<Handle>, end: System, n: nat)
    requires hs != [] && AllOver(s', hs[1..], end, n) && Completed(end, hs[0].id)
    requires s'.issued == s.issued && s'.waiting == s.waiting - {hs[0].id}
    ensures AllOver(s, hs, end, n + 1)
  {
    hide Inv, Completed;
    var k := if n < |hs[1..]| then n + 1 else n;
    assert hs[..k + 1] == [hs[0]] + hs[1..][..k];
    forall i | 0 <= i < n + 1
      ensures Completed(end, hs[i].id)
    {
      if i > 0 {
        assert hs[i] == hs[1..][i - 1];
      }
    }
  }

  /** Awaiting the commands from the `n`-th on in state `s` is what remains to be done. */
  ghost predicate OnCourse(was: System, hs: seq<Handle>, polls: seq<seq<Turn>>, s: System, n: nat)
    requires |polls| == |hs|
  {
    && n <= |hs| && WaitAll(s, hs, n)
    && (var (end, m) := Awaited(s, hs[n..], polls[n..]); Awaited(was, hs, polls) == (end, n + m))
  }

  lemma OnCourseStep(was: System, hs: seq<Handle>, polls: seq<seq<Turn>>, s: System, n: nat)
    requires |polls| == |hs| && n < |hs| && Apart(hs) && OnCourse(was, hs, polls, s, n)
    ensures
      var s' := Exec(s, Collection(s, hs[n].id, polls[n]));
      if Completed(s', hs[n].id) then OnCourse(was, hs, polls, s', n + 1) else Awaited(was, hs, polls) == (s', n)
  {
    hide Inv, Exec, Collection, Completed, Apart, Arrives;
    CollectionIs(s, hs[n].id, polls[n]);
    RestStillWaited(s, Exec(s, Collection(s, hs[n].id, polls[n])), hs, n);
    hide WaitAll, WaitOver;
    assert hs[n..][0] == hs[n] && hs[n..][1..] == hs[n + 1..] && polls[n..][1..] == polls[n + 1..];
  }

  lemma OnCourseWaits(was: System, hs: seq<Handle>, polls: seq<seq<Turn>>, s: System, n: nat)
    requires |polls| == |hs| && n < |hs| && OnCourse(was, hs, polls, s, n)
    ensures Inv(s) && WaitsFor(s, hs[n])
  {
  }

  lemma OnCourseEnds(was: System, hs: seq<Handle>, polls: seq<seq<Turn>>, s: System)
    requires |polls| == |hs|
    ensures OnCourse(was, hs, polls, s, |hs|) ==> Awaited(was, hs, polls) == (s, |hs|)
    ensures WaitAll(was, hs, 0) ==> OnCourse(was, hs, polls, was, 0)
  {
    assert hs[|hs|..] == [] && polls[|hs|..] == [] && hs[0..] == hs && polls[0..] == polls;
  }

  lemma {:induction false} CompletedStays(s: System, hs: seq<Handle>, polls: seq<seq<Turn>>, id: nat)
    requires Inv(s) && Completed(s, id) && |polls| == |hs|
    ensures Completed(Awaited(s, hs, polls).0, id)
    decreases |hs|
  {
    if hs != [] {
      var events := Collection(s, hs[0].id, polls[0]);
      AnswersStay(s, events, id);
      ExecKeepsInv(s, events);
      hide Inv, Exec, Collection;
      if Completed(Exec(s, events), hs[0].id) {
        CompletedStays(Exec(s, events), hs[1..], polls[1..], id);
      }
    }
  }

  /** The scan comes back to where it started after exactly 65 536 steps. */
  lemma ScanWraps(start: Tag, k: nat)
    requires 0 < k <= TAGS
    ensures Wrap(Wrap(start + (k - 1)) + 1) == Wrap(start + k)
    ensures Wrap(start + k) == start <==> k == TAGS
  {
  }

  class Device {
    var tag: Tag
    var outstanding: set<Tag>
    var abandoned: set<Tag>
    var stash: map<Tag, Response>

    // The device: the commands queued and not answered yet, and the tags they carry.
    var unanswered: set<nat>
    var nextId: nat
    var issued: map<nat, Tag>
    ghost var answered: map<nat, Option<nat>>

    // What has become of the commands, for the specification only.
    ghost var holders: map<Tag, nat>
    ghost var waiting: set<nat>
    ghost var delivered: map<nat, Response>

    ghost function Sys(): System
      reads this
    {
      System(Host(tag, outstanding, abandoned, stash), unanswered, answered, nextId, issued, holders, waiting,
             delivered)
    }

    /** Someone holds `h` and has neither collected it nor given up. */
    ghost predicate Awaits(h: Handle)
      reads this
    {
      WaitsFor(Sys(), h)
    }

    constructor ()
      ensures Sys() == Fresh(0) && Inv(Sys())
    {
      tag, outstanding, abandoned, stash := 0, {}, {}, map[];
      unanswered, nextId, issued, answered := {}, 0, map[], map[];
      holders, waiting, delivered := map[], {}, map[];
    }

    /** `next_tag`. */
    method NextTag() returns (r: Option<Tag>)
      modifies this`outstanding, this`tag
      ensures (r, Host(tag, outstanding, abandoned, stash)) ==
              Commands.NextTag(old(Host(tag, outstanding, abandoned, stash)))
    {
      var start := tag;
      var candidate := start;
      ghost var n := TAGS;
      while true
        invariant 0 < n <= TAGS && candidate == Wrap(start + (TAGS - n))
        invariant FirstFree(outstanding, start, TAGS) == FirstFree(outstanding, start + (TAGS - n), n)
        invariant outstanding == old(outstanding) && tag == old(tag)
        decreases n
      {
        if candidate !in outstanding {
          outstanding := outstanding + {candidate};
          tag := Wrap(candidate + 1);
          return Some(candidate);
        }
        ScanWraps(start, TAGS - n + 1);
        candidate := Wrap(candidate + 1);
        n := n - 1;
        if candidate == start {
          return None;
        }
      }
    }

    /** The transport queues a command, or refuses it for good. */
    method Push(t: Tag, accepted: bool)
      modifies this`unanswered, this`nextId, this`issued
      ensures accepted ==> unanswered == old(unanswered) + {old(nextId)} && nextId == old(nextId) + 1
                           && issued == old(issued)[old(nextId) := t]
      ensures !accepted ==> unanswered == old(unanswered) && nextId == old(nextId) && issued == old(issued)
    {
      if accepted {
        unanswered, issued, nextId := unanswered + {nextId}, issued[nextId := t], nextId + 1;
      }
    }

    /** `next_tag` followed by `push_cmd`, which the transport accepts or not: unless it fails,
        someone waits for the new command, whose tag was free; it fails exactly when the
        push does or no tag is free, and then nothing is reserved. */
    method Submit(accepted: bool) returns (r: Option<Handle>)
      requires Inv(Sys())
      modifies this
      ensures Inv(Sys()) && Sys() == Next(old(Sys()), Event.Submit(accepted))
      ensures r.Some? <==> accepted && exists t: Tag :: t !in old(outstanding)
      ensures r.Some? ==> Awaits(r.value) && waiting == old(waiting) + {r.value.id}
      ensures r.Some? ==> r.value.id == old(nextId) && r.value.tag !in old(outstanding)
      ensures r.None? ==> waiting == old(waiting) && unanswered == old(unanswered) && outstanding == old(outstanding)
    {
      NextTagIsFirstFree(Sys().host);
      NextKeepsInv(Sys(), Event.Submit(accepted));
      r := TrySubmit(accepted);
    }

    method TrySubmit(accepted: bool) returns (r: Option<Handle>)
      requires Inv(Sys())
      modifies this
      ensures Sys() == Next(old(Sys()), Event.Submit(accepted))
      ensures r == match Commands.NextTag(old(Sys()).host).0
                   case Some(t) => if accepted then Some(Handle(t, old(nextId))) else None
                   case None => None
    {
      var t := NextTag();
      if t.None? {
        return None;
      }
      Push(t.value, accepted);
      if !accepted {
        outstanding := outstanding - {t.value};
        return None;
      }
      holders := holders[t.value := nextId - 1];
      waiting := waiting + {nextId - 1};
      r := Some(Handle(t.value, nextId - 1));
    }

    /** The transport pops the response to a queued command, if that is what this poll finds. */
    method PopCq(turn: Turn) returns (rsp: Option<Response>)
      requires unanswered <= issued.Keys
      modifies this`unanswered, this`answered
      ensures rsp.Some? <==> turn.Popped? && turn.id in old(unanswered)
      ensures rsp.None? ==> Sys() == old(Sys())
      ensures rsp.Some? ==>
                && rsp.value == Response(issued[turn.id], turn.status, turn.id)
                && Sys() == Answered(old(Sys()), turn.id, turn.status)
    {
      if turn.Popped? && turn.id in unanswered {
        rsp := Some(Response(issued[turn.id], turn.status, turn.id));
        unanswered, answered := unanswered - {turn.id}, answered[turn.id := turn.status];
      } else {
        rsp := None;
      }
    }

    /** `park`. */
    method Park(rsp: Response)
      modifies this`outstanding, this`abandoned, this`stash
      ensures Sys() == old(Sys()).(host := Commands.Park(old(Sys()).host, rsp))
    {
      if rsp.tag in abandoned {
        abandoned := abandoned - {rsp.tag};
        outstanding := outstanding - {rsp.tag};
      } else if rsp.tag in outstanding {
        stash := stash[rsp.tag := rsp];
      }
    }

    /** `collect_response`: hands over the response to `h`, parking whatever else arrives, and
        fails exactly when it was not parked before and `polls` do not bring it. The
        response is the device's answer to the command of `h`. */
    method CollectResponse(h: Handle, polls: seq<Turn>) returns (r: Collected)
      requires Inv(Sys()) && Awaits(h)
      modifies this
      ensures Inv(Sys()) && Sys() == Exec(old(Sys()), Collection(old(Sys()), h.id, polls))
      ensures waiting == old(waiting) - {h.id} && issued == old(issued)
      ensures r.Answer? <==> h.tag in old(stash) || Arrives(h.id, polls)
      ensures r.Answer? ==>
                && h.id in answered && r.response == Response(h.tag, answered[h.id], h.id)
                && delivered == old(delivered)[h.id := r.response]
      ensures r.Failed? ==> h.id in unanswered && h.tag in abandoned && delivered == old(delivered)
    {
      CollectionIs(Sys(), h.id, polls);
      assert h.tag in stash <==> HasStashed(Sys(), h.id);
      hide Inv, Exec, Wait, Next, Arrives, WaitOnCourse, WaitsFor;
      if h.tag in stash {
        r := TakeStashed(h);
        ExecOne(old(Sys()), Event.TakeStashed(h.id));
        return;
      }
      ghost var was := Sys();
      WaitStarts(was, h.id, polls);
      for n := 0 to |polls|
        invariant WaitOnCourse(was, h.id, polls, Sys(), n) && WaitsFor(Sys(), h)
      {
        WaitTurns(was, h.id, polls, Sys(), n);
        if polls[n].Broken? {
          r := GiveUpOn(h);
          return;
        }
        r := Poll(h, polls[n]);
        if r.Answer? {
          return;
        }
      }
      NoMoreTurns(was, h.id, polls, Sys());
      r := GiveUpOn(h);
    }

    method TakeStashed(h: Handle) returns (r: Collected)
      requires Inv(Sys()) && Awaits(h) && h.tag in stash
      modifies this
      ensures Inv(Sys()) && Sys() == Next(old(Sys()), Event.TakeStashed(h.id))
      ensures r.Answer? && h.id in answered && r.response == Response(h.tag, answered[h.id], h.id)
    {
      TakeStashedIs(Sys(), h.id);
      hide Inv, Next;
      r := Answer(stash[h.tag]);
      stash := stash - {h.tag};
      Finish(h, r.response);
    }

    /** One turn of the polling loop: pop at most one response, and return it if it is the
        awaited one. */
    method Poll(h: Handle, turn: Turn) returns (r: Collected)
      requires Inv(Sys()) && Awaits(h) && h.tag !in stash && !turn.Broken?
      modifies this
      ensures Sys() == (if turn.Popped? then Next(old(Sys()), Receive(h.id, turn.id, turn.status)) else old(Sys()))
      ensures r.Answer? <==> turn.Popped? && turn.id == h.id
      ensures r.Answer? ==> h.id in answered && r.response == Response(h.tag, answered[h.id], h.id)
    {
      ghost var before := Sys();
      assert before.unanswered <= before.issued.Keys && h.id in before.unanswered;
      if turn.Popped? && turn.id in unanswered {
        ReceiveIs(before, h.id, turn.id, turn.status);
      }
      hide Inv, Commands.Park;
      var rsp := PopCq(turn);
      r := Failed;
      if rsp.Some? {
        hide Next;
        if rsp.value.tag == h.tag {
          r := Answer(rsp.value);
          Finish(h, rsp.value);
        } else {
          Park(rsp.value);
        }
      }
    }

    method GiveUpOn(h: Handle) returns (r: Collected)
      requires Inv(Sys()) && Awaits(h) && h.tag !in stash
      modifies this`abandoned, this`waiting
      ensures Inv(Sys()) && Sys() == Next(old(Sys()), GiveUp(h.id)) && r.Failed?
    {
      NextKeepsInv(Sys(), GiveUp(h.id));
      abandoned := abandoned + {h.tag};
      waiting := waiting - {h.id};
      r := Failed;
    }

    /** The tag is released and the response handed over. */
    method Finish(h: Handle, ghost rsp: Response)
      modifies this`outstanding, this`waiting, this`delivered
      requires rsp.tag == h.tag
      ensures Sys() == Deliver(old(Sys()), old(Sys()).host, h.id, rsp)
    {
      outstanding := outstanding - {h.tag};
      waiting, delivered := waiting - {h.id}, delivered[h.id := rsp];
    }

    method AwaitOne(h: Handle, polls: seq<Turn>) returns (ok: bool)
      requires Inv(Sys()) && Awaits(h)
      modifies this
      ensures Inv(Sys()) && Sys() == Exec(old(Sys()), Collection(old(Sys()), h.id, polls))
      ensures waiting == old(waiting) - {h.id} && issued == old(issued)
      ensures ok <==> Completed(Sys(), h.id)
    {
      hide Exec, Collection, Arrives;
      var r := CollectResponse(h, polls);
      ok := r.Answer? && r.response.status == Some(DMA_COMPLETE);
    }

    /** `await_dma`: collects the `count` oldest handles in turn, each with its polls, and stops
        at the first that fails; it succeeds exactly when the device answered every one of
        them with the report that it completed. All of them have left `pending` by then if
        it drains first, as the code does, and then those after the failure are waited for
        and in no list (see ForgettingLosesTheTag); in the order that its comment describes,
        each leaves just before it is awaited, and the rest are returned. */
    method AwaitDma(pending: seq<Handle>, count: nat, polls: seq<seq<Turn>>, drainFirst: bool)
      returns (ok: bool, left: seq<Handle>)
      requires Inv(Sys()) && count <= |pending| && Apart(pending) && |polls| == count
      requires WaitAll(Sys(), pending[..count], 0)
      modifies this
      ensures
        var n := Awaited(old(Sys()), pending[..count], polls).1;
        && Sys() == Awaited(old(Sys()), pending[..count], polls).0
        && AllOver(old(Sys()), pending[..count], Sys(), n)
        && ok == (n == count)
        && left == if drainFirst then pending[count..] else pending[if ok then n else n + 1..]
    {
      ghost var was := Sys();
      var hs := pending[..count];
      AwaitedIs(was, hs, polls);
      OnCourseEnds(was, hs, polls, was);
      hide Inv, Exec, Collection, Awaited, Apart, AllOver, OnCourse, WaitAll, WaitsFor, Completed;
      left := if drainFirst then pending[count..] else pending;
      for n := 0 to count
        invariant OnCourse(was, hs, polls, Sys(), n)
        invariant left == if drainFirst then pending[count..] else pending[n..]
      {
        if !drainFirst {
          left := left[1..];
        }
        OnCourseStep(was, hs, polls, Sys(), n);
        OnCourseWaits(was, hs, polls, Sys(), n);
        ok := AwaitOne(hs[n], polls[n]);
        if !ok {
          return;
        }
      }
      OnCourseEnds(was, hs, polls, Sys());
      ok := true;
    }

    /** `abandon`. */
    method Abandon(h: Handle)
      requires Inv(Sys()) && Awaits(h)
      modifies this`outstanding, this`abandoned, this`stash, this`waiting
      ensures Inv(Sys()) && Sys() == Next(old(Sys()), Drop(h.id)) && waiting == old(waiting) - {h.id}
    {
      DropIs(Sys(), h.id);
      hide Inv, Next;
      if h.tag in stash {
        stash := stash - {h.tag};
        outstanding := outstanding - {h.tag};
      } else {
        abandoned := abandoned + {h.tag};
      }
      waiting := waiting - {h.id};
    }

    /** `abandon_all`: afterwards nobody waits for any of `hs`, and no tag is lost. */
    method AbandonAll(hs: seq<Handle>)
      requires Inv(Sys())
      requires forall i | 0 <= i < |hs| :: Awaits(hs[i])
      requires Apart(hs)
      modifies this`outstanding, this`abandoned, this`stash, this`waiting
      ensures Inv(Sys())
      ensures waiting == old(waiting) - Ids(hs)
    {
      for n := 0 to |hs|
        invariant Inv(Sys())
        invariant waiting == old(waiting) - Ids(hs[..n])
      {
        IdsGrow(hs, n);
        Abandon(hs[n]);
      }
      assert hs[..|hs|] == hs;
    }
  }

  predicate Apart(hs: seq<Handle>) {
    forall i, j | 0 <= i < j < |hs| :: hs[i].id != hs[j].id
  }

  function Ids(hs: seq<Handle>): set<nat> {
    set h | h in hs :: h.id
  }

  lemma IdsGrow(hs: seq<Handle>, n: nat)
    requires n < |hs|
    ensures Ids(hs[..n + 1]) == Ids(hs[..n]) + {hs[n].id}
  {
    assert hs[..n + 1] == hs[..n] + [hs[n]];
  }

  /** A waiter that forgets its handle, instead of collecting or abandoning the command,
      leaves a reserved tag that nobody accounts for. */
  lemma ForgettingLosesTheTag(s: System, id: nat)
    requires Inv(s) && id in s.waiting
    ensures Conserved(s) && !Conserved(s.(waiting := s.waiting - {id}))
  {
    var t := s.issued[id];
    assert t in s.host.outstanding && t !in s.host.abandoned && s.holders[t] == id;
  }
}
