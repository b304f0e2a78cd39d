/** Command tags of et-rs/src/device.rs: a command carries a 16-bit tag that its response
    echoes, responses arrive in any order, waiters give up, and tags are reused.

    Every command pushed gets an identity of its own, which the driver never sees; the
    model uses it to say which command a response answers. */
module Commands {
  import opened Wrappers

  const TAGS: nat := 0x1_0000

  type Tag = t: nat | t < TAGS

  /** A completion: the tag it echoes, its status word unless truncated, and the identity
      of the command it answers. */
  datatype Response = Response(tag: Tag, status: Option<nat>, answers: nat)

  /** The driver's own bookkeeping. */
  datatype Host = Host(cursor: Tag, outstanding: set<Tag>, abandoned: set<Tag>, stash: map<Tag, Response>)

  /** The driver, the commands the device has yet to answer, the status word it answered the
      others with, and what has become of them: the tag every command was issued, the last
      command each tag was issued to, the commands someone still waits for, and the
      responses handed to their waiters. */
  datatype System = System(
    host: Host,
    unanswered: set<nat>,
    answered: map<nat, Option<nat>>,
    nextId: nat,
    issued: map<nat, Tag>,
    holders: map<Tag, nat>,
    waiting: set<nat>,
    delivered: map<nat, Response>)

  // --- Driver operations --------------------------------------------------

  function Wrap(n: nat): Tag {
    n % TAGS
  }

  /** The first tag from `start` on, cyclically and within `n` steps, not in `taken`. */
  function FirstFree(taken: set<Tag>, start: nat, n: nat): Option<Tag>
    decreases n
  {
    if n == 0 then None
    else if Wrap(start) !in taken then Some(Wrap(start))
    else FirstFree(taken, start + 1, n - 1)
  }

  /** `next_tag`: reserve a tag and move the cursor past it. */
  function NextTag(h: Host): (Option<Tag>, Host) {
    match FirstFree(h.outstanding, h.cursor, TAGS)
    case Some(t) => (Some(t), h.(outstanding := h.outstanding + {t}, cursor := Wrap(t + 1)))
    case None => (None, h)
  }

  function Release(h: Host, t: Tag): Host {
    h.(outstanding := h.outstanding - {t})
  }

  /** `park`: a response popped while some other tag is awaited. */
  function Park(h: Host, rsp: Response): Host {
    if rsp.tag in h.abandoned then
      h.(abandoned := h.abandoned - {rsp.tag}, outstanding := h.outstanding - {rsp.tag})
    else if rsp.tag in h.outstanding then h.(stash := h.stash[rsp.tag := rsp])
    else h
  }

  /** `abandon`. */
  function Abandon(h: Host, t: Tag): Host {
    if t in h.stash then h.(stash := h.stash - {t}, outstanding := h.outstanding - {t})
    else h.(abandoned := h.abandoned + {t})
  }

  // --- Everything that can happen -------------------------------------------

  datatype Event =
    /** A tag is reserved and a command pushed; the push may fail for good. */
    | Submit(accepted: bool)
    /** While `awaited` is collected, the response to `answer` is popped. */
    | Receive(awaited: nat, answer: nat, status: Option<nat>)
    /** `awaited` is collected from the stash. */
    | TakeStashed(awaited: nat)
    /** The collection of `awaited` fails. */
    | GiveUp(awaited: nat)
    /** `awaited` is abandoned without being collected. */
    | Drop(awaited: nat)

  /** The collection of a command polls the queue only if its response is not stashed. */
  predicate Polls(s: System, id: nat) {
    id in s.waiting && id in s.issued && s.issued[id] !in s.host.stash
  }

  predicate HasStashed(s: System, id: nat) {
    id in s.waiting && id in s.issued && s.issued[id] in s.host.stash
  }

  /** The device has answered `id`. */
  function Answered(s: System, id: nat, status: Option<nat>): System {
    s.(unanswered := s.unanswered - {id}, answered := s.answered[id := status])
  }

  /** The tag is released and the response handed over. */
  function Deliver(s: System, h: Host, id: nat, rsp: Response): System {
    s.(host := Release(h, rsp.tag), waiting := s.waiting - {id}, delivered := s.delivered[id := rsp])
  }

  function Next(s: System, e: Event): System {
    match e
    case Submit(accepted) =>
      var (tag, h) := NextTag(s.host);
      if tag.None? then s
      else if !accepted then s.(host := Release(h, tag.value))
      else
        s.(host := h, nextId := s.nextId + 1, unanswered := s.unanswered + {s.nextId},
           issued := s.issued[s.nextId := tag.value], holders := s.holders[tag.value := s.nextId],
           waiting := s.waiting + {s.nextId})
    case Receive(awaited, answer, status) =>
      if !Polls(s, awaited) || answer !in s.unanswered || answer !in s.issued then s
      else
        var rsp := Response(s.issued[answer], status, answer);
        var popped := Answered(s, answer, status);
        if rsp.tag == s.issued[awaited] then Deliver(popped, s.host, awaited, rsp)
        else popped.(host := Park(s.host, rsp))
    case TakeStashed(awaited) =>
      if !HasStashed(s, awaited) then s
      else
        var t := s.issued[awaited];
        Deliver(s, s.host.(stash := s.host.stash - {t}), awaited, s.host.stash[t])
    case GiveUp(awaited) =>
      if !Polls(s, awaited) then s
      else
        s.(host := s.host.(abandoned := s.host.abandoned + {s.issued[awaited]}), waiting := s.waiting - {awaited})
    case Drop(awaited) =>
      if awaited !in s.waiting || awaited !in s.issued then s
      else s.(host := Abandon(s.host, s.issued[awaited]), waiting := s.waiting - {awaited})
  }

  function Exec(s: System, events: seq<Event>): System
    decreases |events|
  {
    if events == [] then s else Exec(Next(s, events[0]), events[1..])
  }

  function Fresh(cursor: Tag): System {
    System(Host(cursor, {}, {}, map[]), {}, map[], 0, map[], map[], {}, map[])
  }

  // --- The invariant --------------------------------------------------------

  ghost predicate Inv(s: System) {
    && Conserved(s)
    && (forall id | id in s.issued :: id < s.nextId)
    && (forall t | t in s.host.outstanding :: s.holders[t] in s.issued && s.issued[s.holders[t]] == t)
    && (forall id | id in s.unanswered ::
          && id in s.issued && s.issued[id] in s.host.outstanding && s.holders[s.issued[id]] == id
          && s.issued[id] !in s.host.stash)
    && (forall id | id in s.answered :: id in s.issued && id !in s.unanswered)
    && (forall t | t in s.host.stash ::
          && s.holders[t] in s.answered
          && s.host.stash[t] == Response(t, s.answered[s.holders[t]], s.holders[t]))
    && (forall id | id in s.delivered :: id !in s.waiting && Delivered(s, id))
  }

  /** The waiter for `id` was handed the device's answer to it, with the status it reported. */
  predicate Delivered(s: System, id: nat) {
    && id in s.delivered && id in s.issued && id in s.answered
    && s.delivered[id] == Response(s.issued[id], s.answered[id], id)
  }

  /** Tag conservation: stashed and abandoned tags are disjoint and reserved; every
      reserved tag is abandoned or has exactly one waiter; every waiter's tag is reserved
      for its own command; and a tag is released only once its command is answered. */
  ghost predicate Conserved(s: System) {
    && s.host.outstanding <= s.holders.Keys
    && s.host.abandoned <= s.host.outstanding
    && s.host.stash.Keys <= s.host.outstanding
    && s.host.abandoned !! s.host.stash.Keys
    && (forall id | id in s.waiting ::
          && id in s.issued && s.issued[id] in s.host.outstanding && s.issued[id] !in s.host.abandoned
          && s.holders[s.issued[id]] == id)
    && (forall t | t in s.host.outstanding && t !in s.host.abandoned :: s.holders[t] in s.waiting)
    && (forall t | t in s.host.outstanding && t !in s.host.stash :: s.holders[t] in s.unanswered)
  }

  /** Every tag that positions `from` up to `to` of the cyclic scan reach is taken. */
  predicate Taken(taken: set<Tag>, from: nat, to: nat) {
    forall p | from <= p < to :: Wrap(p) in taken
  }

  lemma {:induction false} FirstFreeIsFirst(taken: set<Tag>, start: nat, n: nat) returns (p: nat)
    ensures FirstFree(taken, start, n).None? <==> Taken(taken, start, start + n)
    ensures FirstFree(taken, start, n).Some? ==>
              && start <= p < start + n && FirstFree(taken, start, n).value == Wrap(p)
              && Wrap(p) !in taken && Taken(taken, start, p)
    decreases n
  {
    p := start;
    if n > 0 && Wrap(start) in taken {
      p := FirstFreeIsFirst(taken, start + 1, n - 1);
    }
  }

  /** The scan of `next_tag` visits every tag. */
  lemma ScanIsExhaustive(start: Tag, t: Tag) returns (p: nat)
    ensures start <= p < start + TAGS && Wrap(p) == t
  {
    p := if t >= start then t else t + TAGS;
  }

  /** `next_tag` yields the first free tag cyclically from the cursor, and fails exactly
      when all 65 536 are reserved. */
  lemma NextTagIsFirstFree(h: Host)
    ensures NextTag(h).0.None? <==> forall t: Tag :: t in h.outstanding
    ensures NextTag(h).0.Some? ==>
              var t := NextTag(h).0.value;
              && t !in h.outstanding
              && NextTag(h).1.cursor == Wrap(t + 1)
              && exists p | h.cursor <= p < h.cursor + TAGS :: Wrap(p) == t && Taken(h.outstanding, h.cursor, p)
  {
    var p := FirstFreeIsFirst(h.outstanding, h.cursor, TAGS);
    if NextTag(h).0.None? {
      forall t: Tag
        ensures t in h.outstanding
      {
        var q := ScanIsExhaustive(h.cursor, t);
      }
    } else {
      assert Wrap(p) == NextTag(h).0.value;
    }
  }

  // --- Every run --------------------------------------------------------------

  lemma FreshInv(cursor: Tag)
    ensures Inv(Fresh(cursor))
  {
  }

  lemma SubmitKeepsInv(s: System, accepted: bool)
    requires Inv(s)
    ensures Inv(Next(s, Submit(accepted)))
  {
    NextTagIsFirstFree(s.host);
  }

  lemma DeliverKeepsInv(s: System, id: nat, answer: nat, status: Option<nat>)
    requires Inv(s) && Polls(s, id) && answer in s.unanswered && s.issued[answer] == s.issued[id]
    ensures answer == id
    ensures Inv(Next(s, Receive(id, answer, status)))
  {
  }

  lemma ParkKeepsInv(s: System, id: nat, answer: nat, status: Option<nat>)
    requires Inv(s) && Polls(s, id) && answer in s.unanswered && s.issued[answer] != s.issued[id]
    ensures Inv(Next(s, Receive(id, answer, status)))
  {
  }

  lemma TakeStashedKeepsInv(s: System, id: nat)
    requires Inv(s)
    ensures Inv(Next(s, TakeStashed(id)))
  {
  }

  lemma GiveUpKeepsInv(s: System, id: nat)
    requires Inv(s)
    ensures Inv(Next(s, GiveUp(id)))
  {
  }

  lemma DropKeepsInv(s: System, id: nat)
    requires Inv(s)
    ensures Inv(Next(s, Drop(id)))
  {
  }

  lemma NextKeepsInv(s: System, e: Event)
    requires Inv(s)
    ensures Inv(Next(s, e))
  {
    match e {
      case Submit(accepted) => SubmitKeepsInv(s, accepted);
      case Receive(id, answer, status) =>
        if Polls(s, id) && answer in s.unanswered {
          if s.issued[answer] == s.issued[id] {
            DeliverKeepsInv(s, id, answer, status);
          } else {
            ParkKeepsInv(s, id, answer, status);
          }
        }
      case TakeStashed(id) => TakeStashedKeepsInv(s, id);
      case GiveUp(id) => GiveUpKeepsInv(s, id);
      case Drop(id) => DropKeepsInv(s, id);
    }
  }

  lemma {:induction false} ExecKeepsInv(s: System, events: seq<Event>)
    requires Inv(s)
    ensures Inv(Exec(s, events))
    decreases |events|
  {
    if events != [] {
      NextKeepsInv(s, events[0]);
      ExecKeepsInv(Next(s, events[0]), events[1..]);
    }
  }

  /** No response is ever misdelivered: over all runs of submissions, waits, timeouts,
      abandonments and tag wraparounds, what a waiter is handed is the device's answer to its
      own command, with the tag that was issued and the status that the device reported. */
  lemma NothingMisdelivered(cursor: Tag, events: seq<Event>, id: nat)
    ensures
      var s := Exec(Fresh(cursor), events);
      id in s.delivered ==> Delivered(s, id)
  {
    FreshInv(cursor);
    ExecKeepsInv(Fresh(cursor), events);
  }

  /** Over all runs every reserved tag is accounted for: it is abandoned, or stashed for
      its one waiter, or its one waiter has yet to see an answer. */
  lemma TagsAreConserved(cursor: Tag, events: seq<Event>)
    ensures Conserved(Exec(Fresh(cursor), events))
  {
    FreshInv(cursor);
    ExecKeepsInv(Fresh(cursor), events);
  }

  lemma AnswersStep(s: System, e: Event, id: nat)
    requires forall i | i in s.answered :: i !in s.unanswered
    ensures id in s.answered ==> id in Next(s, e).answered && Next(s, e).answered[id] == s.answered[id]
    ensures id !in s.answered && id in Next(s, e).answered ==>
              e.Receive? && e.answer == id && e.status == Next(s, e).answered[id]
  {
    hide NextTag, Park, Release, Abandon;
  }

  /** What the device has answered stays so, and is what it reported when it was popped. */
  lemma {:induction false} AnswersStay(s: System, events: seq<Event>, id: nat)
    requires Inv(s)
    ensures id in s.answered ==> id in Exec(s, events).answered && Exec(s, events).answered[id] == s.answered[id]
    ensures id !in s.answered && id in Exec(s, events).answered ==>
              exists e | e in events :: e.Receive? && e.answer == id && e.status == Exec(s, events).answered[id]
    decreases |events|
  {
    if events != [] {
      NextKeepsInv(s, events[0]);
      AnswersStep(s, events[0], id);
      hide Inv, Next;
      AnswersStay(Next(s, events[0]), events[1..], id);
    }
  }

  /** A late answer to an abandoned command reaches nobody and frees its tag. */
  lemma LateAnswerIsDiscarded(s: System, awaited: nat, answer: nat, status: Option<nat>)
    requires Inv(s) && Polls(s, awaited) && answer in s.unanswered && answer !in s.waiting
    ensures
      var s' := Next(s, Receive(awaited, answer, status));
      && s'.delivered == s.delivered && s'.host.stash == s.host.stash && s'.waiting == s.waiting
      && s'.host.outstanding == s.host.outstanding - {s.issued[answer]}
  {
  }

  /** A command that is answered while another is awaited keeps its response until its
      own waiter asks, who then gets it. */
  lemma ParkedAnswerIsKept(s: System, awaited: nat, answer: nat, status: Option<nat>)
    requires Inv(s) && Polls(s, awaited) && answer in s.unanswered && answer in s.waiting && answer != awaited
    ensures
      var s' := Next(s, Receive(awaited, answer, status));
      && answer in s'.waiting && !Polls(s', answer)
      && Next(s', TakeStashed(answer)).delivered ==
           s.delivered[answer := Response(s.issued[answer], status, answer)]
  {
  }

  /** A tag is not issued again before the command that holds it has been answered. */
  lemma TagOutlivesItsCommand(s: System, id: nat)
    requires Inv(s) && id in s.unanswered
    ensures NextTag(s.host).0 != Some(s.issued[id])
  {
    NextTagIsFirstFree(s.host);
  }
}
