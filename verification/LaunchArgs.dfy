/** Launch arguments of et-rs/src/device.rs: staged in slots that launches share, written to
    the device by commands that run on their own, and read by kernels at any time. */
module LaunchArgs {
  import opened LittleEndian
  import opened Sequences
  import opened Transport
  import opened Wrappers
  import Commands

  type Tag = Commands.Tag

  /** What a command does: write bytes `from` to `to` of a slot, run a kernel with arguments
      in a slot, or something that concerns no slot. The writes of a kernel's arguments are
      the commands from `first` up to the kernel itself. */
  datatype Task = Write(from: nat, to: nat) | Kernel(first: nat, args: seq<Byte>) | Other

  /** A command; the bytes that a write has moved so far; whether it is done and with success,
      and whether its response has been collected or discarded, so that its tag is free. `saw`
      tells of a kernel whether every read of its arguments so far has found the bytes given
      to the launch. */
  datatype Command = Command(
    tag: Tag, queue: nat, barrier: bool, slot: nat, task: Task, moved: set<nat>, done: bool, ok: bool,
    released: bool, saw: bool)
  {
    predicate Uses(x: nat) {
      slot == x && !task.Other?
    }

    predicate Succeeded() {
      done && ok
    }

    /** It has had some effect. */
    predicate Begun() {
      moved != {} || done || !saw
    }

    predicate Whole() {
      task.Write? ==> forall k: nat | task.from <= k < task.to :: k in moved
    }

    /** The same command, at most further along. */
    predicate Became(later: Command) {
      && later.(moved := moved, done := done, ok := ok, released := released, saw := saw) == this
      && moved <= later.moved
      && (done ==> later.(released := released) == this)
      && (released ==> later.released)
    }
  }

  /** An `ArgsSlot`: its device region and its host buffer, and the tag that owns it. */
  datatype Slot = Slot(size: nat, host: seq<Byte>, region: seq<Byte>, owner: Option<Tag>)

  /** What a slot was last staged with, kept for the specification: the arguments, the queue
      of their writes, where these start in the history, and the last command to use them. */
  datatype Staged = Staged(args: seq<Byte>, queue: nat, since: nat, last: Option<nat>)

  /** Every command ever pushed, in order; the slots; the reserved tags; what is staged; and
      the command that holds each tag. */
  datatype State = State(
    commands: seq<Command>, slots: seq<Slot>, outstanding: set<Tag>, staged: seq<Staged>, holder: map<Tag, nat>)

  // --- The device ------------------------------------------------------------------

  /** A `BARRIER` command starts only after all earlier ones on its queue are done. */
  predicate CanStart(s: State, i: nat)
    requires i < |s.commands|
  {
    s.commands[i].barrier ==> EarlierDone(s.commands, i)
  }

  /** All commands before the `i`-th on its queue are done. */
  predicate EarlierDone(commands: seq<Command>, i: nat)
    requires i < |commands|
  {
    forall k | 0 <= k < i && commands[k].queue == commands[i].queue :: commands[k].done
  }

  datatype Effect =
    /** A write copies byte `k`. */
    | CopyByte(i: nat, k: nat)
    /** The command completes; a write with success, once it has copied all its bytes. */
    | Finish(i: nat, ok: bool)
    /** A running kernel reads its arguments. */
    | Read(i: nat)
    /** The response is collected or discarded, and the tag released. */
    | Release(i: nat)

  predicate Active(s: State, i: nat) {
    && i < |s.commands| && !s.commands[i].done && CanStart(s, i)
    && (s.commands[i].task.Other? || s.commands[i].slot < |s.slots|)
  }

  function Step(s: State, e: Effect): State {
    if e.Release? then
      if e.i < |s.commands| && s.commands[e.i].done && !s.commands[e.i].released then
        s.(commands := s.commands[e.i := s.commands[e.i].(released := true)],
           outstanding := s.outstanding - {s.commands[e.i].tag})
      else s
    else if !Active(s, e.i) then s
    else
      var c := s.commands[e.i];
      match e
      case CopyByte(i, k) =>
        if c.task.Write? && c.task.from <= k < c.task.to && k < |s.slots[c.slot].host| && k < |s.slots[c.slot].region| then
          var slot := s.slots[c.slot];
          s.(commands := s.commands[i := c.(moved := c.moved + {k})],
             slots := s.slots[c.slot := slot.(region := slot.region[k := slot.host[k]])])
        else s
      case Finish(i, ok) =>
        if ok && !c.Whole() then s else s.(commands := s.commands[i := c.(done := true, ok := ok)])
      case Read(i) =>
        if c.task.Kernel? then
          var args := c.task.args;
          s.(commands := s.commands[i := c.(saw := c.saw && args <= s.slots[c.slot].region)])
        else s
  }

  function Run(s: State, effects: seq<Effect>): State
    decreases |effects|
  {
    if effects == [] then s else Run(Step(s, effects[0]), effects[1..])
  }

  // --- The invariant -----------------------------------------------------------------

  /** Tags: one that is not released is reserved, for its command alone. */
  predicate TagsOk(s: State) {
    forall i | 0 <= i < |s.commands| ::
      && (s.commands[i].released ==> s.commands[i].done)
      && (!s.commands[i].released ==>
            s.commands[i].tag in s.outstanding && s.commands[i].tag in s.holder && s.holder[s.commands[i].tag] == i)
  }

  predicate Holds(region: seq<Byte>, args: seq<Byte>, from: nat, to: nat) {
    to <= |region| && to <= |args| && forall p | from <= p < to :: region[p] == args[p]
  }

  /** What the write has moved is in the region. */
  predicate MovedOk(c: Command, region: seq<Byte>, args: seq<Byte>)
    requires c.task.Write?
  {
    forall p | p in c.moved && c.task.from <= p < c.task.to :: p < |region| && p < |args| && region[p] == args[p]
  }

  /** A command that uses slot `x`, the `i`-th in the history, belongs to what is staged
      there, or is done. */
  predicate UseOk(c: Command, i: nat, x: nat, g: Staged, region: seq<Byte>) {
    c.Uses(x) ==>
      if i < g.since then c.done
      else
        && g.last.Some? && i <= g.last.value
        && (i < g.last.value ==> c.task.Write?)
        && match c.task
           case Write(from, to) =>
             && from < to <= |g.args| && c.barrier && c.queue == g.queue
             && MovedOk(c, region, g.args) && (c.Succeeded() ==> c.Whole())
           case Kernel(first, args) => first == g.since && args == g.args && c.queue == g.queue
           case Other => true
  }

  predicate SlotOk(s: State, x: nat)
    requires x < |s.slots| == |s.staged|
  {
    var g := s.staged[x];
    && |s.slots[x].host| == |s.slots[x].region| == s.slots[x].size
    && g.args <= s.slots[x].host
    && g.since <= |s.commands|
    && (g.last.Some? ==>
          && g.since <= g.last.value < |s.commands| && s.commands[g.last.value].Uses(x)
          && (s.commands[g.last.value].task.Write? ==> s.commands[g.last.value].barrier))
    && (forall i | 0 <= i < |s.commands| :: UseOk(s.commands[i], i, x, g, s.slots[x].region))
    && DoneOk(s.commands, x, s.staged[x].last)
  }

  /** Once the last command that uses a slot is done, so are all others. */
  predicate DoneOk(commands: seq<Command>, x: nat, last: Option<nat>) {
    last.Some? && last.value < |commands| && commands[last.value].done ==>
      forall i | 0 <= i < |commands| && commands[i].Uses(x) :: commands[i].done
  }

  /** The slot belongs to the last command that uses what is staged in it. */
  predicate OwnerOk(s: State, x: nat)
    requires x < |s.slots| == |s.staged|
  {
    s.staged[x].last.Some? && s.staged[x].last.value < |s.commands| ==>
      s.slots[x].owner == Some(s.commands[s.staged[x].last.value].tag)
  }

  /** The writes of a kernel's arguments: they cover all of them, one after the other. */
  predicate WritesOk(commands: seq<Command>, i: nat, first: nat, slot: nat, queue: nat, n: nat)
    requires i <= |commands|
  {
    && first <= i
    && (forall k | first <= k < i :: commands[k].task.Write? && commands[k].slot == slot && commands[k].queue == queue)
    && (if first == i then n == 0 else commands[first].task.from == 0 && commands[i - 1].task.to == n)
    && (forall k | first <= k < i - 1 :: commands[k].task.to == commands[k + 1].task.from)
  }

  predicate AllSucceeded(commands: seq<Command>, first: nat, i: nat)
    requires i <= |commands|
  {
    forall k | first <= k < i :: commands[k].Succeeded()
  }

  predicate KernelOk(commands: seq<Command>, i: nat)
    requires i < |commands|
  {
    var c := commands[i];
    c.task.Kernel? ==>
      && WritesOk(commands, i, c.task.first, c.slot, c.queue, |c.task.args|)
      && (!c.barrier ==> AllSucceeded(commands, c.task.first, i))
      && (AllSucceeded(commands, c.task.first, i) ==> c.saw)
      && (!c.saw ==> forall k | c.task.first <= k < i :: commands[k].done)
  }

  /** A command with `BARRIER` has had no effect before all earlier ones on its queue were
      done. */
  predicate BarriersHeld(commands: seq<Command>) {
    forall i | 0 <= i < |commands| && commands[i].barrier && commands[i].Begun() :: EarlierDone(commands, i)
  }

  predicate Shape(s: State) {
    && |s.slots| == |s.staged|
    && TagsOk(s) && BarriersHeld(s.commands)
    && (forall i | 0 <= i < |s.commands| :: s.commands[i].task.Other? || s.commands[i].slot < |s.slots|)
    && (forall x | 0 <= x < |s.slots| :: SlotOk(s, x))
    && (forall i | 0 <= i < |s.commands| :: KernelOk(s.commands, i))
  }

  predicate Inv(s: State) {
    Shape(s) && forall x | 0 <= x < |s.slots| :: OwnerOk(s, x)
  }

  // --- Every device step ----------------------------------------------------------------

  /** Commands and slots before and after a device step. */
  predicate Follows(s: State, s': State) {
    && |s'.commands| == |s.commands| && |s'.slots| == |s.slots| && s'.staged == s.staged && s'.holder == s.holder
    && (forall i | 0 <= i < |s.commands| :: s.commands[i].Became(s'.commands[i]))
    && (forall x | 0 <= x < |s.slots| :: s.slots[x].(region := s'.slots[x].region) == s'.slots[x])
  }

  lemma StepFollows(s: State, e: Effect)
    ensures Follows(s, Step(s, e))
  {
  }

  /** Regions change only towards what is staged for them. */
  predicate RegionsImprove(s: State, s': State)
    requires |s'.slots| == |s.slots| == |s.staged|
  {
    forall x | 0 <= x < |s.slots| ::
      && |s'.slots[x].region| == |s.slots[x].region|
      && forall p | 0 <= p < |s.slots[x].region| ::
           || s'.slots[x].region[p] == s.slots[x].region[p]
           || (p < |s.staged[x].args| && s'.slots[x].region[p] == s.staged[x].args[p])
  }

  lemma StepImproves(s: State, e: Effect)
    requires Shape(s)
    ensures RegionsImprove(s, Step(s, e))
  {
    if !e.Release? && Active(s, e.i) && s.commands[e.i].task.Write? {
      assert SlotOk(s, s.commands[e.i].slot);
      var x := s.commands[e.i].slot;
      assert UseOk(s.commands[e.i], e.i, x, s.staged[x], s.slots[x].region);
    }
  }

  lemma UseKeeps(s: State, s': State, x: nat, k: nat)
    requires |s.slots| == |s.staged| && Follows(s, s') && RegionsImprove(s, s') && x < |s.slots| && k < |s.commands|
    requires UseOk(s.commands[k], k, x, s.staged[x], s.slots[x].region)
    requires
      var (c, c') := (s.commands[k], s'.commands[k]);
      c.Uses(x) && c.task.Write? && !c.done ==>
        && (c'.Succeeded() ==> c'.Whole())
        && (forall p | p in c'.moved && p !in c.moved :: p < |s.staged[x].args| && p < |s'.slots[x].region|
              && s'.slots[x].region[p] == s.staged[x].args[p])
    ensures UseOk(s'.commands[k], k, x, s'.staged[x], s'.slots[x].region)
  {
    assert s.commands[k].Became(s'.commands[k]);
  }

  lemma KernelKeeps(s: State, s': State, i: nat)
    requires |s.slots| == |s.staged| && Follows(s, s') && i < |s.commands| && KernelOk(s.commands, i)
    requires
      var c := s.commands[i];
      c.task.Kernel? && s'.commands[i].saw != c.saw ==>
        && (forall k | c.task.first <= k < i :: s.commands[k].done)
        && !AllSucceeded(s.commands, c.task.first, i)
    ensures KernelOk(s'.commands, i)
  {
    assert s.commands[i].Became(s'.commands[i]);
    if s.commands[i].task.Kernel? {
      forall k | s.commands[i].task.first <= k < i
        ensures s.commands[k].Became(s'.commands[k])
      {
      }
    }
  }

  /** When the last command on a slot completes, all others have. */
  lemma FinishKeepsDone(s: State, i: nat, ok: bool, x: nat)
    requires Shape(s) && Active(s, i) && x < |s.slots|
    ensures DoneOk(Step(s, Finish(i, ok)).commands, x, s.staged[x].last)
  {
    var s' := Step(s, Finish(i, ok));
    var g := s.staged[x];
    assert SlotOk(s, x);
    if g.last == Some(i) && (ok ==> s.commands[i].Whole()) {
      assert KernelOk(s.commands, i) && UseOk(s.commands[i], i, x, s.staged[x], s.slots[x].region);
      forall k | 0 <= k < |s.commands| && s.commands[k].Uses(x)
        ensures s'.commands[k].done
      {
        assert UseOk(s.commands[k], k, x, s.staged[x], s.slots[x].region);
      }
    }
  }

  /** What a write moves is what is staged, and it succeeds only once it has moved it all. */
  lemma StepWrites(s: State, e: Effect, k: nat, x: nat)
    requires Shape(s) && k < |s.commands| && s.commands[k].Uses(x) && s.commands[k].task.Write? && !s.commands[k].done
    requires x < |s.slots|
    ensures
      var (s', c) := (Step(s, e), s.commands[k]);
      && |s'.commands| == |s.commands| && |s'.slots| == |s.slots|
      && (s'.commands[k].Succeeded() ==> s'.commands[k].Whole())
      && forall p | p in s'.commands[k].moved && p !in c.moved :: p < |s.staged[x].args| && p < |s'.slots[x].region|
           && s'.slots[x].region[p] == s.staged[x].args[p]
  {
    assert SlotOk(s, x) && UseOk(s.commands[k], k, x, s.staged[x], s.slots[x].region);
  }

  lemma {:induction false} WritesCover(s: State, i: nat, first: nat, slot: nat, queue: nat, n: nat, k: nat)
    requires Shape(s) && i <= |s.commands| && slot < |s.slots|
    requires first <= k < i && WritesOk(s.commands, i, first, slot, queue, n)
    requires AllSucceeded(s.commands, first, i) && s.staged[slot].since <= first
    ensures s.commands[k].task.Write? && Holds(s.slots[slot].region, s.staged[slot].args, 0, s.commands[k].task.to)
    decreases k
  {
    assert SlotOk(s, slot) && UseOk(s.commands[k], k, slot, s.staged[slot], s.slots[slot].region);
    if k > first {
      WritesCover(s, i, first, slot, queue, n, k - 1);
    }
  }

  /** A kernel that is running, all of whose argument writes succeeded, finds its arguments
      in place. */
  lemma ArgumentsInPlace(s: State, i: nat)
    requires Shape(s) && Active(s, i) && s.commands[i].task.Kernel?
    requires AllSucceeded(s.commands, s.commands[i].task.first, i)
    ensures s.commands[i].task.args <= s.slots[s.commands[i].slot].region
  {
    var c := s.commands[i];
    assert KernelOk(s.commands, i) && SlotOk(s, c.slot);
    assert UseOk(s.commands[i], i, c.slot, s.staged[c.slot], s.slots[c.slot].region);
    if c.task.first < i {
      WritesCover(s, i, c.task.first, c.slot, c.queue, |c.task.args|, i - 1);
    }
  }

  lemma ReadKeepsKernels(s: State, i: nat, k: nat)
    requires Shape(s) && k < |s.commands|
    ensures KernelOk(Step(s, Read(i)).commands, k)
  {
    var s' := Step(s, Read(i));
    StepFollows(s, Read(i));
    assert KernelOk(s.commands, k);
    if s'.commands[k].saw != s.commands[k].saw {
      if AllSucceeded(s.commands, s.commands[i].task.first, i) {
        ArgumentsInPlace(s, i);
      }
    }
    KernelKeeps(s, s', k);
  }

  lemma StepKeepsTags(s: State, e: Effect)
    requires TagsOk(s)
    ensures TagsOk(Step(s, e))
  {
  }

  lemma StepKeepsBarriers(s: State, e: Effect)
    requires BarriersHeld(s.commands)
    ensures BarriersHeld(Step(s, e).commands)
  {
    var s' := Step(s, e);
    StepFollows(s, e);
    forall i | 0 <= i < |s'.commands| && s'.commands[i].barrier && s'.commands[i].Begun()
      ensures EarlierDone(s'.commands, i)
    {
      assert s.commands[i].Became(s'.commands[i]) && (s.commands[i].Begun() || Active(s, i));
      forall k | 0 <= k < i && s'.commands[k].queue == s'.commands[i].queue
        ensures s'.commands[k].done
      {
        assert s.commands[k].Became(s'.commands[k]);
      }
    }
  }

  lemma PushKeepsBarriers(commands: seq<Command>, c: Command)
    requires BarriersHeld(commands) && !c.Begun()
    ensures BarriersHeld(commands + [c])
  {
    var all := commands + [c];
    forall i | 0 <= i < |all| && all[i].barrier && all[i].Begun()
      ensures EarlierDone(all, i)
    {
      assert EarlierDone(commands, i);
    }
  }

  lemma StepKeepsSlot(s: State, e: Effect, x: nat)
    requires Shape(s) && x < |s.slots|
    ensures SlotOk(Step(s, e), x)
  {
    var s' := Step(s, e);
    StepFollows(s, e);
    StepImproves(s, e);
    assert SlotOk(s, x);
    forall k | 0 <= k < |s.commands|
      ensures UseOk(s'.commands[k], k, x, s'.staged[x], s'.slots[x].region)
    {
      assert UseOk(s.commands[k], k, x, s.staged[x], s.slots[x].region);
      if s.commands[k].Uses(x) && s.commands[k].task.Write? && !s.commands[k].done {
        StepWrites(s, e, k, x);
      }
      UseKeeps(s, s', x, k);
    }
    if e.Finish? && Active(s, e.i) {
      FinishKeepsDone(s, e.i, e.ok, x);
    }
  }

  lemma StepKeepsKernel(s: State, e: Effect, k: nat)
    requires Shape(s) && k < |s.commands|
    ensures KernelOk(Step(s, e).commands, k)
  {
    assert KernelOk(s.commands, k);
    StepFollows(s, e);
    if e.Read? {
      ReadKeepsKernels(s, e.i, k);
    } else {
      KernelKeeps(s, Step(s, e), k);
    }
  }

  lemma StepKeepsShape(s: State, e: Effect)
    requires Shape(s)
    ensures Shape(Step(s, e))
    ensures forall x | 0 <= x < |s.slots| && OwnerOk(s, x) :: OwnerOk(Step(s, e), x)
  {
    var s' := Step(s, e);
    StepFollows(s, e);
    StepKeepsTags(s, e);
    StepKeepsBarriers(s, e);
    forall x | 0 <= x < |s.slots|
      ensures SlotOk(s', x)
    {
      StepKeepsSlot(s, e, x);
    }
    forall k | 0 <= k < |s.commands|
      ensures KernelOk(s'.commands, k) && (s'.commands[k].task.Other? || s'.commands[k].slot < |s'.slots|)
    {
      StepKeepsKernel(s, e, k);
      assert s.commands[k].Became(s'.commands[k]);
    }
  }

  /** Whatever the device does, in whatever order, the invariant is kept. */
  lemma {:induction false} RunKeepsShape(s: State, effects: seq<Effect>)
    requires Shape(s)
    ensures Shape(Run(s, effects)) && Follows(s, Run(s, effects))
    ensures forall x | 0 <= x < |s.slots| && OwnerOk(s, x) :: OwnerOk(Run(s, effects), x)
    decreases |effects|
  {
    if effects != [] {
      StepFollows(s, effects[0]);
      StepKeepsShape(s, effects[0]);
      RunKeepsShape(Step(s, effects[0]), effects[1..]);
    }
  }

  // --- The driver's own steps --------------------------------------------------------------

  /** The test of `args_slot`: the tag that owns the slot is not outstanding. */
  predicate Reusable(s: State, x: nat)
    requires x < |s.slots|
  {
    s.slots[x].owner.None? || s.slots[x].owner.value !in s.outstanding
  }

  /** A slot that may be reused is idle: no command that uses it is unfinished. */
  lemma ReusableIsIdle(s: State, x: nat)
    requires Inv(s) && x < |s.slots| && Reusable(s, x)
    ensures forall i | 0 <= i < |s.commands| && s.commands[i].Uses(x) :: s.commands[i].done
  {
    assert SlotOk(s, x) && OwnerOk(s, x);
    forall i | 0 <= i < |s.commands| && s.commands[i].Uses(x)
      ensures s.commands[i].done
    {
      assert UseOk(s.commands[i], i, x, s.staged[x], s.slots[x].region);
    }
  }

  function AddSlot(s: State, size: nat, host: seq<Byte>, region: seq<Byte>): State {
    s.(slots := s.slots + [Slot(size, host, region, None)],
       staged := s.staged + [Staged([], 0, |s.commands|, None)])
  }

  lemma AddSlotKeepsInv(s: State, size: nat, host: seq<Byte>, region: seq<Byte>)
    requires Inv(s) && |host| == |region| == size
    ensures Inv(AddSlot(s, size, host, region))
  {
    var s' := AddSlot(s, size, host, region);
    forall x | 0 <= x < |s'.slots|
      ensures SlotOk(s', x) && OwnerOk(s', x)
    {
      if x < |s.slots| {
        assert SlotOk(s, x) && OwnerOk(s, x);
      }
    }
  }

  /** The host buffer of the slot is filled with new arguments. */
  function Stage(s: State, x: nat, args: seq<Byte>, queue: nat): State
    requires x < |s.slots| == |s.staged| && |args| <= |s.slots[x].host|
  {
    s.(slots := s.slots[x := s.slots[x].(host := Splice(s.slots[x].host, 0, args))],
       staged := s.staged[x := Staged(args, queue, |s.commands|, None)])
  }

  lemma StageKeepsInv(s: State, x: nat, args: seq<Byte>, queue: nat)
    requires Inv(s) && x < |s.slots| && Reusable(s, x) && |args| <= |s.slots[x].host|
    ensures Inv(Stage(s, x, args, queue))
  {
    ReusableIsIdle(s, x);
    var s' := Stage(s, x, args, queue);
    forall y | 0 <= y < |s'.slots|
      ensures SlotOk(s', y) && OwnerOk(s', y)
    {
      assert SlotOk(s, y) && OwnerOk(s, y);
    }
  }

  /** A command with a fresh tag is queued, and becomes the last to use its slot. */
  function Push(s: State, c: Command): State
    requires |s.slots| == |s.staged| && (c.task.Other? || c.slot < |s.slots|)
  {
    var i := |s.commands|;
    s.(commands := s.commands + [c], outstanding := s.outstanding + {c.tag}, holder := s.holder[c.tag := i],
       staged := if c.task.Other? then s.staged else s.staged[c.slot := s.staged[c.slot].(last := Some(i))])
  }

  predicate Fresh(s: State, c: Command) {
    c.tag !in s.outstanding && c.moved == {} && !c.done && !c.ok && !c.released && c.saw
  }

  /** So far, the arguments staged in slot `x` have been written up to byte `n`. */
  predicate Writing(s: State, x: nat, n: nat)
    requires x < |s.staged|
  {
    var g := s.staged[x];
    && WritesOk(s.commands, |s.commands|, g.since, x, g.queue, n)
    && (forall k | g.since <= k < |s.commands| :: s.commands[k].barrier)
    && (if g.since == |s.commands| then g.last.None? else g.last == Some((|s.commands| - 1) as nat))
  }

  lemma NothingWritten(s: State, x: nat, args: seq<Byte>, queue: nat)
    requires x < |s.slots| == |s.staged| && |args| <= |s.slots[x].host|
    ensures Writing(Stage(s, x, args, queue), x, 0)
  {
  }

  lemma PushKeepsSlots(s: State, c: Command, y: nat)
    requires Shape(s) && Fresh(s, c) && y < |s.slots| && (c.task.Other? || c.slot < |s.slots|)
    requires UseOk(c, |s.commands|, y, Push(s, c).staged[y], s.slots[y].region)
    requires c.Uses(y) ==>
               forall k | s.staged[y].since <= k < |s.commands| && s.commands[k].Uses(y) :: s.commands[k].task.Write?
    requires c.Uses(y) && c.task.Write? ==> c.barrier
    ensures SlotOk(Push(s, c), y)
  {
    var s' := Push(s, c);
    assert SlotOk(s, y);
    forall k | 0 <= k < |s.commands|
      ensures UseOk(s'.commands[k], k, y, s'.staged[y], s'.slots[y].region)
    {
      assert UseOk(s.commands[k], k, y, s.staged[y], s.slots[y].region);
    }
  }

  lemma PushKeepsTags(s: State, c: Command)
    requires TagsOk(s) && Fresh(s, c) && |s.slots| == |s.staged| && (c.task.Other? || c.slot < |s.slots|)
    ensures TagsOk(Push(s, c))
  {
  }

  lemma KernelStays(commands: seq<Command>, c: Command, k: nat)
    requires k < |commands| && KernelOk(commands, k)
    ensures KernelOk(commands + [c], k)
  {
    var all := commands + [c];
    assert forall j | 0 <= j <= k :: all[j] == commands[j];
    if commands[k].task.Kernel? && AllSucceeded(all, commands[k].task.first, k) {
      assert forall j | commands[k].task.first <= j < k :: all[j].Succeeded() && commands[j].Succeeded();
    }
  }

  lemma PushKeepsKernels(s: State, c: Command)
    requires Shape(s) && (c.task.Other? || c.slot < |s.slots|)
    ensures forall k | 0 <= k < |s.commands| :: KernelOk(Push(s, c).commands, k)
  {
    forall k | 0 <= k < |s.commands|
      ensures KernelOk(Push(s, c).commands, k)
    {
      KernelStays(s.commands, c, k);
    }
  }

  lemma PushWriteKeepsShape(s: State, x: nat, c: Command)
    requires Shape(s) && Fresh(s, c) && x < |s.slots| && c.slot == x && c.task.Write? && c.barrier
    requires Writing(s, x, c.task.from) && c.queue == s.staged[x].queue
    requires c.task.from < c.task.to <= |s.staged[x].args|
    ensures Shape(Push(s, c)) && Writing(Push(s, c), x, c.task.to)
    ensures forall y | 0 <= y < |s.slots| && y != x && OwnerOk(s, y) :: OwnerOk(Push(s, c), y)
  {
    PushKeepsTags(s, c);
    PushKeepsBarriers(s.commands, c);
    PushKeepsKernels(s, c);
    assert SlotOk(s, x);
    forall y | 0 <= y < |s.slots|
      ensures SlotOk(Push(s, c), y) && (y != x && OwnerOk(s, y) ==> OwnerOk(Push(s, c), y))
    {
      assert SlotOk(s, y);
      PushKeepsSlots(s, c, y);
    }
  }

  lemma PushKernelKeepsShape(s: State, x: nat, c: Command)
    requires Shape(s) && Fresh(s, c) && x < |s.slots| && c.slot == x && c.queue == s.staged[x].queue
    requires c.task == Kernel(s.staged[x].since, s.staged[x].args)
    requires Writing(s, x, |s.staged[x].args|)
    requires !c.barrier ==> AllSucceeded(s.commands, s.staged[x].since, |s.commands|)
    ensures Shape(Push(s, c))
    ensures forall y | 0 <= y < |s.slots| && y != x && OwnerOk(s, y) :: OwnerOk(Push(s, c), y)
  {
    PushKeepsTags(s, c);
    PushKeepsBarriers(s.commands, c);
    PushKeepsKernels(s, c);
    assert SlotOk(s, x);
    forall y | 0 <= y < |s.slots|
      ensures SlotOk(Push(s, c), y) && (y != x && OwnerOk(s, y) ==> OwnerOk(Push(s, c), y))
    {
      assert SlotOk(s, y);
      PushKeepsSlots(s, c, y);
    }
    assert KernelOk(Push(s, c).commands, |s.commands|);
  }

  lemma PushOtherKeepsInv(s: State, c: Command)
    requires Inv(s) && Fresh(s, c) && c.task.Other?
    ensures Inv(Push(s, c))
  {
    PushKeepsTags(s, c);
    PushKeepsBarriers(s.commands, c);
    PushKeepsKernels(s, c);
    forall y | 0 <= y < |s.slots|
      ensures SlotOk(Push(s, c), y) && OwnerOk(Push(s, c), y)
    {
      PushKeepsSlots(s, c, y);
      assert OwnerOk(s, y) && SlotOk(s, y);
    }
  }

  /** The slot is assigned to the last command that uses it. */
  function Own(s: State, x: nat, tag: Tag): State
    requires x < |s.slots|
  {
    s.(slots := s.slots[x := s.slots[x].(owner := Some(tag))])
  }

  lemma OwnKeepsShape(s: State, x: nat, tag: Tag)
    requires Shape(s) && x < |s.slots|
    requires forall y | 0 <= y < |s.slots| && y != x :: OwnerOk(s, y)
    requires s.staged[x].last.Some? && s.staged[x].last.value < |s.commands|
             && s.commands[s.staged[x].last.value].tag == tag
    ensures Inv(Own(s, x, tag))
  {
    var s' := Own(s, x, tag);
    forall y | 0 <= y < |s.slots|
      ensures SlotOk(s', y) && OwnerOk(s', y)
    {
      assert SlotOk(s, y) && (y != x ==> OwnerOk(s, y));
    }
  }

  /** Every launch whose kernel and argument writes all succeeded has found, at every read,
      exactly the argument bytes it was given. */
  lemma LaunchSawItsArguments(s: State, i: nat)
    requires Inv(s) && i < |s.commands| && s.commands[i].task.Kernel?
    requires AllSucceeded(s.commands, s.commands[i].task.first, i)
    ensures s.commands[i].saw
  {
    assert KernelOk(s.commands, i);
  }

  lemma WritesStay(a: seq<Command>, b: seq<Command>, i: nat, first: nat, slot: nat, queue: nat, n: nat)
    requires i <= |a| == |b| && WritesOk(a, i, first, slot, queue, n)
    requires forall k | 0 <= k < |a| :: a[k].Became(b[k])
    ensures WritesOk(b, i, first, slot, queue, n)
  {
    forall k | first <= k < i
      ensures a[k].task == b[k].task && a[k].slot == b[k].slot && a[k].queue == b[k].queue
    {
      assert a[k].Became(b[k]);
    }
  }

  lemma WritingStays(s: State, s': State, x: nat, n: nat)
    requires Follows(s, s') && x < |s.staged| && Writing(s, x, n)
    ensures Writing(s', x, n)
  {
    var g := s.staged[x];
    WritesStay(s.commands, s'.commands, |s.commands|, g.since, x, g.queue, n);
    forall k | g.since <= k < |s.commands|
      ensures s'.commands[k].barrier
    {
      assert s.commands[k].Became(s'.commands[k]);
    }
  }

  lemma SuccessStays(a: seq<Command>, b: seq<Command>, first: nat, i: nat)
    requires i <= |a| <= |b| && AllSucceeded(a, first, i)
    requires forall k | 0 <= k < |a| :: a[k].Became(b[k])
    ensures AllSucceeded(b, first, i)
  {
    forall k | first <= k < i
      ensures b[k].Succeeded()
    {
      assert a[k].Succeeded() && a[k].Became(b[k]);
    }
  }

  lemma FollowsOn(a: State, b: State, c: State)
    requires Follows(a, b) && Follows(b, c)
    ensures Follows(a, c)
  {
    forall i | 0 <= i < |a.commands|
      ensures a.commands[i].Became(c.commands[i])
    {
      assert a.commands[i].Became(b.commands[i]) && b.commands[i].Became(c.commands[i]);
    }
  }

  // --- The driver ---------------------------------------------------------------------------

  /** A `PendingLaunch`: the launch, and where the argument writes begin that precede it and
      have not been collected. */
  datatype Pending = Pending(kernel: nat, first: nat)

  /** More commands, and the old ones at most further along. */
  predicate Extends(a: seq<Command>, b: seq<Command>) {
    |a| <= |b| && forall i | 0 <= i < |a| :: a[i].Became(b[i])
  }

  lemma ExtendsSelf(a: seq<Command>)
    ensures Extends(a, a)
  {
  }

  lemma ExtendsOn(a: seq<Command>, b: seq<Command>, c: seq<Command>)
    requires Extends(a, b) && Extends(b, c)
    ensures Extends(a, c) && |a| <= |b| <= |c|
  {
    forall i | 0 <= i < |a|
      ensures a[i].Became(c[i])
    {
      assert a[i].Became(b[i]) && b[i].Became(c[i]);
    }
  }

  /** What `launch_async` is asked for. */
  datatype Request = Request(args: seq<Byte>, queue: nat, barrier: bool)

  /** The launch was pushed as requested: to this queue, with `BARRIER` or not, and with these
      arguments. The writes of them that it still has to collect are all of them if it carries
      `BARRIER`, and none otherwise. */
  predicate Carries(commands: seq<Command>, p: Pending, q: Request) {
    && p.first <= p.kernel < |commands|
    && var c := commands[p.kernel];
    && c.queue == q.queue && c.barrier == q.barrier
    && (if q.args == [] then c.task.Other? && p.first == p.kernel
        else c.task.Kernel? && c.task.args == q.args && p.first == if q.barrier then c.task.first else p.kernel)
  }

  /** The launch has completed, and its kernel has found its arguments to be these bytes,
      however often and whenever it has read them; and with `BARRIER`, everything before it on
      its queue has completed. */
  predicate RanWith(commands: seq<Command>, p: Pending, q: Request) {
    && Carries(commands, p, q) && commands[p.kernel].Succeeded()
    && (q.args != [] ==> commands[p.kernel].saw)
    && (q.barrier ==> EarlierDone(commands, p.kernel))
  }

  /** Whatever comes after it, a launch keeps what was requested, and one that has run has run. */
  lemma LaunchStays(a: seq<Command>, b: seq<Command>, p: Pending, q: Request)
    requires Extends(a, b)
    ensures Carries(a, p, q) ==> Carries(b, p, q)
    ensures RanWith(a, p, q) ==> RanWith(b, p, q)
  {
    if p.kernel < |a| {
      assert a[p.kernel].Became(b[p.kernel]);
      forall k | 0 <= k < p.kernel
        ensures a[k].Became(b[k])
      {
      }
    }
  }

  /** Over all runs, a launch requested with `BARRIER` can have no effect, and has had none, until
      every command before it on its queue is done. */
  lemma BarrierHolds(s: State, p: Pending, q: Request, effects: seq<Effect>)
    requires Inv(s) && Carries(s.commands, p, q) && q.barrier
    ensures
      var s' := Run(s, effects);
      && |s'.commands| == |s.commands|
      && (Active(s', p.kernel) || s'.commands[p.kernel].Begun() ==>
            forall k | 0 <= k < p.kernel && s'.commands[k].queue == q.queue :: s'.commands[k].done)
  {
    RunKeepsShape(s, effects);
    var s' := Run(s, effects);
    assert s.commands[p.kernel].Became(s'.commands[p.kernel]);
    if Active(s', p.kernel) || s'.commands[p.kernel].Begun() {
      assert EarlierDone(s'.commands, p.kernel);
    }
  }

  /** A new slot's host buffer and device region. */
  datatype Offer = Offer(host: seq<Byte>, region: seq<Byte>)

  class Launcher {
    var slots: seq<Slot>
    var outstanding: set<Tag>

    // The device's side, and what is staged in each slot.
    var commands: seq<Command>
    var staged: seq<Staged>
    var holder: map<Tag, nat>

    // What the transport will answer to each request, and what it has answered.
    const world: nat -> Turn<Effect, Offer>
    var log: seq<Happening>

    function Now(): State
      reads this
    {
      State(commands, slots, outstanding, staged, holder)
    }

    constructor (world: nat -> Turn<Effect, Offer>)
      ensures Inv(Now()) && slots == [] && commands == [] && this.world == world && log == []
    {
      this.world, log := world, [];
      slots, outstanding, commands, staged, holder := [], {}, [], [], map[];
    }

    /** Time passes, and the device does this, and other responses arrive. */
    method Progress(effects: seq<Effect>)
      requires Shape(Now())
      modifies this`slots, this`outstanding, this`commands
      ensures Shape(Now()) && Follows(old(Now()), Now()) && Now() == Run(old(Now()), effects)
      ensures forall x | 0 <= x < |slots| && old(OwnerOk(Now(), x)) :: OwnerOk(Now(), x)
    {
      RunKeepsShape(Now(), effects);
      var next := Run(Now(), effects);
      slots, outstanding, commands := next.slots, next.outstanding, next.commands;
    }

    /** `args_slot`: the smallest reusable slot that fits, or else a new one. */
    method ArgsSlot(len: nat) returns (r: Option<nat>)
      requires Inv(Now())
      modifies this`slots, this`staged, this`log
      ensures Inv(Now()) && commands == old(commands) && outstanding == old(outstanding)
      ensures Went(world, old(log), log, r.Some?)
      ensures |slots| >= |old(slots)| && slots[..|old(slots)|] == old(slots)
      ensures r.Some? ==> r.value < |slots| && Reusable(Now(), r.value) && len <= slots[r.value].size
      ensures r.Some? && r.value < |old(slots)| ==>
                forall y | 0 <= y < |slots| && Reusable(Now(), y) && len <= slots[y].size ::
                  slots[r.value].size <= slots[y].size
      ensures r.None? || r.value == |old(slots)| ==>
                forall y | 0 <= y < |old(slots)| && old(Reusable(Now(), y)) :: old(slots)[y].size < len
    {
      NothingWent(world, log);
      r := None;
      for y := 0 to |slots|
        invariant r.Some? ==> r.value < y && Reusable(Now(), r.value) && len <= slots[r.value].size
        invariant forall z | 0 <= z < y && Reusable(Now(), z) && len <= slots[z].size ::
                    r.Some? && slots[r.value].size <= slots[z].size
      {
        if slots[y].size >= len && (slots[y].owner.None? || slots[y].owner.value !in outstanding)
           && (r.None? || slots[y].size < slots[r.value].size) {
          r := Some(y);
        }
      }
      if r.None? {
        var offer := world(|log|).offer;
        var ok := offer.Some? && |offer.value.host| == len == |offer.value.region|;
        OneWent(world, log, Offered(ok));
        log := log + [Offered(ok)];
        if !ok {
          return None;
        }
        var (host, region) := (offer.value.host, offer.value.region);
        AddSlotKeepsInv(Now(), len, host, region);
        slots := slots + [Slot(len, host, region, None)];
        staged := staged + [Staged([], 0, |commands|, None)];
        assert Now() == AddSlot(old(Now()), len, host, region);
        r := Some(|slots| - 1);
      }
    }

    /** `next_tag`, from wherever its cursor is, and `push_cmd`: fails exactly if no tag is free
        or the push is refused for good, with nothing queued. */
    method PushCommand(c: Command) returns (pushed: Option<Command>)
      requires |slots| == |staged| && (c.task.Other? || c.slot < |slots|)
      modifies this`commands, this`outstanding, this`staged, this`holder, this`log
      ensures pushed.None? ==> Now() == old(Now())
      ensures pushed.Some? <==> (exists t: Tag :: t !in old(outstanding)) && world(|old(log)|).refusal.None?
      ensures Went(world, old(log), log, pushed.Some?)
      ensures Extends(old(commands), commands)
      ensures pushed.Some? ==>
                && pushed.value == c.(tag := pushed.value.tag) && pushed.value.tag !in old(outstanding)
                && Now() == Push(old(Now()), pushed.value)
    {
      var start: Tag, refusal := *, world(|log|).refusal;
      Commands.NextTagIsFirstFree(Commands.Host(start, outstanding, {}, map[]));
      var free := Commands.FirstFree(outstanding, start, Commands.TAGS);
      if free.None? {
        refusal := Some(Limit);
      }
      OneWent(world, log, Pushed(refusal));
      log := log + [Pushed(refusal)];
      if refusal.Some? {
        return None;
      }
      var i, tag := |commands|, free.value;
      pushed := Some(c.(tag := tag));
      commands, outstanding, holder := commands + [c.(tag := tag)], outstanding + {tag}, holder[tag := i];
      if !c.task.Other? {
        staged := staged[c.slot := staged[c.slot].(last := Some(i))];
      }
    }

    /** Every slot but `x` has its owner in order. */
    predicate OthersOwned(x: nat)
      reads this
      requires |slots| == |staged|
    {
      forall y | 0 <= y < |slots| && y != x :: OwnerOk(Now(), y)
    }

    /** `push_args_dma`: stages `args` in slot `x` and pushes their writes, as many as it
        takes. The slot belongs to the last one pushed. */
    method PushArgsDma(x: nat, args: seq<Byte>, queue: nat) returns (ok: bool)
      requires Inv(Now()) && x < |slots| && Reusable(Now(), x) && 0 < |args| <= slots[x].size
      modifies this
      ensures Inv(Now()) && |slots| == |old(slots)| && Extends(old(commands), commands)
      ensures ok ==> Writing(Now(), x, |args|) && staged[x].args == args && staged[x].queue == queue
                     && staged[x].since == |old(commands)|
      ensures Went(world, old(log), log, ok)
    {
      ok := true;
      NothingWent(world, log);
      assert SlotOk(Now(), x);
      NothingWritten(Now(), x, args, queue);
      hide SlotOk, KernelOk, TagsOk, OwnerOk, DoneOk, UseOk, Writing, Went, BarriersHeld;
      StageKeepsInv(Now(), x, args, queue);
      slots := slots[x := slots[x].(host := Splice(slots[x].host, 0, args))];
      staged := staged[x := Staged(args, queue, |commands|, None)];
      assert Now() == Stage(old(Now()), x, args, queue);
      var n := 0;
      while n < |args| && ok
        invariant Shape(Now()) && |slots| == |old(slots)| && OthersOwned(x) && n <= |args|
        invariant staged[x].args == args && staged[x].queue == queue && staged[x].since == |old(commands)|
        invariant Writing(Now(), x, n) && Extends(old(commands), commands) && Went(world, old(log), log, ok)
        decreases |args| - n, ok
      {
        ghost var before, asked := commands, log;
        n, ok := PushWrite(x, n, |args|, queue);
        WentOn(world, old(log), asked, log, ok);
        ExtendsOn(old(commands), before, commands);
      }
      if staged[x].last.Some? {
        OwnKeepsShape(Now(), x, commands[|commands| - 1].tag);
        slots := slots[x := slots[x].(owner := Some(commands[|commands| - 1].tag))];
      }
    }

    /** Waits for space and pushes the write of the next bytes. */
    method PushWrite(x: nat, n: nat, total: nat, queue: nat) returns (to: nat, ok: bool)
      requires Shape(Now()) && x < |slots| && OthersOwned(x) && n < total == |staged[x].args| && queue == staged[x].queue
      requires Writing(Now(), x, n)
      modifies this`slots, this`commands, this`outstanding, this`staged, this`holder, this`log
      ensures Shape(Now()) && |slots| == |old(slots)| && OthersOwned(x) && Went(world, old(log), log, ok)
      ensures staged[x].(last := None) == old(staged[x].(last := None))
      ensures n <= to <= total && (ok ==> n < to) && Writing(Now(), x, to) && Extends(old(commands), commands)
    {
      hide SlotOk, KernelOk, TagsOk, Writing, OwnerOk, DoneOk, Went, Run, BarriersHeld;
      to := *;
      if !(n < to <= total) {
        to := total;
      }
      ghost var before := Now();
      Progress(world(|log|).effects);
      WritingStays(before, Now(), x, n);
      ghost var moved := Now();
      var c := Command(0, queue, true, x, Write(n, to), {}, false, false, false, true);
      var pushed := PushCommand(c);
      if pushed.None? {
        return n, false;
      }
      PushWriteKeepsShape(moved, x, pushed.value);
      ExtendsOn(before.commands, moved.commands, commands);
      ok := true;
    }

    /** Waits for the response to command `i`, and returns whether it reports success: exactly
        if the device has completed it with success by the deadline, and its response, not
        collected before, arrives whole. */
    method AwaitOne(i: nat) returns (ok: bool)
      requires Inv(Now()) && i < |commands|
      modifies this`slots, this`outstanding, this`commands, this`log
      ensures Inv(Now()) && Follows(old(Now()), Now()) && Went(world, old(log), log, ok)
      ensures
        var turn := world(|old(log)|);
        var after := Run(old(Now()), turn.effects).commands;
        && i < |after| && (ok <==> after[i].Succeeded() && !after[i].released && turn.reply.Whole?)
      ensures ok ==> commands[i].Succeeded()
    {
      hide Run;
      var turn := world(|log|);
      Progress(turn.effects);
      var h := Polled(commands[i].done && !commands[i].released, commands[i].ok, turn.reply);
      OneWent(world, log, h);
      log := log + [h];
      if turn.reply.Broken? || !commands[i].done || commands[i].released {
        return false;
      }
      ghost var moved := Now();
      StepKeepsShape(moved, Release(i));
      StepFollows(moved, Release(i));
      outstanding := outstanding - {commands[i].tag};
      commands := commands[i := commands[i].(released := true)];
      assert Now() == Step(moved, Release(i));
      FollowsOn(old(Now()), moved, Now());
      ok := commands[i].ok && turn.reply.Whole?;
    }

    method AwaitAll(first: nat, end: nat) returns (ok: bool)
      requires Inv(Now()) && first <= end <= |commands|
      modifies this`slots, this`outstanding, this`commands, this`log
      ensures Inv(Now()) && Follows(old(Now()), Now()) && Went(world, old(log), log, ok)
      ensures ok ==> AllSucceeded(commands, first, end)
    {
      NothingWent(world, log);
      hide Went, Run;
      for i := first to end
        invariant Inv(Now()) && Follows(old(Now()), Now()) && Went(world, old(log), log, true)
        invariant AllSucceeded(commands, first, i)
      {
        ghost var before, asked := Now(), log;
        ok := AwaitOne(i);
        WentOn(world, old(log), asked, log, ok);
        FollowsOn(old(Now()), before, Now());
        SuccessStays(before.commands, commands, first, i);
        if !ok {
          return;
        }
      }
      ok := true;
    }

    /** `launch_async`. Without `BARRIER` the writes are awaited before the launch is pushed. */
    method LaunchAsync(q: Request) returns (r: Option<Pending>)
      requires Inv(Now())
      modifies this
      ensures Inv(Now()) && Extends(old(commands), commands) && Went(world, old(log), log, r.Some?)
      ensures r.Some? ==> Carries(commands, r.value, q) && r.value.kernel >= |old(commands)|
    {
      hide Went;
      if q.args == [] {
        r := LaunchPlain(q);
        return;
      }
      var slot := ArgsSlot(|q.args|);
      if slot.None? {
        return None;
      }
      var first := |commands|;
      ghost var asked := log;
      var ok := PushArgsDma(slot.value, q.args, q.queue);
      WentOn(world, old(log), asked, log, ok);
      ghost var pushed := commands;
      if ok && !q.barrier {
        ghost var before := Now();
        asked := log;
        ok := AwaitAll(first, |commands|);
        WentOn(world, old(log), asked, log, ok);
        WritingStays(before, Now(), slot.value, |q.args|);
        ExtendsOn(old(commands), pushed, commands);
      }
      if !ok {
        return None;
      }
      ghost var awaited := commands;
      asked := log;
      r := LaunchWithArgs(slot.value, q);
      WentOn(world, old(log), asked, log, r.Some?);
      ExtendsOn(old(commands), awaited, commands);
    }

    method LaunchPlain(q: Request) returns (r: Option<Pending>)
      requires Inv(Now()) && q.args == []
      modifies this
      ensures Inv(Now()) && Extends(old(commands), commands) && Went(world, old(log), log, r.Some?)
      ensures r.Some? ==> Carries(commands, r.value, q) && r.value.kernel >= |old(commands)|
    {
      var pushed := PushCommand(Command(0, q.queue, q.barrier, 0, Other, {}, false, false, false, true));
      if pushed.None? {
        return None;
      }
      PushOtherKeepsInv(old(Now()), pushed.value);
      r := Some(Pending(|commands| - 1, |commands| - 1));
    }

    /** Pushes the launch itself, to which the slot then belongs. */
    method LaunchWithArgs(x: nat, q: Request) returns (r: Option<Pending>)
      requires Inv(Now()) && x < |slots| && Writing(Now(), x, |q.args|)
      requires q.args != [] && staged[x].args == q.args && staged[x].queue == q.queue
      requires !q.barrier ==> AllSucceeded(commands, staged[x].since, |commands|)
      modifies this
      ensures Inv(Now()) && Extends(old(commands), commands) && Went(world, old(log), log, r.Some?)
      ensures r.Some? ==> Carries(commands, r.value, q) && r.value.kernel >= |old(commands)|
    {
      var first := staged[x].since;
      var c := Command(0, q.queue, q.barrier, x, Kernel(first, q.args), {}, false, false, false, true);
      var pushed := PushCommand(c);
      if pushed.None? {
        return None;
      }
      PushKernelKeepsShape(old(Now()), x, pushed.value);
      OwnKeepsShape(Now(), x, pushed.value.tag);
      slots := slots[x := slots[x].(owner := Some(pushed.value.tag))];
      r := Some(Pending(|commands| - 1, if q.barrier then first else |commands| - 1));
    }

    /** `wait_launch`, whenever it is called after the launch: if it succeeds, the kernel has
        completed and has found its arguments to be exactly the bytes given. */
    method WaitLaunch(p: Pending, ghost q: Request) returns (ok: bool)
      requires Inv(Now()) && Carries(commands, p, q)
      modifies this`slots, this`outstanding, this`commands, this`log
      ensures Inv(Now()) && Follows(old(Now()), Now()) && Extends(old(commands), commands)
      ensures Carries(commands, p, q) && (ok ==> RanWith(commands, p, q)) && Went(world, old(log), log, ok)
    {
      hide Went, Run;
      ok := AwaitAll(p.first, p.kernel);
      ghost var before, asked := Now(), log;
      LaunchStays(old(commands), before.commands, p, q);
      if ok {
        ok := AwaitOne(p.kernel);
        WentOn(world, old(log), asked, log, ok);
        FollowsOn(old(Now()), before, Now());
        LaunchStays(before.commands, commands, p, q);
        if ok {
          if q.args != [] && q.barrier {
            SuccessStays(before.commands, commands, p.first, p.kernel);
          }
          LaunchRan(Now(), p, q);
        }
      }
    }

    /** Any launches and waits, in any order, as many in flight at once as one likes: every
        launch is the one requested, and every wait that succeeds has seen a kernel that has
        found exactly its own arguments. `ran` are the launches waited for with success, and
        `marks` what the transport had answered before each action and after the last: a
        launch or a wait succeeds exactly if it meets with no mishap. */
    method Perform(actions: seq<Action>)
        returns (launches: seq<Option<Pending>>, ran: set<nat>, ghost marks: seq<seq<Happening>>)
      requires Inv(Now())
      modifies this
      ensures Inv(Now()) && |launches| == |Requests(actions)| && Extends(old(commands), commands)
      ensures forall k | 0 <= k < |launches| && launches[k].Some? ::
                Carries(commands, launches[k].value, Requests(actions)[k]) && launches[k].value.kernel >= |old(commands)|
      ensures forall i, k | 0 <= i < k < |launches| && launches[i].Some? && launches[k].Some? ::
                launches[i].value.kernel < launches[k].value.kernel
      ensures forall k | k in ran ::
                k < |launches| && launches[k].Some? && RanWith(commands, launches[k].value, Requests(actions)[k])
      ensures AllWent(world, actions, |actions|, launches, ran, marks) && marks[0] == old(log) && marks[|actions|] == log
    {
      launches, ran := [], {};
      marks := [log];
      hide Went, Extends;
      ExtendsSelf(commands);
      for n := 0 to |actions|
        invariant Inv(Now()) && Extends(old(commands), commands) && |old(commands)| <= |commands|
        invariant AllKept(commands, |old(commands)|, launches, ran, Requests(actions[..n]))
        invariant AllWent(world, actions, n, launches, ran, marks) && marks[0] == old(log) && marks[n] == log
      {
        ghost var before := commands;
        launches, ran := Act(actions, n, |old(commands)|, launches, ran, marks);
        marks := marks + [log];
        ExtendsOn(old(commands), before, commands);
      }
      assert actions[..|actions|] == actions;
    }

    /** One action. */
    method Act(actions: seq<Action>, n: nat, ghost from: nat, launches: seq<Option<Pending>>, ran: set<nat>,
               ghost marks: seq<seq<Happening>>)
        returns (launches': seq<Option<Pending>>, ran': set<nat>)
      requires Inv(Now()) && n < |actions| && from <= |commands|
      requires AllKept(commands, from, launches, ran, Requests(actions[..n]))
      requires AllWent(world, actions, n, launches, ran, marks) && marks[n] == log
      modifies this
      ensures Inv(Now()) && Extends(old(commands), commands)
      ensures AllKept(commands, from, launches', ran', Requests(actions[..n + 1]))
      ensures AllWent(world, actions, n + 1, launches', ran', marks + [log])
    {
      hide Went, Extends, Carries, RanWith;
      ghost var before, all := commands, Requests(actions[..n]);
      assert actions[..n + 1][..n] == actions[..n];
      launches', ran' := launches, ran;
      match actions[n] {
        case Launch(q) =>
          var p := LaunchAsync(q);
          KeptOn(before, commands, from, launches, ran, all);
          OneMoreKept(before, commands, from, launches, ran, all, p, q);
          launches' := launches + [p];
          WentOnLaunch(world, actions, n, launches, ran, marks, log, p);
        case Wait(k) =>
          if k < |launches| && launches[k].Some? {
            var ok := WaitLaunch(launches[k].value, all[k]);
            KeptOn(before, commands, from, launches, ran, all);
            if ok {
              ran' := ran + {k};
            }
            WentOnWait(world, actions, n, launches, ran, marks, log, k, ok);
          } else {
            ExtendsSelf(commands);
            WentOnWait(world, actions, n, launches, ran, marks, log, k, false);
          }
      }
    }
  }

  /** What a launch that has succeeded, after its argument writes, has found. */
  lemma LaunchRan(s: State, p: Pending, q: Request)
    requires Inv(s) && Carries(s.commands, p, q) && s.commands[p.kernel].Succeeded()
    requires q.args != [] && q.barrier ==> AllSucceeded(s.commands, p.first, p.kernel)
    ensures RanWith(s.commands, p, q)
  {
    assert KernelOk(s.commands, p.kernel);
  }

  // --- Launches together -----------------------------------------------------------------------

  datatype Action =
    | Launch(request: Request)
    /** Wait for the `n`-th launch. */
    | Wait(n: nat)

  /** What all launches are asked for, in order. */
  ghost function Requests(actions: seq<Action>): seq<Request>
    decreases |actions|
  {
    if actions == [] then []
    else
      var (rest, last) := (Requests(actions[..|actions| - 1]), actions[|actions| - 1]);
      if last.Launch? then rest + [last.request] else rest
  }

  /** Every launch is as requested and among the commands from `from` on, in order; and those
      that ran have found their arguments. */
  ghost predicate AllKept(commands: seq<Command>, from: nat, launches: seq<Option<Pending>>, ran: set<nat>,
                          all: seq<Request>) {
    && |launches| == |all|
    && (forall k | 0 <= k < |launches| && launches[k].Some? ::
          Carries(commands, launches[k].value, all[k]) && launches[k].value.kernel >= from)
    && (forall i, k | 0 <= i < k < |launches| && launches[i].Some? && launches[k].Some? ::
          launches[i].value.kernel < launches[k].value.kernel)
    && forall k | k in ran :: k < |launches| && launches[k].Some? && RanWith(commands, launches[k].value, all[k])
  }

  /** The `n`-th action is a wait for the launch `k`, which was there to be waited for, and meets
      with no mishap. */
  ghost predicate WaitedAt(world: nat -> Turn<Effect, Offer>, actions: seq<Action>, launches: seq<Option<Pending>>,
                           marks: seq<seq<Happening>>, n: nat, k: nat)
    requires n < |actions| && n + 1 < |marks|
  {
    && actions[n] == Wait(k) && k < |Requests(actions[..n])| && k < |launches| && launches[k].Some?
    && Went(world, marks[n], marks[n + 1], true)
  }

  /** The first `m` actions have succeeded or not as the transport has it. */
  ghost predicate AllWent(world: nat -> Turn<Effect, Offer>, actions: seq<Action>, m: nat,
                          launches: seq<Option<Pending>>, ran: set<nat>, marks: seq<seq<Happening>>) {
    && m <= |actions| && |marks| == m + 1 && |launches| == |Requests(actions[..m])|
    && (forall n | 0 <= n < m && actions[n].Launch? ::
          && |Requests(actions[..n])| < |launches|
          && Went(world, marks[n], marks[n + 1], launches[|Requests(actions[..n])|].Some?))
    && (forall k | k in ran :: exists n | 0 <= n < m :: WaitedAt(world, actions, launches, marks, n, k))
    && (forall n, k | 0 <= n < m && WaitedAt(world, actions, launches, marks, n, k) :: k in ran)
  }

  lemma {:induction false} RequestsGrow(actions: seq<Action>, n: nat, m: nat)
    requires n <= m <= |actions|
    ensures |Requests(actions[..n])| <= |Requests(actions[..m])|
    decreases m
  {
    if n < m {
      assert actions[..m][..m - 1] == actions[..m - 1];
      RequestsGrow(actions, n, m - 1);
    }
  }

  /** What was so of the actions so far is so after one more. */
  lemma WentStays(world: nat -> Turn<Effect, Offer>, actions: seq<Action>, m: nat, launches: seq<Option<Pending>>,
                  ran: set<nat>, marks: seq<seq<Happening>>, mark: seq<Happening>, launches': seq<Option<Pending>>)
    requires AllWent(world, actions, m, launches, ran, marks) && launches <= launches'
    ensures forall n, k | 0 <= n < m :: WaitedAt(world, actions, launches', marks + [mark], n, k) <==>
              WaitedAt(world, actions, launches, marks, n, k)
    ensures forall n | 0 <= n < m && actions[n].Launch? ::
              && |Requests(actions[..n])| < |launches|
              && Went(world, (marks + [mark])[n], (marks + [mark])[n + 1], launches'[|Requests(actions[..n])|].Some?)
  {
    hide Went;
    forall n, k | 0 <= n < m
      ensures WaitedAt(world, actions, launches', marks + [mark], n, k) <==>
              WaitedAt(world, actions, launches, marks, n, k)
    {
      RequestsGrow(actions, n, m);
    }
  }

  lemma WentOnLaunch(world: nat -> Turn<Effect, Offer>, actions: seq<Action>, m: nat, launches: seq<Option<Pending>>,
                     ran: set<nat>, marks: seq<seq<Happening>>, mark: seq<Happening>, p: Option<Pending>)
    requires AllWent(world, actions, m, launches, ran, marks) && m < |actions| && actions[m].Launch?
    requires Went(world, marks[m], mark, p.Some?)
    ensures AllWent(world, actions, m + 1, launches + [p], ran, marks + [mark])
  {
    hide Went;
    WentStays(world, actions, m, launches, ran, marks, mark, launches + [p]);
    assert actions[..m + 1][..m] == actions[..m];
  }

  lemma WentOnWait(world: nat -> Turn<Effect, Offer>, actions: seq<Action>, m: nat, launches: seq<Option<Pending>>,
                   ran: set<nat>, marks: seq<seq<Happening>>, mark: seq<Happening>, k: nat, ok: bool)
    requires AllWent(world, actions, m, launches, ran, marks) && m < |actions| && actions[m] == Wait(k)
    requires if k < |launches| && launches[k].Some? then Went(world, marks[m], mark, ok) else !ok
    ensures AllWent(world, actions, m + 1, launches, if ok then ran + {k} else ran, marks + [mark])
  {
    WentStays(world, actions, m, launches, ran, marks, mark, launches);
    assert actions[..m + 1][..m] == actions[..m];
    WentIsOne(world, marks[m], mark);
    hide Went;
    assert WaitedAt(world, actions, launches, marks + [mark], m, k) <==> ok;
  }

  lemma KeptOn(a: seq<Command>, b: seq<Command>, from: nat, launches: seq<Option<Pending>>, ran: set<nat>,
               all: seq<Request>)
    requires Extends(a, b) && AllKept(a, from, launches, ran, all)
    ensures AllKept(b, from, launches, ran, all)
  {
    hide Extends, Carries, RanWith;
    forall k | 0 <= k < |launches| && launches[k].Some?
      ensures Carries(b, launches[k].value, all[k])
      ensures RanWith(a, launches[k].value, all[k]) ==> RanWith(b, launches[k].value, all[k])
    {
      LaunchStays(a, b, launches[k].value, all[k]);
    }
  }

  /** A new launch comes after all others. */
  lemma OneMoreKept(a: seq<Command>, b: seq<Command>, from: nat, launches: seq<Option<Pending>>, ran: set<nat>,
                    all: seq<Request>, p: Option<Pending>, q: Request)
    requires AllKept(a, from, launches, ran, all) && AllKept(b, from, launches, ran, all) && from <= |a|
    requires p.Some? ==> Carries(b, p.value, q) && p.value.kernel >= |a|
    ensures AllKept(b, from, launches + [p], ran, all + [q])
  {
    hide RanWith;
  }
}
