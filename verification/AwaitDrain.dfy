/** `await_dma` of et-rs/src/device.rs as written and as its comment describes it, and what
    becomes of the tags and the staging buffers when a command fails. */
module AwaitDrain {

  /** How collecting one command ends: with a status, or with the command possibly still
      in flight (timeout, transport or protocol failure). */
  datatype Fate = Success | BadStatus | Unknown

  /** After `await_dma`: the commands still in `pending`, those in no table at all that have
      not been collected, and how it ended (`Success` if nothing failed). */
  datatype After = After(pending: seq<nat>, lost: seq<nat>, fate: Fate)

  /** How many of the commands succeed before the first failure. */
  function Successes(commands: seq<nat>, fates: nat -> Fate): (n: nat)
    ensures n <= |commands|
    ensures forall k | 0 <= k < n :: fates(commands[k]) == Success
    ensures n < |commands| ==> fates(commands[n]) != Success
    decreases |commands|
  {
    if commands == [] || fates(commands[0]) != Success then 0 else 1 + Successes(commands[1..], fates)
  }

  /** As documented: each tag leaves `pending` just before it is awaited. */
  function Documented(pending: seq<nat>, count: nat, fates: nat -> Fate): After
    requires count <= |pending|
  {
    var n := Successes(pending[..count], fates);
    if n == count then After(pending[count..], [], Success)
    else After(pending[n + 1..], [], fates(pending[n]))
  }

  /** As written: all `count` tags leave `pending` before the first is awaited. */
  function Written(pending: seq<nat>, count: nat, fates: nat -> Fate): After
    requires count <= |pending|
  {
    var n := Successes(pending[..count], fates);
    if n == count then After(pending[count..], [], Success)
    else After(pending[count..], pending[n + 1..count], fates(pending[n]))
  }

  /** The loop of et-rs/src/device.rs, with what it drains first as a parameter. */
  method Await(pending: seq<nat>, count: nat, fates: nat -> Fate, drainFirst: bool) returns (r: After)
    requires count <= |pending|
    ensures r == if drainFirst then Written(pending, count, fates) else Documented(pending, count, fates)
  {
    var awaited, rest := pending[..count], pending;
    if drainFirst {
      rest := pending[count..];
    }
    for i := 0 to count
      invariant rest == if drainFirst then pending[count..] else pending[i..]
      invariant Successes(awaited, fates) == i + Successes(awaited[i..], fates)
    {
      if !drainFirst {
        rest := rest[1..];
      }
      var fate := fates(awaited[i]);
      if fate != Success {
        return After(rest, if drainFirst then awaited[i + 1..] else [], fate);
      }
    }
    r := After(rest, [], Success);
  }

  /** `restore_staging` and `pinned_transfer` keep the buffers unless the transfer failed
      with commands left in `pending`, or possibly in flight. */
  predicate KeepsBuffers(a: After) {
    a.fate == Success || (a.fate == BadStatus && a.pending == [])
  }

  /** A command is in flight when its fate is unknown or it has not been collected. A
      transfer that succeeds goes on until `pending` is empty. */
  predicate MayBeInFlight(a: After) {
    a.fate == Unknown || a.lost != [] || (a.fate == BadStatus && a.pending != [])
  }

  /** No buffer that is kept can still be in use by the device. */
  predicate BuffersSafe(a: After) {
    KeepsBuffers(a) ==> !MayBeInFlight(a)
  }

  lemma DocumentedIsSafe(pending: seq<nat>, count: nat, fates: nat -> Fate)
    requires count <= |pending|
    ensures BuffersSafe(Documented(pending, count, fates))
    ensures Documented(pending, count, fates).lost == []
  {
  }

  /** Two commands of which the first completes with a bad status: as written, the second is
      in flight with its tag in no table, and the buffers go back into use. */
  lemma WrittenLosesACommand()
    ensures
      var after := Written([0, 1], 2, c => if c == 0 then BadStatus else Unknown);
      after.lost == [1] && KeepsBuffers(after) && !BuffersSafe(after)
  {
    var fates := c => if c == 0 then BadStatus else Unknown;
    assert [0, 1][..2] == [0, 1];
    assert Successes([0, 1], fates) == 0;
    assert Written([0, 1], 2, fates).lost == [0, 1][1..2] == [1];
  }

  function FirstFails(pending: seq<nat>): nat -> Fate
    requires pending != []
  {
    c => if c == pending[0] then BadStatus else Success
  }

  lemma FirstFailureStops(pending: seq<nat>, count: nat)
    requires 1 <= count <= |pending|
    ensures Written(pending, count, FirstFails(pending)) == After(pending[count..], pending[1..count], BadStatus)
  {
    assert pending[..count][0] == pending[0];
  }

  /** As written, the buffers are safe whatever happens exactly when at most one command is
      awaited, or others stay behind in `pending`. */
  lemma WrittenIsSafeIff(pending: seq<nat>, count: nat)
    requires count <= |pending|
    ensures (forall fates :: BuffersSafe(Written(pending, count, fates))) <==> count <= 1 || count < |pending|
  {
    if 1 < count && count == |pending| {
      FirstFailureStops(pending, count);
      assert Written(pending, count, FirstFails(pending)).lost[0] == pending[1];
      assert !BuffersSafe(Written(pending, count, FirstFails(pending)));
    }
  }

  /** As written, no tag is ever lost exactly when at most one command is awaited. */
  lemma WrittenKeepsTagsIff(pending: seq<nat>, count: nat)
    requires count <= |pending|
    ensures (forall fates :: Written(pending, count, fates).lost == []) <==> count <= 1
  {
    if 1 < count {
      FirstFailureStops(pending, count);
      assert Written(pending, count, FirstFails(pending)).lost[0] == pending[1];
    }
  }
}
