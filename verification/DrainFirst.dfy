/** What the order in which `await_dma` of et-rs/src/device.rs drains its tags means for the
    staging buffers: the commands of the last chunk of a transfer, awaited while the device
    runs (see AwaitDrain and Dma). */
module DrainFirst {
  import opened AwaitDrain
  import opened Dma
  import opened LittleEndian
  import DmaList

  /** `n` commands of a transfer, the last in flight, have been pushed, and not yet begun. */
  predicate JustPushed(d: State, n: nat) {
    && Wf(d) && n <= |d.inFlight|
    && (forall i | |d.inFlight| - n <= i < |d.inFlight| :: d.inFlight[i].Untried())
    && (n > 0 ==> Started(d, |d.inFlight| - n))
  }

  /** They are awaited by number. */
  function Numbers(n: nat): (r: seq<nat>)
    ensures |r| == n && forall k | 0 <= k < n :: r[k] == k
  {
    seq(n, k => k)
  }

  /** What collecting the commands told the driver is so. */
  ghost predicate Truthful(d: State, n: nat, fates: nat -> Fate)
    requires n <= |d.inFlight|
  {
    forall k | 0 <= k < n ::
      var t := d.inFlight[|d.inFlight| - n + k];
      && (fates(k) == Success ==> t.done && t.ok)
      && (fates(k) == BadStatus ==> t.done && !t.ok)
  }

  /** None of the commands can still use its buffer. */
  predicate AllEnded(d: State, n: nat) {
    n <= |d.inFlight| && forall i | |d.inFlight| - n <= i < |d.inFlight| :: d.inFlight[i].done
  }

  /** However the device behaves, and whatever the driver learns: if it keeps the buffers
      after awaiting all `n` commands, none of these can use them any more. */
  ghost predicate KeptAreIdle(d: State, n: nat, drainFirst: bool)
    requires JustPushed(d, n)
  {
    forall effects, fates: nat -> Fate |
      |Run(d, effects).inFlight| == |d.inFlight| && Truthful(Run(d, effects), n, fates) ::
      KeepsBuffers(if drainFirst then Written(Numbers(n), n, fates) else Documented(Numbers(n), n, fates)) ==>
        AllEnded(Run(d, effects), n)
  }

  /** In the documented order, the buffers that are kept are always idle. */
  lemma DocumentedKeepsIdle(d: State, n: nat)
    requires JustPushed(d, n)
    ensures KeptAreIdle(d, n, false)
  {
    forall effects, fates: nat -> Fate |
      && |Run(d, effects).inFlight| == |d.inFlight| && Truthful(Run(d, effects), n, fates)
      && KeepsBuffers(Documented(Numbers(n), n, fates))
      ensures AllEnded(Run(d, effects), n)
    {
      var d', all := Run(d, effects), Numbers(n);
      assert all[..n] == all;
      var m := Successes(all, fates);
      forall i | |d'.inFlight| - n <= i < |d'.inFlight|
        ensures d'.inFlight[i].done
      {
        var k := i - (|d'.inFlight| - n);
        assert i == |d'.inFlight| - n + k;
        assert k < m ==> fates(all[k]) == Success;
      }
    }
  }

  /** Draining first, they are idle exactly if one command moves the whole chunk. */
  lemma DrainingFirstKeepsIdleIff(d: State, n: nat, len: nat, maxElem: nat, maxNodes: nat)
    requires JustPushed(d, n) && DmaList.JustEnough(n, len, maxNodes * maxElem)
    ensures KeptAreIdle(d, n, true) <==> len <= maxNodes * maxElem
  {
    DmaList.OneIsEnoughIff(n, len, maxNodes * maxElem);
    if n <= 1 {
      OneKeepsIdle(d);
    } else {
      TwoCanBeBusy(d, n);
    }
  }

  lemma OneKeepsIdle(d: State)
    requires JustPushed(d, 1)
    ensures KeptAreIdle(d, 1, true)
  {
    forall effects, fates: nat -> Fate |
      && |Run(d, effects).inFlight| == |d.inFlight| && Truthful(Run(d, effects), 1, fates)
      && KeepsBuffers(Written(Numbers(1), 1, fates))
      ensures AllEnded(Run(d, effects), 1)
    {
      assert Numbers(1)[..1] == Numbers(1);
      assert Run(d, effects).inFlight[|d.inFlight| - 1 + 0].done;
    }
  }

  /** The first of several commands fails, and the second is still to come. */
  lemma TwoCanBeBusy(d: State, n: nat)
    requires JustPushed(d, n) && n > 1
    ensures !KeptAreIdle(d, n, true)
  {
    var first := |d.inFlight| - n;
    var effects := [Finish(first, false)];
    var fates: nat -> Fate := k => if k == 0 then BadStatus else Unknown;
    StepKeepsWf(d, effects[0]);
    assert effects[1..] == [];
    var d' := Run(d, effects);
    assert Run(Step(d, effects[0]), effects[1..]) == Step(d, effects[0]);
    assert d'.inFlight[first + 0].done && !d'.inFlight[first + 1].done;
    var all := Numbers(n);
    assert all[..n] == all && Successes(all, fates) == 0;
    assert all[n..] == [];
    assert KeepsBuffers(Written(all, n, fates));
    assert Truthful(d', n, fates);
    assert !AllEnded(d', n);
  }

  /** Two commands of one byte each, sending 7 and 8: the first fails, the buffer goes back
      into use with 6 in place of 8, and 6 is what the second command then writes. */
  lemma ReusedBufferIsSent(first: Transfer, second: Transfer, d: State, reused: State)
    requires first == Transfer(0, true, 0, 0, 0, 1, {}, false, false)
    requires second == Transfer(0, true, 0, 1, 1, 1, {}, false, false)
    requires d == State([0, 0], map[0 := [7, 8]], [first, second])
    requires Wf(d) && reused == Step(d, Finish(0, false)).(buffers := map[0 := [7, 6]])
    ensures JustPushed(d, 2) && !KeptAreIdle(d, 2, true)
    ensures Wf(reused) && Step(reused, Copy(1, 0)).memory == [0, 6]
  {
    TwoCanBeBusy(d, 2);
    assert reused.inFlight == [first.(done := true, ok := false), second];
    assert Started(reused, 1);
    assert CopyByte(reused, 1, 0).memory == [0, 0][1 := 6];
  }
}
