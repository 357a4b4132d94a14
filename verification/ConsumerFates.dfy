/**
 * What becomes of each record, told from the outcomes of the calls and publications in a run:
 * handled by its first successful call, else dead-lettered, and dropped only when that fails too.
 */
module ConsumerFates {
  import opened Prelude
  import opened Consumer

  /** The step takes the next record of the batch to an end. */
  predicate Processes<P>(s: State<P>, step: Step<P>) {
    && step.Process? && s.phase.InBatch? && s.phase.next < s.phase.end
    && s.phase.next < |s.log| && !s.log[s.phase.next].Null?
  }

  /** The n-th call, counted from 1, is the first that succeeds. */
  predicate SucceedsAt<P>(maxRetries: int, v: Value<P>, o: Outcome, n: int) {
    && v.Json? && 1 <= n <= maxRetries && n <= |o.calls| && o.calls[n - 1]
    && forall k :: 0 <= k < n - 1 ==> !o.calls[k]
  }

  /** It cannot be read, or no call within the limit succeeds. */
  predicate Fails<P>(maxRetries: int, v: Value<P>, o: Outcome) {
    v.Json? ==> forall k :: 0 <= k < maxRetries && k < |o.calls| ==> !o.calls[k]
  }

  /** The outcome with which the record was last processed. */
  function LastOutcome<P>(maxRetries: int, s: State<P>, steps: seq<Step<P>>, offset: nat): Option<Outcome> {
    if steps == [] then None
    else
      var front, step := steps[..|steps| - 1], steps[|steps| - 1];
      var mid := Run(maxRetries, s, front);
      if Processes(mid, step) && mid.phase.next == offset then Some(step.outcome)
      else LastOutcome(maxRetries, s, front, offset)
  }

  /** The records that failed while the dead-letter producer was up, in order. */
  function Lettered<P>(maxRetries: int, s: State<P>, steps: seq<Step<P>>): seq<nat> {
    if steps == [] then []
    else
      var front, step := steps[..|steps| - 1], steps[|steps| - 1];
      var mid := Run(maxRetries, s, front);
      Lettered(maxRetries, s, front) +
      if Processes(mid, step) && Fails(maxRetries, mid.log[mid.phase.next], step.outcome) && step.outcome.dlqUp
      then [mid.phase.next] else []
  }

  ghost predicate FateTold<P>(maxRetries: int, s: State<P>, offset: nat, o: Outcome) {
    && offset < |s.log| && offset in s.fates
    && match s.fates[offset]
       case Handled(n) => SucceedsAt(maxRetries, s.log[offset], o, n)
       case DeadLettered => Fails(maxRetries, s.log[offset], o) && o.dlqUp && offset in s.dlq
       case DropLogged => Fails(maxRetries, s.log[offset], o) && !o.dlqUp
  }

  ghost predicate Told<P>(maxRetries: int, s: State<P>, offset: nat, last: Option<Outcome>) {
    if last.Some? then FateTold(maxRetries, s, offset, last.value) else offset !in s.fates
  }

  lemma StepTold<P>(maxRetries: int, s: State<P>, step: Step<P>, offset: nat, last: Option<Outcome>)
    requires maxRetries >= 1 && Told(maxRetries, s, offset, last)
    ensures
      var now := if Processes(s, step) && s.phase.next == offset then Some(step.outcome) else last;
      Told(maxRetries, Apply(maxRetries, s, step), offset, now)
  {
  }

  lemma StepLetters<P>(maxRetries: int, s: State<P>, step: Step<P>)
    requires maxRetries >= 1
    ensures Apply(maxRetries, s, step).dlq ==
      s.dlq + if Processes(s, step) && Fails(maxRetries, s.log[s.phase.next], step.outcome) && step.outcome.dlqUp
              then [s.phase.next] else []
  {
  }

  /** In every run, with crashes and redelivery, each record's fate is that of its last processing. */
  lemma {:induction false} FatesAreOutcomes<P>(maxRetries: int, steps: seq<Step<P>>, offset: nat)
    requires maxRetries >= 1
    ensures Told(maxRetries, Run(maxRetries, Empty(), steps), offset, LastOutcome(maxRetries, Empty(), steps, offset))
    ensures Run(maxRetries, Empty(), steps).dlq == Lettered(maxRetries, Empty(), steps)
  {
    hide Told, Apply, Processes, Fails;
    if steps == [] {
      assert Told(maxRetries, Empty<P>(), offset, None) by { NothingTold<P>(maxRetries, offset); }
    } else {
      var front, step := steps[..|steps| - 1], steps[|steps| - 1];
      var mid := Run(maxRetries, Empty(), front);
      FatesAreOutcomes(maxRetries, front, offset);
      StepTold(maxRetries, mid, step, offset, LastOutcome(maxRetries, Empty(), front, offset));
      StepLetters(maxRetries, mid, step);
    }
  }

  lemma NothingTold<P>(maxRetries: int, offset: nat)
    ensures Told(maxRetries, Empty<P>(), offset, None)
  {
  }

  /**
   * Below the committed offset: handled at the first successful call of the last processing; else
   * dead-lettered if the producer was up then, and dropped if and only if it was not.
   */
  lemma CommittedExactly<P>(maxRetries: int, steps: seq<Step<P>>, offset: nat)
    requires maxRetries >= 1 && offset < Run(maxRetries, Empty(), steps).committed
    ensures LastOutcome(maxRetries, Empty(), steps, offset).Some?
    ensures offset < |Run(maxRetries, Empty(), steps).log| && offset in Run(maxRetries, Empty(), steps).fates
    ensures
      var s, o := Run(maxRetries, Empty(), steps), LastOutcome(maxRetries, Empty(), steps, offset).value;
      && (forall n: nat :: s.fates[offset] == Handled(n) <==> SucceedsAt(maxRetries, s.log[offset], o, n))
      && (s.fates[offset] == DropLogged <==> Fails(maxRetries, s.log[offset], o) && !o.dlqUp)
      && (Fails(maxRetries, s.log[offset], o) && o.dlqUp ==> offset in s.dlq)
  {
    var s := Run(maxRetries, Empty(), steps);
    FatesAreOutcomes(maxRetries, steps, offset);
    CommitIsSafe(maxRetries, Empty(), steps);
    assert Settled(maxRetries, s, offset);
  }

  /** If the dead-letter producer never fails, no record is dropped. */
  lemma NothingDropped<P>(maxRetries: int, steps: seq<Step<P>>, offset: nat)
    requires maxRetries >= 1 && offset < Run(maxRetries, Empty(), steps).committed
    requires forall i :: 0 <= i < |steps| && steps[i].Process? ==> steps[i].outcome.dlqUp
    ensures
      var s := Run(maxRetries, Empty(), steps);
      offset in s.fates && s.fates[offset] != DropLogged && (s.fates[offset] == DeadLettered ==> offset in s.dlq)
  {
    hide Run, Fails, SucceedsAt;
    CommittedExactly(maxRetries, steps, offset);
    OutcomeIsAStep(maxRetries, Empty(), steps, offset);
    FatesAreOutcomes(maxRetries, steps, offset);
  }

  lemma {:induction false} OutcomeIsAStep<P>(maxRetries: int, s: State<P>, steps: seq<Step<P>>, offset: nat)
    requires LastOutcome(maxRetries, s, steps, offset).Some?
    ensures exists i :: 0 <= i < |steps| && steps[i].Process?
                        && steps[i].outcome == LastOutcome(maxRetries, s, steps, offset).value
  {
    hide Run;
    var front, step := steps[..|steps| - 1], steps[|steps| - 1];
    var mid := Run(maxRetries, s, front);
    if Processes(mid, step) && mid.phase.next == offset {
      assert step.Process? by { ProcessesIsProcess(mid, step); }
    } else {
      OutcomeIsAStep(maxRetries, s, front, offset);
      var i :| 0 <= i < |front| && front[i].Process?
               && front[i].outcome == LastOutcome(maxRetries, s, front, offset).value;
      assert steps[i] == front[i];
    }
  }

  lemma ProcessesIsProcess<P>(s: State<P>, step: Step<P>)
    requires Processes(s, step)
    ensures step.Process?
  {
  }
}
