/**
 * When the decrement of one order is sent again, and when not, told from the steps of a run alone.
 */
module StockRetries {
  import opened StockSaga

  /** Attempts made so far. */
  function Tries(steps: seq<Step>): nat {
    if steps == [] then 0 else Tries(steps[..|steps| - 1]) + if steps[|steps| - 1].Attempt? then 1 else 0
  }

  /** Attempts whose request reaches the service, now or later. */
  function Reaching(steps: seq<Step>): nat {
    if steps == [] then 0
    else
      var step := steps[|steps| - 1];
      Reaching(steps[..|steps| - 1]) + if step.Attempt? && !step.outcome.reach.Never? then 1 else 0
  }

  /** Every attempt so far ended in an error that the retry policy covers, and the process is alive. */
  predicate KeepsTrying(steps: seq<Step>) {
    forall i :: 0 <= i < |steps| ==> !steps[i].Crash? && (steps[i].Attempt? ==> steps[i].outcome.retryable)
  }

  /** What the steps have made of the order's line. */
  ghost predicate LineTold(s: State, s': State, o: nat, tries: nat, reaching: nat, trying: bool) {
    && o < |s.lines| && o < |s'.lines|
    && (s'.lines[o].effect.Waiting? <==> trying && tries < 3)
    && (s'.lines[o].effect.Waiting? ==> s'.lines[o].effect.attempts == tries)
    && s'.lines[o].applied + s'.lines[o].inflight <= reaching <= tries <= 3
  }

  lemma StepTold(s: State, mid: State, o: nat, step: Step, tries: nat, reaching: nat, trying: bool)
    requires LineTold(s, mid, o, tries, reaching, trying) && Enabled(mid, step) && Only(o, step)
    ensures LineTold(s, Apply(mid, step), o,
                     tries + if step.Attempt? then 1 else 0,
                     reaching + if step.Attempt? && !step.outcome.reach.Never? then 1 else 0,
                     trying && !step.Crash? && (step.Attempt? ==> step.outcome.retryable))
  {
  }

  /**
   * The listener goes on exactly as long as every attempt ended in a retryable error, there were
   * fewer than three, and the process lives.
   */
  lemma {:induction false} TriesAgainExactly(s: State, o: nat, steps: seq<Step>)
    requires o < |s.lines| && s.lines[o].effect == Waiting(0) && LineOk(s.lines[o])
    requires Legal(s, steps) && AllOnly(o, steps)
    ensures LineTold(s, Run(s, steps), o, Tries(steps), Reaching(steps), KeepsTrying(steps))
  {
    hide Apply, Enabled, LineTold, KeepsTrying;
    if steps == [] {
      assert LineTold(s, s, o, 0, 0, KeepsTrying([])) by { NotTried(s, o); }
    } else {
      var front, step := steps[..|steps| - 1], steps[|steps| - 1];
      TriesAgainExactly(s, o, front);
      StepTold(s, Run(s, front), o, step, Tries(front), Reaching(front), KeepsTrying(front));
      TryingNext(front, step);
      assert front + [step] == steps;
    }
  }

  lemma NotTried(s: State, o: nat)
    requires o < |s.lines| && s.lines[o].effect == Waiting(0) && LineOk(s.lines[o])
    ensures LineTold(s, s, o, 0, 0, KeepsTrying([]))
  {
  }

  lemma TryingNext(steps: seq<Step>, step: Step)
    ensures KeepsTrying(steps + [step]) <==>
      KeepsTrying(steps) && !step.Crash? && (step.Attempt? ==> step.outcome.retryable)
  {
    var all := steps + [step];
    assert all[|steps|] == step;
    assert forall i :: 0 <= i < |steps| ==> all[i] == steps[i];
  }

  lemma {:induction false} LegalPrefix(s: State, steps: seq<Step>, n: nat)
    requires Legal(s, steps) && n <= |steps|
    ensures Legal(s, steps[..n])
    decreases |steps|
  {
    if n == |steps| {
      assert steps[..n] == steps;
    } else {
      LegalPrefix(s, steps[..|steps| - 1], n);
      assert steps[..|steps| - 1][..n] == steps[..n];
    }
  }

  lemma AttemptWaits(s: State, steps: seq<Step>, j: nat)
    requires Legal(s, steps) && j < |steps| && steps[j].Attempt?
    ensures Legal(s, steps[..j])
    ensures var mid, o := Run(s, steps[..j]), steps[j].o; o < |mid.lines| && mid.lines[o].effect.Waiting?
  {
    LegalPrefix(s, steps, j + 1);
    assert steps[..j + 1][..j] == steps[..j];
    assert Enabled(Run(s, steps[..j]), steps[j]);
  }

  /** Whatever is attempted again had failed with a retryable error each time before, fewer than three times. */
  lemma OnlyRetryableIsRetried(s: State, o: nat, steps: seq<Step>, i: nat, j: nat)
    requires o < |s.lines| && s.lines[o].effect == Waiting(0) && LineOk(s.lines[o])
    requires Legal(s, steps) && AllOnly(o, steps) && i < j < |steps| && steps[j].Attempt?
    ensures steps[i].Attempt? ==> steps[i].outcome.retryable
    ensures !steps[i].Crash? && Tries(steps[..j]) < 3
  {
    hide Run, Legal;
    AttemptWaits(s, steps, j);
    assert Only(o, steps[j]);
    TriesAgainExactly(s, o, steps[..j]);
    assert steps[..j][i] == steps[i];
  }

  /**
   * An order whose first attempt ended without a retryable error makes no other: its decrement takes
   * effect at most once, and the stock falls by no more than its quantity.
   */
  lemma AnsweredOnceTakesOnce(s: State, o: nat, steps: seq<Step>, i: nat)
    requires o < |s.lines| && s.lines[o].effect == Waiting(0) && LineOk(s.lines[o]) && Stocked(s, o)
    requires Legal(s, steps) && AllOnly(o, steps)
    requires i < |steps| && steps[i].Attempt? && !steps[i].outcome.retryable && Tries(steps[..i]) == 0
    ensures Tries(steps) == 1
    ensures var s', p := Run(s, steps), s.lines[o].product;
      && o < |s'.lines| && s'.lines[o].applied + s'.lines[o].inflight <= 1
      && (p in s.stock ==> p in s'.stock && s'.stock[p] >= s.stock[p] - s.lines[o].quantity)
  {
    hide Run, Legal;
    TriesAgainExactly(s, o, steps);
    TookRun(s, o, steps);
    NoOtherTry(s, o, steps, i, |steps|);
    assert steps[..|steps|] == steps;
  }

  lemma {:induction false} NoOtherTry(s: State, o: nat, steps: seq<Step>, i: nat, n: nat)
    requires o < |s.lines| && s.lines[o].effect == Waiting(0) && LineOk(s.lines[o])
    requires Legal(s, steps) && AllOnly(o, steps) && i < n <= |steps|
    requires steps[i].Attempt? && !steps[i].outcome.retryable && Tries(steps[..i]) == 0
    ensures Tries(steps[..n]) == 1
    decreases n
  {
    assert steps[..n][..n - 1] == steps[..n - 1];
    if n == i + 1 {
    } else {
      NoOtherTry(s, o, steps, i, n - 1);
      if steps[n - 1].Attempt? {
        OnlyRetryableIsRetried(s, o, steps, i, n - 1);
      }
    }
  }

  /** With stock for all of them, every request that reached the service is applied or still to arrive. */
  lemma {:induction false} ReachedIsApplied(s: State, o: nat, steps: seq<Step>)
    requires o < |s.lines| && s.lines[o].effect == Waiting(0) && LineOk(s.lines[o])
    requires s.lines[o].product in s.stock && s.stock[s.lines[o].product] >= 3 * s.lines[o].quantity
    requires Legal(s, steps) && AllOnly(o, steps)
    ensures var s' := Run(s, steps);
      o < |s'.lines| && s'.lines[o].applied + s'.lines[o].inflight == Reaching(steps)
  {
    hide Apply, Enabled, LineTold;
    if steps == [] {
    } else {
      var front, step := steps[..|steps| - 1], steps[|steps| - 1];
      ReachedIsApplied(s, o, front);
      TookRun(s, o, front);
      TriesAgainExactly(s, o, front);
      TookRun(s, o, steps);
      assert Only(o, step);
      EnoughLeft(s, Run(s, front), o, step, Tries(front), Reaching(front), KeepsTrying(front));
    }
  }

  lemma EnoughLeft(s: State, mid: State, o: nat, step: Step, tries: nat, reaching: nat, trying: bool)
    requires Took(s, mid, o) && LineTold(s, mid, o, tries, reaching, trying) && Enabled(mid, step) && Only(o, step)
    requires s.lines[o].product in s.stock && s.stock[s.lines[o].product] >= 3 * s.lines[o].quantity
    requires s.lines[o].applied == 0 && mid.lines[o].applied + mid.lines[o].inflight == reaching
    ensures
      var s' := Apply(mid, step);
      s'.lines[o].applied + s'.lines[o].inflight ==
        reaching + if step.Attempt? && !step.outcome.reach.Never? then 1 else 0
  {
    var quantity, taken := s.lines[o].quantity, mid.lines[o].applied;
    if taken < 3 {
      assert quantity * (taken + 1) <= quantity * 3 by { Larger(quantity, taken + 1, 3); }
      OneMore(quantity, taken);
    }
  }

  lemma Larger(quantity: nat, x: nat, y: nat)
    requires x <= y
    ensures quantity * x <= quantity * y
  {
  }
}
