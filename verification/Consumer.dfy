/**
 * The at-least-once consumer loop, on one partition: bounded retries, a dead-letter topic, and one
 * commit per fetched batch. The process may die between any two steps.
 */
module Consumer {
  import opened Prelude

  datatype Value<P> = Null | Garbled | Json(payload: P)

  /** Fetches at most this many records at once. */
  const MAX_POLL_RECORDS := 100

  /** What became of a record when it was last processed. */
  datatype Fate = Handled(attempts: nat) | DeadLettered | DropLogged

  /** Stopped, waiting to fetch, or inside the batch start..end with `next` to process. */
  datatype Phase = Down | Idle(position: nat) | InBatch(start: nat, next: nat, end: nat)

  /** `fates` is history; `dlq` holds the offsets published to the dead-letter topic. */
  datatype State<P> = State(log: seq<Value<P>>, committed: nat, phase: Phase, fates: map<nat, Fate>, dlq: seq<nat>)

  function Empty<P>(): State<P> {
    State([], 0, Down, map[], [])
  }

  /** Outcome of each handler call that the retry loop may make, and of a dead-letter publish. */
  datatype Outcome = Outcome(calls: seq<bool>, dlqUp: bool)

  datatype Step<P> =
    | Produce(value: Value<P>)
    | Start
    | Poll(n: nat)
    | Process(outcome: Outcome)
    | Commit
    | Crash

  /** Number of the first successful call among the first `max`, counted from 1. */
  function FirstSuccess(calls: seq<bool>, max: int): (r: Option<nat>)
    ensures r.Some? ==> 1 <= r.value <= max && r.value <= |calls| && calls[r.value - 1]
    ensures r.Some? ==> forall k :: 0 <= k < r.value - 1 ==> !calls[k]
    ensures r.None? ==> forall k :: 0 <= k < |calls| && k < max ==> !calls[k]
  {
    if max <= 0 || calls == [] then None
    else if calls[0] then Some(1)
    else
      match FirstSuccess(calls[1..], max - 1)
      case Some(k) => Some(k + 1)
      case None => None
  }

  /** None when the message counts as handled; without a single try it does too. */
  function Retried(maxRetries: int, calls: seq<bool>): Option<nat> {
    if maxRetries <= 0 then Some(0) else FirstSuccess(calls, maxRetries)
  }

  function FateOf<P>(maxRetries: int, v: Value<P>, o: Outcome): Fate {
    match if v.Json? then Retried(maxRetries, o.calls) else None
    case Some(n) => Handled(n)
    case None => if o.dlqUp then DeadLettered else DropLogged
  }

  /** A step that does not fit the phase does nothing. */
  function Apply<P>(maxRetries: int, s: State<P>, step: Step<P>): State<P> {
    match step
    case Produce(value) => s.(log := s.log + [value])
    case Start => if s.phase.Down? then s.(phase := Idle(s.committed)) else s
    case Poll(n) =>
      if s.phase.Idle? && 1 <= n <= MAX_POLL_RECORDS && s.phase.position + n <= |s.log| then
        s.(phase := InBatch(s.phase.position, s.phase.position, s.phase.position + n))
      else s
    case Process(o) =>
      if s.phase.InBatch? && s.phase.next < s.phase.end && s.phase.next < |s.log| then
        var next := s.phase.next;
        // decoding a null value fails, and so does wrapping it for the dead-letter topic
        if s.log[next].Null? then s.(phase := Down)
        else
          var fate := FateOf(maxRetries, s.log[next], o);
          s.(fates := s.fates[next := fate],
             dlq := if fate == DeadLettered then s.dlq + [next] else s.dlq,
             phase := s.phase.(next := next + 1))
      else s
    case Commit =>
      if s.phase.InBatch? && s.phase.next == s.phase.end then
        s.(committed := s.phase.end, phase := Idle(s.phase.end))
      else s
    case Crash => s.(phase := Down)
  }

  function Run<P>(maxRetries: int, s: State<P>, steps: seq<Step<P>>): State<P> {
    if steps == [] then s
    else Apply(maxRetries, Run(maxRetries, s, steps[..|steps| - 1]), steps[|steps| - 1])
  }

  /** Everything before this offset has been dealt with in the current life of the consumer. */
  function Frontier<P>(s: State<P>): nat {
    if s.phase.InBatch? then s.phase.next else s.committed
  }

  /** The record was handled within the retry limit, dead-lettered, or dropped with a log entry. */
  ghost predicate Settled<P>(maxRetries: int, s: State<P>, offset: nat) {
    && offset < |s.log| && !s.log[offset].Null? && offset in s.fates
    && match s.fates[offset]
       case Handled(n) => s.log[offset].Json? && 1 <= n <= maxRetries
       case DeadLettered => offset in s.dlq
       case DropLogged => true
  }

  ghost predicate Safe<P>(maxRetries: int, s: State<P>) {
    && s.committed <= |s.log|
    && (s.phase.Idle? ==> s.phase.position == s.committed)
    && (s.phase.InBatch? ==> s.phase.start == s.committed <= s.phase.next <= s.phase.end <= |s.log|)
    && (s.phase.InBatch? ==> s.phase.end <= s.phase.start + MAX_POLL_RECORDS)
    && forall o :: 0 <= o < Frontier(s) ==> Settled(maxRetries, s, o)
  }

  lemma StepSafe<P>(maxRetries: int, s: State<P>, step: Step<P>)
    requires maxRetries >= 1 && Safe(maxRetries, s)
    ensures Safe(maxRetries, Apply(maxRetries, s, step))
    ensures s.committed <= Apply(maxRetries, s, step).committed <= s.committed + 100
  {
    var s' := Apply(maxRetries, s, step);
    forall o | 0 <= o < Frontier(s')
      ensures Settled(maxRetries, s', o)
    {
      if o < Frontier(s) {
        assert Settled(maxRetries, s, o);
      }
    }
  }

  /**
   * In every reachable state, with crashes between any two steps: every offset below the committed
   * one is settled, the committed offset never goes back, and a restart resumes exactly there.
   */
  lemma {:induction false} CommitIsSafe<P>(maxRetries: int, s: State<P>, steps: seq<Step<P>>)
    requires maxRetries >= 1 && Safe(maxRetries, s)
    ensures
      var s' := Run(maxRetries, s, steps);
      && Safe(maxRetries, s')
      && s.committed <= s'.committed
      && (s'.phase.Down? ==> Apply(maxRetries, s', Start).phase == Idle(s'.committed))
      && forall o :: 0 <= o < s'.committed ==> Settled(maxRetries, s', o)
  {
    if steps == [] {
    } else {
      var front := steps[..|steps| - 1];
      CommitIsSafe(maxRetries, s, front);
      StepSafe(maxRetries, Run(maxRetries, s, front), steps[|steps| - 1]);
    }
  }

  // ---- no tries configured ----

  /** Every readable record dealt with counts as handled, after no call at all. */
  ghost predicate Untried<P>(s: State<P>) {
    && s.committed <= |s.log|
    && (s.phase.Idle? ==> s.phase.position == s.committed)
    && (s.phase.InBatch? ==> s.phase.start == s.committed <= s.phase.next <= s.phase.end <= |s.log|)
    && forall o :: 0 <= o < Frontier(s) && s.log[o].Json? ==> o in s.fates && s.fates[o] == Handled(0)
  }

  lemma UntriedStep<P>(maxRetries: int, s: State<P>, step: Step<P>)
    requires maxRetries <= 0 && Untried(s)
    ensures Untried(Apply(maxRetries, s, step))
  {
    var s' := Apply(maxRetries, s, step);
    forall o | 0 <= o < Frontier(s') && s'.log[o].Json?
      ensures o in s'.fates && s'.fates[o] == Handled(0)
    {
      if o < Frontier(s) {
        assert s.log[o] == s'.log[o];
      }
    }
  }

  /** With no tries configured, in every run each readable record below the commit was never handled. */
  lemma {:induction false} NoRetriesCommitsUnhandled<P>(maxRetries: int, s: State<P>, steps: seq<Step<P>>)
    requires maxRetries <= 0 && Untried(s)
    ensures Untried(Run(maxRetries, s, steps))
    ensures
      var s' := Run(maxRetries, s, steps);
      forall o :: 0 <= o < s'.committed && s'.log[o].Json? ==> o in s'.fates && s'.fates[o] == Handled(0)
  {
    if steps == [] {
    } else {
      NoRetriesCommitsUnhandled(maxRetries, s, steps[..|steps| - 1]);
      UntriedStep(maxRetries, Run(maxRetries, s, steps[..|steps| - 1]), steps[|steps| - 1]);
    }
  }

  /** Some run commits a readable record as handled that no handler was called for. */
  ghost predicate CanCommitUnhandled<P(!new)>(maxRetries: int, s: State<P>) {
    exists steps: seq<Step<P>>, o: nat :: CommitsUnhandled(maxRetries, s, steps, o)
  }

  ghost predicate CommitsUnhandled<P>(maxRetries: int, s: State<P>, steps: seq<Step<P>>, o: nat) {
    var s' := Run(maxRetries, s, steps);
    o < s'.committed && o < |s'.log| && s'.log[o].Json? && o in s'.fates && s'.fates[o] == Handled(0)
  }

  /** That can happen exactly when no tries are configured. */
  lemma UnhandledOnlyWithoutRetries<P(!new)>(maxRetries: int, payload: P)
    ensures CanCommitUnhandled<P>(maxRetries, Empty()) <==> maxRetries <= 0
  {
    if maxRetries <= 0 {
      var steps := [Produce(Json(payload)), Start] + OneRecord(Outcome([], true));
      CommitsOne(maxRetries, payload);
      assert CommitsUnhandled(maxRetries, Empty(), steps, 0);
    } else {
      forall steps: seq<Step<P>>, o: nat
        ensures !CommitsUnhandled(maxRetries, Empty(), steps, o)
      {
        CommitIsSafe(maxRetries, Empty(), steps);
        var s' := Run(maxRetries, Empty(), steps);
        assert o < s'.committed ==> Settled(maxRetries, s', o);
      }
    }
  }

  /** A batch of one record, processed and committed. */
  function OneRecord<P>(o: Outcome): seq<Step<P>> {
    [Poll(1), Process(o), Commit]
  }

  lemma RunNext<P>(maxRetries: int, s: State<P>, steps: seq<Step<P>>, step: Step<P>)
    ensures Run(maxRetries, s, steps + [step]) == Apply(maxRetries, Run(maxRetries, s, steps), step)
  {
    hide Apply;
    assert (steps + [step])[..|steps|] == steps;
  }

  lemma RunThree<P>(maxRetries: int, s: State<P>, steps: seq<Step<P>>, a: Step<P>, b: Step<P>, c: Step<P>)
    ensures Run(maxRetries, s, steps + [a, b, c]) ==
      Apply(maxRetries, Apply(maxRetries, Apply(maxRetries, Run(maxRetries, s, steps), a), b), c)
  {
    hide Apply, Run;
    RunNext(maxRetries, s, steps, a);
    RunNext(maxRetries, s, steps + [a], b);
    RunNext(maxRetries, s, steps + [a] + [b], c);
    assert steps + [a] + [b] + [c] == steps + [a, b, c];
  }

  lemma CommitsOne<P>(maxRetries: int, payload: P)
    requires maxRetries <= 0
    ensures
      var s' := Run(maxRetries, Empty(), [Produce(Json(payload)), Start] + OneRecord(Outcome([], true)));
      s'.committed == 1 && s'.log == [Json(payload)] && 0 in s'.fates && s'.fates[0] == Handled(0)
  {
    var first: seq<Step<P>> := [Produce(Json(payload)), Start];
    assert first[..1] == [Produce(Json(payload))] && first[..1][..0] == [];
    assert Run(maxRetries, Empty(), first[..1]) == Apply(maxRetries, Empty(), first[0]);
    RunThree(maxRetries, Empty(), first, Poll(1), Process(Outcome([], true)), Commit);
  }

  lemma {:induction false} LogOnlyGrows<P>(maxRetries: int, s: State<P>, steps: seq<Step<P>>)
    ensures s.log <= Run(maxRetries, s, steps).log
  {
    if steps == [] {
    } else {
      LogOnlyGrows(maxRetries, s, steps[..|steps| - 1]);
    }
  }

  /** A null value is never passed: whatever happens, the partition stays at or before it. */
  lemma NullValueBlocks<P>(maxRetries: int, s: State<P>, steps: seq<Step<P>>, k: nat)
    requires maxRetries >= 1 && Safe(maxRetries, s) && k < |s.log| && s.log[k].Null?
    ensures Run(maxRetries, s, steps).committed <= k
  {
    CommitIsSafe(maxRetries, s, steps);
    LogOnlyGrows(maxRetries, s, steps);
    var s' := Run(maxRetries, s, steps);
    assert s'.log[k] == s.log[k];
    assert k < s'.committed ==> Settled(maxRetries, s', k);
  }

  /** Without a null in the way the commit can be moved to `n`: one record at a time, dead-lettered or handled. */
  lemma {:induction false} CommitsUpTo<P>(maxRetries: int, s: State<P>, n: nat) returns (steps: seq<Step<P>>)
    requires maxRetries >= 1 && Safe(maxRetries, s) && s.committed <= n <= |s.log|
    requires forall k :: s.committed <= k < n ==> !s.log[k].Null?
    ensures var s' := Run(maxRetries, s, steps);
      s'.committed == n && s'.phase == Idle(n) && s'.log == s.log
    decreases n - s.committed
  {
    if n == s.committed {
      steps := [Crash, Start];
      assert steps[..1] == [Crash] && steps[..1][..0] == [];
      assert Run(maxRetries, s, steps[..1]) == Apply(maxRetries, s, Crash);
    } else {
      var before := CommitsUpTo(maxRetries, s, n - 1);
      var o := Outcome(seq(maxRetries, _ => true), true);
      steps := before + [Poll(1), Process(o), Commit];
      RunThree(maxRetries, s, before, Poll(1), Process(o), Commit);
    }
  }

  /** Some run, production included, commits everything below `n`. */
  ghost predicate CanCommit<P(!new)>(maxRetries: int, s: State<P>, n: nat) {
    exists steps: seq<Step<P>> :: Run(maxRetries, s, steps).committed >= n
  }

  /** Exactly the first null value at or after the committed offset limits what can ever be committed. */
  lemma NullValueIsTheLimit<P(!new)>(maxRetries: int, s: State<P>, n: nat)
    requires maxRetries >= 1 && Safe(maxRetries, s) && n <= |s.log|
    ensures CanCommit(maxRetries, s, n) <==> forall k :: s.committed <= k < n ==> !s.log[k].Null?
  {
    if forall k :: s.committed <= k < n ==> !s.log[k].Null? {
      var steps := CommitsUpTo(maxRetries, s, if n < s.committed then s.committed else n);
      assert Run(maxRetries, s, steps).committed >= n;
    } else {
      var k :| s.committed <= k < n && s.log[k].Null?;
      forall steps: seq<Step<P>>
        ensures Run(maxRetries, s, steps).committed <= k
      {
        NullValueBlocks(maxRetries, s, steps, k);
      }
    }
  }

  /** The steps of one fetched batch: every record in turn, then the commit. */
  function BatchSteps<P>(outcomes: seq<Outcome>): seq<Step<P>> {
    seq(|outcomes|, i requires 0 <= i < |outcomes| => Process(outcomes[i]))
  }

  class ConsumerLoop<P> {
    const maxRetries: int
    var log: seq<Value<P>>
    var committed: nat
    var phase: Phase
    var dlq: seq<nat>
    ghost var fates: map<nat, Fate>

    ghost function View(): State<P>
      reads this
    {
      State(log, committed, phase, fates, dlq)
    }

    constructor (maxRetries: int)
      ensures View() == Empty<P>() && this.maxRetries == maxRetries
    {
      this.maxRetries := maxRetries;
      log, committed, phase, dlq, fates := [], 0, Down, [], map[];
    }

    /** Calls the handler until it succeeds or the tries are used up; reports whether an error is left. */
    method HandleWithRetry(calls: seq<bool>) returns (failed: bool, made: nat)
      requires |calls| >= maxRetries
      ensures failed <==> Retried(maxRetries, calls).None?
      ensures !failed ==> Retried(maxRetries, calls) == Some(made)
      ensures failed ==> made == maxRetries
    {
      failed, made := false, 0;
      while made < maxRetries
        invariant made == 0 || made <= maxRetries
        invariant failed <==> made > 0
        invariant forall k :: 0 <= k < made ==> !calls[k]
      {
        made := made + 1;
        if calls[made - 1] {
          return false, made;
        }
        failed := true;
      }
    }

    /** An error of the dead-letter producer is logged and swallowed. */
    method PublishDlq(offset: nat, dlqUp: bool)
      modifies this`dlq
      ensures dlq == if dlqUp then old(dlq) + [offset] else old(dlq)
    {
      if dlqUp {
        dlq := dlq + [offset];
      }
    }

    /** One record of the batch. */
    method ProcessNext(o: Outcome)
      requires |o.calls| >= maxRetries
      requires phase.InBatch? && phase.next < phase.end <= |log|
      modifies this`phase, this`dlq, this`fates
      ensures View() == Apply(maxRetries, old(View()), Process(o))
    {
      var offset := phase.next;
      match log[offset] {
        case Null =>
          phase := Down;
          return;
        case Garbled => PublishDlq(offset, o.dlqUp);
        case Json(payload) =>
          var failed, _ := HandleWithRetry(o.calls);
          if failed {
            PublishDlq(offset, o.dlqUp);
          }
      }
      fates := fates[offset := FateOf(maxRetries, log[offset], o)];
      phase := phase.(next := offset + 1);
    }

    /** Every record of the fetched batch, then one commit behind the last of them. */
    method RunBatch(outcomes: seq<Outcome>)
      requires phase.InBatch? && phase.next == phase.start < phase.end == phase.start + |outcomes| <= |log|
      requires forall i :: 0 <= i < |outcomes| ==> |outcomes[i].calls| >= maxRetries
      modifies this`phase, this`dlq, this`fates, this`committed
      ensures View() == Run(maxRetries, old(View()), BatchSteps(outcomes) + [Commit])
    {
      ghost var s0, steps := View(), BatchSteps<P>(outcomes);
      var i := 0;
      while i < |outcomes|
        invariant i <= |outcomes| && log == s0.log && committed == s0.committed
        invariant phase.InBatch? && phase.end == s0.phase.end && phase.next == s0.phase.start + i
        invariant View() == Run(maxRetries, s0, steps[..i])
      {
        ghost var before := View();
        ProcessNext(outcomes[i]);
        assert steps[..i + 1][..i] == steps[..i];
        i := i + 1;
        if phase.Down? {
          DownStays(maxRetries, s0, outcomes, i);
          return;
        }
      }
      assert steps[..i] == steps;
      assert (steps + [Commit])[..|steps|] == steps;
      committed := phase.end;
      phase := Idle(phase.end);
    }
  }

  /** After a crash the rest of the batch is not processed. */
  lemma {:induction false} DownStays<P>(maxRetries: int, s: State<P>, outcomes: seq<Outcome>, i: nat)
    requires i <= |outcomes| && Run(maxRetries, s, BatchSteps<P>(outcomes)[..i]).phase.Down?
    ensures Run(maxRetries, s, BatchSteps<P>(outcomes) + [Commit]) == Run(maxRetries, s, BatchSteps<P>(outcomes)[..i])
    decreases |outcomes| - i
  {
    var steps := BatchSteps<P>(outcomes);
    if i == |outcomes| {
      assert steps[..i] == steps;
      assert (steps + [Commit])[..|steps|] == steps;
    } else {
      assert steps[..i + 1][..i] == steps[..i];
      DownStays(maxRetries, s, outcomes, i + 1);
    }
  }
}
