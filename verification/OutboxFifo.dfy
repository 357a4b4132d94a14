/**
 * The sharper progress bound that holds when creation times differ, so that the query has only one
 * answer.
 */
module OutboxFifo {
  import opened Prelude
  import opened Outbox
  import opened OutboxProgress

  /** A row with less than a batch ahead of it is in every batch. */
  lemma HeadIsServed(cfg: Config, rows: map<nat, Row>, batch: seq<nat>, x: nat)
    requires OldestPending(rows, batch, cfg.batchSize) && IsPending(rows, x) && |Ahead(rows, x)| < cfg.batchSize
    ensures x in batch
  {
    if x !in batch {
      DistinctSize(batch, |batch|);
      var served := set i | 0 <= i < |batch| :: batch[i];
      assert forall i :: 0 <= i < |batch| ==> batch[i] in batch;
      SubsetSize(served, Ahead(rows, x));
    }
  }

  /** Rows never join those ahead of a pending one. */
  lemma AheadShrinks(cfg: Config, s: State, step: Step, x: nat)
    requires Safe(cfg, s) && Enabled(cfg, s, step) && IsPending(s.rows, x)
    requires step.Create? ==> step.now > s.rows[x].createdAt
    requires IsPending(Apply(cfg, s, step).rows, x)
    ensures
      var rows' := Apply(cfg, s, step).rows;
      rows'[x].createdAt == s.rows[x].createdAt && Ahead(rows', x) <= Ahead(s.rows, x)
  {
    hide Bijection, Genuine, CleanedOk, RowOk;
    StagedBelow(cfg, s, x);
  }

  /** While a row close to the head stays pending, each drain takes one of its attempts. */
  lemma HeadStep(cfg: Config, s: State, step: Step, x: nat)
    requires Safe(cfg, s) && Enabled(cfg, s, step) && IsPending(s.rows, x) && |Ahead(s.rows, x)| < cfg.batchSize
    requires step.Create? ==> step.now > s.rows[x].createdAt
    requires IsPending(Apply(cfg, s, step).rows, x)
    ensures
      Remaining(cfg, Apply(cfg, s, step).rows[x]) + (if step.Drain? then 1 else 0) <= Remaining(cfg, s.rows[x])
  {
    hide Bijection, Genuine, CleanedOk, Ahead;
    assert RowOk(cfg, s, x);
    StagedBelow(cfg, s, x);
    if step.Drain? {
      HeadIsServed(cfg, s.rows, step.batch, x);
    }
  }

  /** What a run does to a row that is pending to its end. */
  lemma {:induction false} PendingRun(cfg: Config, s: State, steps: seq<Step>, x: nat)
    requires Safe(cfg, s) && Legal(cfg, s, steps) && IsPending(s.rows, x)
    requires CreatesAfter(steps, s.rows[x].createdAt)
    ensures
      var s' := Run(cfg, s, steps);
      && x < s'.nextRow
      && (IsPending(s'.rows, x) ==>
            && s'.rows[x].createdAt == s.rows[x].createdAt
            && Ahead(s'.rows, x) <= Ahead(s.rows, x)
            && (|Ahead(s.rows, x)| < cfg.batchSize ==>
                  Remaining(cfg, s'.rows[x]) + Drains(steps) <= Remaining(cfg, s.rows[x])))
  {
    hide Safe, Ahead, Remaining;
    if steps == [] {
      StagedBelow(cfg, s, x);
    } else {
      var front, step := steps[..|steps| - 1], steps[|steps| - 1];
      var mid := Run(cfg, s, front);
      PendingRun(cfg, s, front, x);
      NoLostNoGhostEvents(cfg, s, front);
      if !IsPending(mid.rows, x) {
        DoneStaysDone(cfg, mid, step, x);
      } else {
        NextRowGrows(cfg, mid, step);
        if IsPending(Apply(cfg, mid, step).rows, x) {
          AheadShrinks(cfg, mid, step, x);
          SubsetSize(Ahead(mid.rows, x), Ahead(s.rows, x));
          if |Ahead(s.rows, x)| < cfg.batchSize {
            HeadStep(cfg, mid, step, x);
          }
        }
      }
    }
  }

  lemma HeadDone(cfg: Config, s: State, steps: seq<Step>, x: nat)
    requires Safe(cfg, s) && Legal(cfg, s, steps) && IsPending(s.rows, x)
    requires CreatesAfter(steps, s.rows[x].createdAt) && |Ahead(s.rows, x)| < cfg.batchSize
    requires Drains(steps) >= cfg.Budget()
    ensures !IsPending(Run(cfg, s, steps).rows, x)
  {
    PendingRun(cfg, s, steps, x);
    NoLostNoGhostEvents(cfg, s, steps);
  }

  /** Pending rows created up to `c` were created at different moments. */
  ghost predicate DistinctTimes(rows: map<nat, Row>, c: int) {
    forall a, b :: IsPending(rows, a) && IsPending(rows, b) && a != b && rows[a].createdAt <= c ==>
      rows[a].createdAt != rows[b].createdAt
  }

  lemma SameHead(rows: map<nat, Row>, limit: nat, a: seq<nat>, b: seq<nat>, c: int, n: nat)
    requires OldestPending(rows, a, limit) && OldestPending(rows, b, limit) && DistinctTimes(rows, c)
    requires forall id :: IsPending(rows, id) ==> rows[id].createdAt <= c
    requires n < |a| && n < |b| && a[..n] == b[..n]
    ensures a[n] == b[n]
  {
    NotBefore(rows, limit, a, b, n);
    NotBefore(rows, limit, b, a, n);
    assert IsPending(rows, a[n]) && IsPending(rows, b[n]);
  }

  lemma NotBefore(rows: map<nat, Row>, limit: nat, a: seq<nat>, b: seq<nat>, n: nat)
    requires OldestPending(rows, a, limit) && OldestPending(rows, b, limit)
    requires n < |a| && n < |b| && a[..n] == b[..n]
    ensures a[n] in rows && b[n] in rows && rows[b[n]].createdAt <= rows[a[n]].createdAt
  {
    assert IsPending(rows, a[n]) && IsPending(rows, b[n]);
    forall i | 0 <= i < n
      ensures b[i] != a[n]
    {
      assert a[..n][i] == b[..n][i];
    }
  }

  lemma {:induction false} SamePrefix(rows: map<nat, Row>, limit: nat, a: seq<nat>, b: seq<nat>, c: int, n: nat)
    requires OldestPending(rows, a, limit) && OldestPending(rows, b, limit) && DistinctTimes(rows, c)
    requires forall id :: IsPending(rows, id) ==> rows[id].createdAt <= c
    requires n <= |a| && n <= |b|
    ensures a[..n] == b[..n]
  {
    if n == 0 {
    } else {
      SamePrefix(rows, limit, a, b, c, n - 1);
      SameHead(rows, limit, a, b, c, n - 1);
      assert a[..n] == a[..n - 1] + [a[n - 1]] && b[..n] == b[..n - 1] + [b[n - 1]];
    }
  }

  lemma NotShorter(rows: map<nat, Row>, limit: nat, a: seq<nat>, b: seq<nat>)
    requires OldestPending(rows, a, limit) && OldestPending(rows, b, limit)
    ensures |b| <= |a|
  {
    if |a| < limit {
      var served, served' := set i | 0 <= i < |a| :: a[i], set i | 0 <= i < |b| :: b[i];
      DistinctSize(a, |a|);
      DistinctSize(b, |b|);
      forall i | 0 <= i < |b|
        ensures b[i] in a
      {
        assert b[i] in b && IsPending(rows, b[i]);
      }
      SubsetSize(served', served);
    }
  }

  /** With different creation times the query has exactly one answer. */
  lemma OneBatch(rows: map<nat, Row>, limit: nat, a: seq<nat>, b: seq<nat>, c: int)
    requires OldestPending(rows, a, limit) && OldestPending(rows, b, limit) && DistinctTimes(rows, c)
    requires forall id :: IsPending(rows, id) ==> rows[id].createdAt <= c
    ensures a == b
  {
    NotShorter(rows, limit, a, b);
    NotShorter(rows, limit, b, a);
    SamePrefix(rows, limit, a, b, c, |a|);
    assert a[..|a|] == a && b[..|b|] == b;
  }

  lemma AheadIsOrdered(rows: map<nat, Row>, r: nat, y: nat)
    requires IsPending(rows, r) && DistinctTimes(rows, rows[r].createdAt) && y in Ahead(rows, r)
    ensures Ahead(rows, y) < Ahead(rows, r) && rows[y].createdAt <= rows[r].createdAt
  {
    assert y !in Ahead(rows, y);
  }

  /** At least a batch of the rows ahead have less than a batch ahead of themselves. */
  lemma Heads(rows: map<nat, Row>, r: nat, b: nat) returns (heads: set<nat>)
    requires IsPending(rows, r) && DistinctTimes(rows, rows[r].createdAt) && |Ahead(rows, r)| >= b
    ensures heads <= Ahead(rows, r) && |heads| >= b
    ensures forall x :: x in heads ==> |Ahead(rows, x)| < b
    decreases |Ahead(rows, r)|
  {
    if y :| y in Ahead(rows, r) && |Ahead(rows, y)| >= b {
      AheadIsOrdered(rows, r, y);
      SubsetSize(Ahead(rows, y), Ahead(rows, r) - {y});
      assert |Ahead(rows, r) - {y}| == |Ahead(rows, r)| - 1;
      heads := Heads(rows, y, b);
    } else {
      heads := Ahead(rows, r);
    }
  }

  /** A budget's worth of drains moves a row that stays pending up by a whole batch. */
  lemma Phase(cfg: Config, s: State, steps: seq<Step>, r: nat)
    requires Safe(cfg, s) && Legal(cfg, s, steps) && IsPending(s.rows, r)
    requires CreatesAfter(steps, s.rows[r].createdAt) && DistinctTimes(s.rows, s.rows[r].createdAt)
    requires Drains(steps) >= cfg.Budget() && IsPending(Run(cfg, s, steps).rows, r)
    ensures |Ahead(Run(cfg, s, steps).rows, r)| + cfg.batchSize <= |Ahead(s.rows, r)|
  {
    hide Safe, Remaining, DistinctTimes, Legal, Run, Drains;
    var rows' := Run(cfg, s, steps).rows;
    PendingRun(cfg, s, steps, r);
    if |Ahead(s.rows, r)| < cfg.batchSize {
      HeadDone(cfg, s, steps, r);
    } else {
      var heads := Heads(s.rows, r, cfg.batchSize);
      forall x | x in heads
        ensures x !in Ahead(rows', r)
      {
        HeadDone(cfg, s, steps, x);
      }
      SubsetSize(Ahead(rows', r), Ahead(s.rows, r) - heads);
      assert |Ahead(s.rows, r) - heads| == |Ahead(s.rows, r)| - |heads|;
    }
  }

  // ---- runs in two parts ----

  lemma {:induction false} RunInParts(cfg: Config, s: State, steps: seq<Step>, k: nat)
    requires Legal(cfg, s, steps) && k <= |steps|
    ensures Legal(cfg, s, steps[..k]) && Legal(cfg, Run(cfg, s, steps[..k]), steps[k..])
    ensures Run(cfg, Run(cfg, s, steps[..k]), steps[k..]) == Run(cfg, s, steps)
    ensures Drains(steps[..k]) + Drains(steps[k..]) == Drains(steps)
    decreases |steps|
  {
    if k == |steps| {
      assert steps[..k] == steps && steps[k..] == [];
    } else {
      var n := |steps| - 1;
      RunInParts(cfg, s, steps[..n], k);
      assert steps[..n][..k] == steps[..k] && steps[..n][k..] == steps[k..][..n - k];
      assert steps[k..][n - k] == steps[n];
    }
  }

  lemma {:induction false} PrefixWith(steps: seq<Step>, m: nat) returns (k: nat)
    requires m <= Drains(steps)
    ensures k <= |steps| && Drains(steps[..k]) == m
  {
    if Drains(steps) == m {
      k := |steps|;
      assert steps[..k] == steps;
    } else {
      k := PrefixWith(steps[..|steps| - 1], m);
      assert steps[..|steps| - 1][..k] == steps[..k];
    }
  }

  lemma {:induction false} RunStaysDone(cfg: Config, s: State, steps: seq<Step>, r: nat)
    requires Legal(cfg, s, steps) && !IsPending(s.rows, r) && r < s.nextRow
    ensures !IsPending(Run(cfg, s, steps).rows, r) && r < Run(cfg, s, steps).nextRow
  {
    if steps == [] {
    } else {
      var front := steps[..|steps| - 1];
      RunStaysDone(cfg, s, front, r);
      DoneStaysDone(cfg, Run(cfg, s, front), steps[|steps| - 1], r);
    }
  }

  /** Different creation times stay different: no old row becomes pending, new ones come later. */
  lemma {:induction false} TimesStayDistinct(cfg: Config, s: State, steps: seq<Step>, c: int)
    requires Safe(cfg, s) && Legal(cfg, s, steps) && CreatesAfter(steps, c) && DistinctTimes(s.rows, c)
    ensures DistinctTimes(Run(cfg, s, steps).rows, c)
  {
    if steps == [] {
    } else {
      var front, step := steps[..|steps| - 1], steps[|steps| - 1];
      var mid := Run(cfg, s, front);
      TimesStayDistinct(cfg, s, front, c);
      NoLostNoGhostEvents(cfg, s, front);
      OldRowsStay(cfg, mid, step);
    }
  }

  lemma OldRowsStay(cfg: Config, s: State, step: Step)
    requires Safe(cfg, s) && Enabled(cfg, s, step)
    ensures
      var rows' := Apply(cfg, s, step).rows;
      forall id :: IsPending(rows', id) ==>
        || (IsPending(s.rows, id) && rows'[id].createdAt == s.rows[id].createdAt)
        || (step.Create? && rows'[id].createdAt == step.now)
  {
    hide Bijection, Genuine, CleanedOk, RowOk;
  }

  /**
   * When the rows created up to `r` differ in their creation times, `r` is SENT or FAILED within
   * Budget * (p / batchSize + 1) committed drains, with the division rounded down.
   */
  lemma {:induction false} FifoProgress(cfg: Config, s: State, steps: seq<Step>, r: nat)
    requires Safe(cfg, s) && Legal(cfg, s, steps) && IsPending(s.rows, r) && cfg.batchSize >= 1
    requires CreatesAfter(steps, s.rows[r].createdAt) && DistinctTimes(s.rows, s.rows[r].createdAt)
    requires Drains(steps) >= cfg.Budget() * (|Ahead(s.rows, r)| / cfg.batchSize + 1)
    ensures !IsPending(Run(cfg, s, steps).rows, r)
    decreases |Ahead(s.rows, r)|
  {
    hide Safe, DistinctTimes, Run, Drains, Legal, Ahead;
    var c, p, b, m := s.rows[r].createdAt, |Ahead(s.rows, r)|, cfg.batchSize, cfg.Budget();
    OneBudgetEnough(m, p, b);
    var k := PrefixWith(steps, m);
    RunInParts(cfg, s, steps, k);
    var mid := Run(cfg, s, steps[..k]);
    NoLostNoGhostEvents(cfg, s, steps[..k]);
    PendingRun(cfg, s, steps[..k], r);
    if !IsPending(mid.rows, r) {
      RunStaysDone(cfg, mid, steps[k..], r);
    } else {
      Phase(cfg, s, steps[..k], r);
      TimesStayDistinct(cfg, s, steps[..k], c);
      BudgetsLeft(m, p, |Ahead(mid.rows, r)|, b);
      FifoProgress(cfg, mid, steps[k..], r);
    }
  }

  lemma OneBudgetEnough(m: nat, p: nat, b: nat)
    requires b >= 1
    ensures m <= m * (p / b + 1)
  {
    assert m * (p / b + 1) == m * (p / b) + m;
  }

  lemma BudgetsLeft(m: nat, p: nat, p': nat, b: nat)
    requires b >= 1 && p' + b <= p
    ensures m * (p' / b + 1) + m <= m * (p / b + 1)
  {
    var q, q' := p / b, p' / b;
    QuotientDrops(p, p', b, q, q');
    Scales(m, q' + 1, q);
    Distributes(m, q, q + 1);
  }

  lemma QuotientDrops(p: nat, p': nat, b: nat, q: nat, q': nat)
    requires b >= 1 && p' + b <= p && q == p / b && q' == p' / b
    ensures q' + 1 <= q
  {
    assert p == b * q + p % b && p' == b * q' + p' % b;
    if q <= q' {
      Scales(b, q, q');
    }
  }
}
