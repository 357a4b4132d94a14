/**
 * How long a row can stay PENDING: bounded progress of the drains, whatever each send does and
 * however the query breaks ties between equal creation times.
 */
module OutboxProgress {
  import opened Outbox

  /** Pending rows other than `r` that the query may serve before it. */
  ghost function Ahead(rows: map<nat, Row>, r: nat): set<nat>
    requires r in rows
  {
    set id | id in rows && id != r && IsPending(rows, id) && rows[id].createdAt <= rows[r].createdAt
  }

  function Remaining(cfg: Config, row: Row): nat {
    if row.status == PENDING && row.attempts < cfg.Budget() then cfg.Budget() - row.attempts else 0
  }

  /** Attempts that a row ahead of `r`, created by `c`, can still take. */
  function Weight(cfg: Config, rows: map<nat, Row>, r: nat, c: int, id: nat): nat {
    if id in rows && id != r && rows[id].createdAt <= c then Remaining(cfg, rows[id]) else 0
  }

  function Work(cfg: Config, rows: map<nat, Row>, r: nat, c: int, n: nat): nat {
    if n == 0 then 0 else Work(cfg, rows, r, c, n - 1) + Weight(cfg, rows, r, c, n - 1)
  }

  /** What every committed drain uses up at least one batch of. */
  function Potential(cfg: Config, s: State, r: nat, c: int): nat
    requires r in s.rows
  {
    Work(cfg, s.rows, r, c, s.nextRow) + cfg.batchSize * Remaining(cfg, s.rows[r])
  }

  function Below(batch: seq<nat>, n: nat): set<nat> {
    set id | id in batch && id < n
  }

  lemma {:induction false} DistinctSize(batch: seq<nat>, k: nat)
    requires Distinct(batch) && k <= |batch|
    ensures |set i | 0 <= i < k :: batch[i]| == k
  {
    if k == 0 {
    } else {
      DistinctSize(batch, k - 1);
      assert (set i | 0 <= i < k :: batch[i]) == (set i | 0 <= i < k - 1 :: batch[i]) + {batch[k - 1]};
    }
  }

  lemma BelowAll(batch: seq<nat>, n: nat)
    requires Distinct(batch) && forall id :: id in batch ==> id < n
    ensures |Below(batch, n)| == |batch|
  {
    DistinctSize(batch, |batch|);
    var all := set i | 0 <= i < |batch| :: batch[i];
    forall id | id in batch
      ensures id in all
    {
      var i :| 0 <= i < |batch| && batch[i] == id;
    }
    assert forall i :: 0 <= i < |batch| ==> batch[i] in batch;
    assert Below(batch, n) == all;
  }

  lemma {:induction false} WorkMonotone(cfg: Config, rows: map<nat, Row>, rows': map<nat, Row>, r: nat, c: int, n: nat)
    requires forall id :: 0 <= id < n ==> Weight(cfg, rows', r, c, id) <= Weight(cfg, rows, r, c, id)
    ensures Work(cfg, rows', r, c, n) <= Work(cfg, rows, r, c, n)
  {
    if n == 0 {
    } else {
      WorkMonotone(cfg, rows, rows', r, c, n - 1);
    }
  }

  /** A batch drawn entirely from the rows ahead takes one attempt from each. */
  lemma {:induction false} BatchWorks(cfg: Config, rows: map<nat, Row>, rows': map<nat, Row>, r: nat, c: int,
                                      batch: seq<nat>, n: nat)
    requires forall id :: 0 <= id < n ==>
      Weight(cfg, rows', r, c, id) + (if id in batch then 1 else 0) <= Weight(cfg, rows, r, c, id)
    ensures Work(cfg, rows', r, c, n) + |Below(batch, n)| <= Work(cfg, rows, r, c, n)
  {
    if n > 0 {
      BatchWorks(cfg, rows, rows', r, c, batch, n - 1);
      assert Below(batch, n) == Below(batch, n - 1) + (if n - 1 in batch then {n - 1} else {});
    } else {
      assert Below(batch, 0) == {};
    }
  }

  lemma {:induction false} WorkBound(cfg: Config, rows: map<nat, Row>, r: nat, n: nat)
    requires r in rows
    ensures Work(cfg, rows, r, rows[r].createdAt, n) <= cfg.Budget() * |set id | id in Ahead(rows, r) && id < n|
  {
    var ahead := set id | id in Ahead(rows, r) && id < n;
    if n == 0 {
    } else {
      WorkBound(cfg, rows, r, n - 1);
      var before := set id | id in Ahead(rows, r) && id < n - 1;
      if n - 1 in Ahead(rows, r) {
        assert ahead == before + {n - 1};
        Distributes(cfg.Budget(), |before|, |ahead|);
      } else {
        assert ahead == before;
      }
    }
  }

  lemma SettleWeight(cfg: Config, s: State, batch: seq<nat>, sends: map<nat, Send>, r: nat, c: int, id: nat)
    requires Safe(cfg, s) && Enabled(cfg, s, Drain(batch, sends))
    ensures
      var rows' := SettleAll(cfg, s.rows, batch, sends);
      && Weight(cfg, rows', r, c, id) <= Weight(cfg, s.rows, r, c, id)
      && (id in batch && id != r && s.rows[id].createdAt <= c ==>
            Weight(cfg, rows', r, c, id) + 1 <= Weight(cfg, s.rows, r, c, id))
  {
    if id in s.rows {
      assert RowOk(cfg, s, id);
    }
  }

  /** A drain that serves `r` takes one of its attempts. */
  lemma Served(cfg: Config, s: State, batch: seq<nat>, sends: map<nat, Send>, r: nat, c: int)
    requires Safe(cfg, s) && Enabled(cfg, s, Drain(batch, sends)) && IsPending(s.rows, r) && r in batch
    ensures
      var rows' := SettleAll(cfg, s.rows, batch, sends);
      && Work(cfg, rows', r, c, s.nextRow) <= Work(cfg, s.rows, r, c, s.nextRow)
      && (IsPending(rows', r) ==>
            rows'[r].createdAt == s.rows[r].createdAt && Remaining(cfg, rows'[r]) + 1 == Remaining(cfg, s.rows[r]))
  {
    var rows' := SettleAll(cfg, s.rows, batch, sends);
    forall id | 0 <= id < s.nextRow
      ensures Weight(cfg, rows', r, c, id) <= Weight(cfg, s.rows, r, c, id)
    {
      SettleWeight(cfg, s, batch, sends, r, c, id);
    }
    WorkMonotone(cfg, s.rows, rows', r, c, s.nextRow);
    assert RowOk(cfg, s, r);
  }

  /** A drain that does not serve `r` is full, and takes an attempt from a row ahead of it for each place. */
  lemma Unserved(cfg: Config, s: State, batch: seq<nat>, sends: map<nat, Send>, r: nat, c: int)
    requires Safe(cfg, s) && Enabled(cfg, s, Drain(batch, sends)) && IsPending(s.rows, r) && r !in batch
    requires s.rows[r].createdAt == c
    ensures
      var rows' := SettleAll(cfg, s.rows, batch, sends);
      && Work(cfg, rows', r, c, s.nextRow) + cfg.batchSize <= Work(cfg, s.rows, r, c, s.nextRow)
      && r in rows' && rows'[r] == s.rows[r]
  {
    var rows' := SettleAll(cfg, s.rows, batch, sends);
    forall id | 0 <= id < s.nextRow
      ensures Weight(cfg, rows', r, c, id) + (if id in batch then 1 else 0) <= Weight(cfg, s.rows, r, c, id)
    {
      SettleWeight(cfg, s, batch, sends, r, c, id);
    }
    BatchWorks(cfg, s.rows, rows', r, c, batch, s.nextRow);
    assert forall id :: id in batch ==> id < s.nextRow by {
      assert forall id :: id in s.rows ==> id in s.staged.Keys;
    }
    BelowAll(batch, s.nextRow);
  }

  /** Either way a committed drain uses up a batch of potential. */
  lemma DrainUsesPotential(cfg: Config, s: State, batch: seq<nat>, sends: map<nat, Send>, r: nat, c: int)
    requires Safe(cfg, s) && Enabled(cfg, s, Drain(batch, sends)) && IsPending(s.rows, r) && s.rows[r].createdAt == c
    ensures
      var s' := Apply(cfg, s, Drain(batch, sends));
      && s'.nextRow == s.nextRow
      && (IsPending(s'.rows, r) ==>
            s'.rows[r].createdAt == c && Potential(cfg, s', r, c) + cfg.batchSize <= Potential(cfg, s, r, c))
  {
    hide Work, Remaining, Safe;
    var rows' := SettleAll(cfg, s.rows, batch, sends);
    if r in batch {
      Served(cfg, s, batch, sends, r, c);
      if IsPending(rows', r) {
        Distributes(cfg.batchSize, Remaining(cfg, rows'[r]), Remaining(cfg, s.rows[r]));
      }
    } else {
      Unserved(cfg, s, batch, sends, r, c);
    }
  }

  lemma Distributes(b: nat, x: nat, y: nat)
    requires x + 1 == y
    ensures b * x + b == b * y
  {
  }

  /** No other step adds work ahead of `r`, if new rows are created after it. */
  lemma OtherKeepsPotential(cfg: Config, s: State, step: Step, r: nat, c: int)
    requires Safe(cfg, s) && Enabled(cfg, s, step) && IsPending(s.rows, r) && s.rows[r].createdAt == c
    requires !step.Drain? && (step.Create? ==> step.now > c)
    ensures
      var s' := Apply(cfg, s, step);
      IsPending(s'.rows, r) && s'.rows[r] == s.rows[r] && Potential(cfg, s', r, c) <= Potential(cfg, s, r, c)
  {
    hide Bijection, Genuine, CleanedOk;
    var s' := Apply(cfg, s, step);
    assert RowOk(cfg, s, r);
    WorkMonotone(cfg, s.rows, s'.rows, r, c, s.nextRow);
  }

  function Drains(steps: seq<Step>): nat {
    if steps == [] then 0 else Drains(steps[..|steps| - 1]) + if steps[|steps| - 1].Drain? then 1 else 0
  }

  ghost predicate CreatesAfter(steps: seq<Step>, c: int) {
    forall i :: 0 <= i < |steps| && steps[i].Create? ==> steps[i].now > c
  }

  lemma {:induction false} RunUsesPotential(cfg: Config, s: State, steps: seq<Step>, r: nat, c: int)
    requires Safe(cfg, s) && Legal(cfg, s, steps) && IsPending(s.rows, r) && s.rows[r].createdAt == c
    requires CreatesAfter(steps, c)
    ensures
      var s' := Run(cfg, s, steps);
      && r < s'.nextRow
      && (IsPending(s'.rows, r) ==>
            && s'.rows[r].createdAt == c
            && Potential(cfg, s', r, c) + cfg.batchSize * Drains(steps) <= Potential(cfg, s, r, c))
  {
    hide Safe, Potential;
    if steps == [] {
      assert r < s.nextRow by { StagedBelow(cfg, s, r); }
    } else {
      var front, step := steps[..|steps| - 1], steps[|steps| - 1];
      var mid := Run(cfg, s, front);
      RunUsesPotential(cfg, s, front, r, c);
      NoLostNoGhostEvents(cfg, s, front);
      if IsPending(mid.rows, r) {
        match step {
          case Drain(batch, sends) =>
            DrainUsesPotential(cfg, mid, batch, sends, r, c);
            Distributes(cfg.batchSize, Drains(front), Drains(steps));
          case _ => OtherKeepsPotential(cfg, mid, step, r, c);
        }
      } else {
        DoneStaysDone(cfg, mid, step, r);
      }
    }
  }

  lemma StagedBelow(cfg: Config, s: State, r: nat)
    requires Safe(cfg, s) && r in s.rows
    ensures r < s.nextRow
  {
    assert r in s.staged.Keys;
  }

  lemma DoneStaysDone(cfg: Config, s: State, step: Step, r: nat)
    requires Enabled(cfg, s, step) && !IsPending(s.rows, r) && r < s.nextRow
    ensures !IsPending(Apply(cfg, s, step).rows, r) && r < Apply(cfg, s, step).nextRow
  {
  }

  /**
   * A PENDING row with `p` pending rows ahead of it is SENT or FAILED (or already cleaned up)
   * within Budget * (p / batchSize + 1) committed drains, the division being exact, whatever each
   * send does and whatever else happens in between.
   */
  lemma BoundedProgress(cfg: Config, s: State, steps: seq<Step>, r: nat)
    requires Safe(cfg, s) && Legal(cfg, s, steps) && IsPending(s.rows, r) && cfg.batchSize >= 1
    requires CreatesAfter(steps, s.rows[r].createdAt)
    requires cfg.batchSize * (Drains(steps) + 1) > cfg.Budget() * (|Ahead(s.rows, r)| + cfg.batchSize)
    ensures !IsPending(Run(cfg, s, steps).rows, r)
  {
    hide Safe, Legal, Ahead, Drains, CreatesAfter, Run, IsPending;
    if IsPending(Run(cfg, s, steps).rows, r) {
      PendingBound(cfg, s, steps, r);
    }
  }

  lemma PendingBound(cfg: Config, s: State, steps: seq<Step>, r: nat)
    requires Safe(cfg, s) && Legal(cfg, s, steps) && IsPending(s.rows, r)
    requires CreatesAfter(steps, s.rows[r].createdAt) && IsPending(Run(cfg, s, steps).rows, r)
    ensures cfg.batchSize * (Drains(steps) + 1) <= cfg.Budget() * (|Ahead(s.rows, r)| + cfg.batchSize)
  {
    hide Safe, Potential, Ahead;
    var c, s' := s.rows[r].createdAt, Run(cfg, s, steps);
    RunUsesPotential(cfg, s, steps, r, c);
    NoLostNoGhostEvents(cfg, s, steps);
    StartingPotential(cfg, s, r);
    LastAttempt(cfg, s', r, c);
    var start, end := Potential(cfg, s, r, c), Potential(cfg, s', r, c);
    Spent(cfg.batchSize, cfg.Budget(), |Ahead(s.rows, r)|, Drains(steps), start, end);
  }

  lemma Spent(b: nat, m: nat, p: nat, drains: nat, start: nat, end: nat)
    requires start <= m * p + b * m && end + b * drains <= start && end >= b
    ensures b * (drains + 1) <= m * (p + b)
  {
    assert b * (drains + 1) == b * drains + b;
    assert m * (p + b) == m * p + b * m;
  }

  lemma StartingPotential(cfg: Config, s: State, r: nat)
    requires Safe(cfg, s) && IsPending(s.rows, r)
    ensures Potential(cfg, s, r, s.rows[r].createdAt)
         <= cfg.Budget() * |Ahead(s.rows, r)| + cfg.batchSize * cfg.Budget()
  {
    WorkBound(cfg, s.rows, r, s.nextRow);
    assert Ahead(s.rows, r) == (set id | id in Ahead(s.rows, r) && id < s.nextRow) by {
      assert forall id :: id in s.rows ==> id in s.staged.Keys;
    }
    Scales(cfg.batchSize, Remaining(cfg, s.rows[r]), cfg.Budget());
  }

  lemma LastAttempt(cfg: Config, s: State, r: nat, c: int)
    requires Safe(cfg, s) && IsPending(s.rows, r)
    ensures Potential(cfg, s, r, c) >= cfg.batchSize
  {
    assert RowOk(cfg, s, r);
    Scales(cfg.batchSize, 1, Remaining(cfg, s.rows[r]));
  }

  lemma Scales(b: nat, x: nat, y: nat)
    requires x <= y
    ensures b * x <= b * y
  {
  }
}
