/**
 * Rows created at one moment may be served in any order. Exactly when that makes a row miss the
 * rounded-down bound: whenever enough attempts of the last, incomplete batch add up to a full one.
 */
module OutboxTies {
  import opened Prelude
  import opened Outbox
  import opened OutboxProgress
  import opened OutboxFifo

  const REQUEST := CreateOrderRequest(Some(1), Some(1), Some(1))

  const PRODUCT := ProductSnapshot(1.0, 1)

  const PLACE_ONE := Step.Create(REQUEST, Some(PRODUCT), 0)

  /** The row of the `id`-th order, all of them created at 0, after `attempts` failed sends. */
  function Tied(cfg: Config, id: nat, attempts: nat): Row {
    StagedRow(id, Snapshot(id, NewOrder(REQUEST, PRODUCT)), 0)
      .(attempts := attempts, status := if attempts > 0 && attempts >= cfg.maxAttempts then FAILED else PENDING)
  }

  function Nth(attempts: seq<nat>, id: nat): nat
    requires 1 <= id <= |attempts|
  {
    attempts[id - 1]
  }

  function Table(cfg: Config, attempts: seq<nat>): map<nat, Row> {
    map id | 1 <= id <= |attempts| :: Tied(cfg, id, Nth(attempts, id))
  }

  function Zeros(n: nat): seq<nat> {
    seq(n, _ => 0)
  }

  function Placements(n: nat): seq<Step> {
    seq(n, _ => PLACE_ONE)
  }

  lemma PlaceStep(cfg: Config, s: State, n: nat)
    requires s.nextRow == n + 1 && s.nextOrder == n + 1 && s.rows == Table(cfg, Zeros(n))
    ensures
      var s' := Apply(cfg, s, PLACE_ONE);
      s'.nextRow == n + 2 && s'.nextOrder == n + 2 && s'.rows == Table(cfg, Zeros(n + 1))
  {
  }

  lemma {:induction false} AllPlaced(cfg: Config, n: nat)
    ensures Legal(cfg, EMPTY, Placements(n))
    ensures
      var s := Run(cfg, EMPTY, Placements(n));
      s.nextRow == n + 1 && s.nextOrder == n + 1 && s.rows == Table(cfg, Zeros(n))
  {
    if n == 0 {
      assert Table(cfg, Zeros(0)) == map[];
    } else {
      AllPlaced(cfg, n - 1);
      assert Placements(n)[..n - 1] == Placements(n - 1);
      PlaceStep(cfg, Run(cfg, EMPTY, Placements(n - 1)), n - 1);
    }
  }

  // ---- drains whose sends all fail ----

  function Fails(batch: seq<nat>): map<nat, Send> {
    map id | id in batch :: Errored(None)
  }

  function DrainOf(batch: seq<nat>): Step {
    Drain(batch, Fails(batch))
  }

  function Charged(attempts: seq<nat>, batch: seq<nat>): seq<nat> {
    seq(|attempts|, i requires 0 <= i < |attempts| => attempts[i] + if i + 1 in batch then 1 else 0)
  }

  /** Any full batch of pending rows of equal age is an answer of the query. */
  lemma AnyFullBatch(cfg: Config, attempts: seq<nat>, batch: seq<nat>)
    requires |batch| == cfg.batchSize && Distinct(batch)
    requires forall i :: 0 <= i < |batch| ==> 1 <= batch[i] <= |attempts| && Nth(attempts, batch[i]) < cfg.maxAttempts
    ensures OldestPending(Table(cfg, attempts), batch, cfg.batchSize)
  {
    hide NewOrder;
  }

  lemma FailsOnce(cfg: Config, id: nat, attempts: nat)
    requires attempts == 0 || attempts < cfg.maxAttempts
    ensures Settle(cfg, Tied(cfg, id, attempts), Errored(None)) == Tied(cfg, id, attempts + 1)
  {
  }

  lemma TableFails(cfg: Config, attempts: seq<nat>, batch: seq<nat>)
    requires forall id :: id in batch ==> IsPending(Table(cfg, attempts), id)
    ensures Covers(Table(cfg, attempts), batch, Fails(batch))
    ensures SettleAll(cfg, Table(cfg, attempts), batch, Fails(batch)) == Table(cfg, Charged(attempts, batch))
  {
    hide Settle, StagedRow;
    var rows := SettleAll(cfg, Table(cfg, attempts), batch, Fails(batch));
    forall id | 1 <= id <= |attempts|
      ensures rows[id] == Tied(cfg, id, Nth(Charged(attempts, batch), id))
    {
      if id in batch {
        assert IsPending(Table(cfg, attempts), id);
        FailsOnce(cfg, id, Nth(attempts, id));
      }
    }
  }

  lemma Selected(rows: map<nat, Row>, batch: seq<nat>, limit: nat)
    requires OldestPending(rows, batch, limit)
    ensures forall id :: id in batch ==> IsPending(rows, id)
  {
  }

  lemma DrainNext(cfg: Config, s: State, steps: seq<Step>, attempts: seq<nat>, batch: seq<nat>)
    requires Legal(cfg, s, steps) && Run(cfg, s, steps).rows == Table(cfg, attempts)
    requires OldestPending(Table(cfg, attempts), batch, cfg.batchSize)
    ensures Legal(cfg, s, steps + [DrainOf(batch)])
    ensures Run(cfg, s, steps + [DrainOf(batch)]).rows == Table(cfg, Charged(attempts, batch))
    ensures Drains(steps + [DrainOf(batch)]) == Drains(steps) + 1
  {
    hide OldestPending, Settle, StagedRow, SettleAll, Table, Charged, Covers, Fails;
    Selected(Table(cfg, attempts), batch, cfg.batchSize);
    TableFails(cfg, attempts, batch);
    assert (steps + [DrainOf(batch)])[..|steps|] == steps;
  }

  // ---- serving p rows in turn ----

  /** The row that the n-th serve, counted from 0, goes to. */
  function RowAt(n: nat, p: nat): (id: nat)
    requires p > 0
    ensures 1 <= id <= p
  {
    if n == 0 || RowAt(n - 1, p) == p then 1 else RowAt(n - 1, p) + 1
  }

  /** Rounds completed before the n-th serve. */
  function Round(n: nat, p: nat): nat
    requires p > 0
  {
    if n == 0 then 0 else Round(n - 1, p) + if RowAt(n - 1, p) == p then 1 else 0
  }

  /** How often row j + 1 has been served before the n-th serve. */
  function Serves(n: nat, j: nat, p: nat): nat
    requires p > 0
  {
    Round(n, p) + if j + 1 < RowAt(n, p) then 1 else 0
  }

  lemma NextServe(n: nat, j: nat, p: nat)
    requires j < p
    ensures Serves(n + 1, j, p) == Serves(n, j, p) + if RowAt(n, p) == j + 1 then 1 else 0
    ensures RowAt(n + 1, p) == if RowAt(n, p) < p then RowAt(n, p) + 1 else 1
  {
  }

  lemma {:induction false} RoundsAdd(n: nat, p: nat)
    requires p > 0
    ensures n == p * Round(n, p) + RowAt(n, p) - 1
  {
    if n == 0 {
    } else {
      RoundsAdd(n - 1, p);
      if RowAt(n - 1, p) == p {
        Distributes(p, Round(n - 1, p), Round(n, p));
      }
    }
  }

  /** The next b serves as a batch. */
  function Turn(start: nat, b: nat, p: nat): (ids: seq<nat>)
    requires p > 0
    ensures |ids| == b && forall i :: 0 <= i < b ==> ids[i] == RowAt(start + i, p)
  {
    if b == 0 then [] else Turn(start, b - 1, p) + [RowAt(start + b - 1, p)]
  }

  lemma {:induction false} RowFrom(x: nat, d: nat, p: nat)
    requires d < p
    ensures RowAt(x + d, p) == RowAt(x, p) + d - if RowAt(x, p) + d <= p then 0 else p
  {
    hide RowAt;
    if d == 0 {
    } else {
      RowFrom(x, d - 1, p);
      NextServe(x + d - 1, 0, p);
    }
  }

  lemma FarApart(x: nat, y: nat, p: nat)
    requires x < y < x + p
    ensures RowAt(x, p) != RowAt(y, p)
  {
    hide RowAt;
    RowFrom(x, y - x, p);
  }

  lemma TurnDistinct(start: nat, b: nat, p: nat)
    requires p > 0 && b <= p
    ensures Distinct(Turn(start, b, p))
  {
    hide RowAt;
    forall i, j | 0 <= i < j < b
      ensures Turn(start, b, p)[i] != Turn(start, b, p)[j]
    {
      FarApart(start + i, start + j, p);
    }
  }

  /** A turn serves each row in its batch once and no others. */
  lemma {:induction false} TurnServes(start: nat, b: nat, j: nat, p: nat)
    requires j < p && b <= p
    ensures Serves(start + b, j, p) == Serves(start, j, p) + if j + 1 in Turn(start, b, p) then 1 else 0
  {
    hide Serves, RowAt;
    if b == 0 {
    } else {
      TurnServes(start, b - 1, j, p);
      NextServe(start + b - 1, j, p);
      var before, last := Turn(start, b - 1, p), RowAt(start + b - 1, p);
      assert last !in before by {
        forall i | 0 <= i < b - 1
          ensures before[i] != last
        {
          FarApart(start + i, start + b - 1, p);
        }
      }
    }
  }

  lemma {:induction false} ServesGrow(n: nat, n': nat, j: nat, p: nat)
    requires j < p && n <= n'
    ensures Serves(n, j, p) <= Serves(n', j, p)
    decreases n' - n
  {
    if n == n' {
    } else {
      NextServe(n, j, p);
      ServesGrow(n + 1, n', j, p);
    }
  }

  lemma ServedBelow(n: nat, m: nat, p: nat)
    requires p > 0 && n < m * p
    ensures Serves(n, RowAt(n, p) - 1, p) < m
  {
    RoundsAdd(n, p);
    if Round(n, p) >= m {
      Scales(p, m, Round(n, p));
    }
  }

  /** Attempts of p rows after n serves in turn; one more row has none. */
  function AfterServes(n: nat, p: nat): seq<nat>
    requires p > 0
  {
    seq(p + 1, j requires 0 <= j <= p => if j < p then Serves(n, j, p) else 0)
  }

  lemma TurnIsLegal(cfg: Config, start: nat, p: nat)
    requires 0 < cfg.batchSize <= p && cfg.maxAttempts >= 1 && start + cfg.batchSize <= cfg.maxAttempts * p
    ensures OldestPending(Table(cfg, AfterServes(start, p)), Turn(start, cfg.batchSize, p), cfg.batchSize)
  {
    hide Serves, RowAt;
    var b := cfg.batchSize;
    TurnDistinct(start, b, p);
    forall i | 0 <= i < b
      ensures
        var id := Turn(start, b, p)[i];
        1 <= id <= p + 1 && Nth(AfterServes(start, p), id) < cfg.maxAttempts
    {
      ServesGrow(start, start + i, RowAt(start + i, p) - 1, p);
      ServedBelow(start + i, cfg.maxAttempts, p);
    }
    AnyFullBatch(cfg, AfterServes(start, p), Turn(start, b, p));
  }

  lemma TurnCharges(start: nat, b: nat, p: nat)
    requires 0 < b <= p
    ensures Charged(AfterServes(start, p), Turn(start, b, p)) == AfterServes(start + b, p)
  {
    hide Serves, RowAt;
    assert forall i :: 0 <= i < b ==> Turn(start, b, p)[i] <= p;
    forall j | 0 <= j <= p
      ensures Charged(AfterServes(start, p), Turn(start, b, p))[j] == AfterServes(start + b, p)[j]
    {
      if j < p {
        TurnServes(start, b, j, p);
      }
    }
  }

  ghost predicate OnlyDrains(steps: seq<Step>) {
    forall i :: 0 <= i < |steps| ==> steps[i].Drain?
  }

  lemma NothingServed(p: nat)
    requires p > 0
    ensures AfterServes(0, p) == Zeros(p + 1)
  {
  }

  /** As many turns as the attempts of the p rows allow, none of which serves the last row. */
  lemma {:induction false} Turns(cfg: Config, s: State, p: nat, k: nat, serves: nat) returns (steps: seq<Step>)
    requires 0 < cfg.batchSize <= p && cfg.maxAttempts >= 1
    requires serves == k * cfg.batchSize <= cfg.maxAttempts * p
    requires s.rows == Table(cfg, Zeros(p + 1))
    ensures Legal(cfg, s, steps) && Drains(steps) == k && OnlyDrains(steps)
    ensures Run(cfg, s, steps).rows == Table(cfg, AfterServes(serves, p))
    decreases k
  {
    hide Table, AfterServes, Zeros, Turn, OldestPending, Charged;
    if k == 0 {
      steps := [];
      NothingServed(p);
    } else {
      var b := cfg.batchSize;
      var start := serves - b;
      assert start == (k - 1) * b;
      steps := Turns(cfg, s, p, k - 1, start);
      TurnIsLegal(cfg, start, p);
      DrainNext(cfg, s, steps, AfterServes(start, p), Turn(start, b, p));
      TurnCharges(start, b, p);
      steps := steps + [DrainOf(Turn(start, b, p))];
    }
  }

  /** A row with attempts to spare can stay pending for as many drains. */
  lemma {:induction false} Stalls(cfg: Config, s: State, steps: seq<Step>, r: nat, k: nat) returns (longer: seq<Step>)
    requires Legal(cfg, s, steps) && OnlyDrains(steps) && IsPending(Run(cfg, s, steps).rows, r)
    requires Run(cfg, s, steps).rows[r].attempts + k < cfg.maxAttempts
    ensures Legal(cfg, s, longer) && OnlyDrains(longer) && Drains(longer) == Drains(steps) + k
    ensures IsPending(Run(cfg, s, longer).rows, r)
    decreases k
  {
    if k == 0 {
      longer := steps;
    } else {
      var mid := Run(cfg, s, steps);
      var batch := LockPending(mid.rows, cfg.batchSize);
      var next := steps + [DrainOf(batch)];
      assert next[..|steps|] == steps;
      Selected(mid.rows, batch, cfg.batchSize);
      assert Enabled(cfg, mid, DrainOf(batch));
      longer := Stalls(cfg, s, next, r, k - 1);
    }
  }

  ghost function Ids(p: nat): (ids: set<nat>)
    ensures |ids| == p && forall id :: id in ids <==> 1 <= id <= p
  {
    if p == 0 then {} else Ids(p - 1) + {p}
  }

  /** The rounded-down bound, for every table with p rows ahead of one, ties allowed, and every schedule. */
  ghost predicate ServedInTime(cfg: Config, p: nat)
    requires cfg.batchSize >= 1
  {
    forall s, steps, r ::
      && Safe(cfg, s) && Legal(cfg, s, steps) && IsPending(s.rows, r) && |Ahead(s.rows, r)| == p
      && CreatesAfter(steps, s.rows[r].createdAt) && Drains(steps) >= cfg.Budget() * (p / cfg.batchSize + 1)
      ==> !IsPending(Run(cfg, s, steps).rows, r)
  }

  /** p + 1 orders placed at one moment. */
  lemma TiedStart(cfg: Config, p: nat)
    ensures Legal(cfg, EMPTY, Placements(p + 1))
    ensures
      var s := Run(cfg, EMPTY, Placements(p + 1));
      && Safe(cfg, s) && s.rows == Table(cfg, Zeros(p + 1))
      && IsPending(s.rows, p + 1) && s.rows[p + 1].createdAt == 0 && |Ahead(s.rows, p + 1)| == p
  {
    hide Safe, Legal, Run;
    AllPlaced(cfg, p + 1);
    EmptyIsSafe(cfg);
    NoLostNoGhostEvents(cfg, EMPTY, Placements(p + 1));
    var s := Run(cfg, EMPTY, Placements(p + 1));
    assert Ahead(s.rows, p + 1) == Ids(p);
  }

  lemma MissesBound(cfg: Config, p: nat)
    requires 1 <= cfg.batchSize <= p && cfg.Budget() * (p % cfg.batchSize) >= cfg.batchSize
    ensures !ServedInTime(cfg, p)
  {
    hide Safe, Ahead, Legal, Run, Drains;
    var b, m, q := cfg.batchSize, cfg.Budget(), p / cfg.batchSize;
    EnoughAttempts(m, p, b, q);
    TiedStart(cfg, p);
    var s := Run(cfg, EMPTY, Placements(p + 1));
    var turns := Turns(cfg, s, p, m * q + 1, (m * q + 1) * b);
    assert Nth(AfterServes((m * q + 1) * b, p), p + 1) == 0;
    var steps := Stalls(cfg, s, turns, p + 1, m - 1);
    assert CreatesAfter(steps, s.rows[p + 1].createdAt);
  }

  lemma EnoughAttempts(m: nat, p: nat, b: nat, q: nat)
    requires b >= 1 && q == p / b && m * (p % b) >= b
    ensures m >= 2 && (m * q + 1) * b <= m * p && (m * q + 1) + (m - 1) == m * (q + 1)
  {
    assert p == b * q + p % b;
    assert m * p == m * q * b + m * (p % b);
  }

  lemma KeepsBound(cfg: Config, p: nat)
    requires 1 <= cfg.batchSize && (p < cfg.batchSize || cfg.Budget() * (p % cfg.batchSize) < cfg.batchSize)
    ensures ServedInTime(cfg, p)
  {
    hide Safe, Ahead, Legal, Run, Drains;
    forall s, steps, r |
      && Safe(cfg, s) && Legal(cfg, s, steps) && IsPending(s.rows, r) && |Ahead(s.rows, r)| == p
      && CreatesAfter(steps, s.rows[r].createdAt) && Drains(steps) >= cfg.Budget() * (p / cfg.batchSize + 1)
      ensures !IsPending(Run(cfg, s, steps).rows, r)
    {
      if p < cfg.batchSize {
        OneBudgetEnough(cfg.Budget(), p, cfg.batchSize);
        HeadDone(cfg, s, steps, r);
      } else {
        ExactBound(cfg.Budget(), p, cfg.batchSize, Drains(steps));
        BoundedProgress(cfg, s, steps, r);
      }
    }
  }

  lemma ExactBound(m: nat, p: nat, b: nat, drains: nat)
    requires b >= 1 && m * (p % b) < b && drains >= m * (p / b + 1)
    ensures b * (drains + 1) > m * (p + b)
  {
    var q, d := p / b, m * (p / b + 1);
    assert p == b * q + p % b;
    Scales(b, d + 1, drains + 1);
    assert b * (d + 1) == m * (b * q) + m * b + b;
    assert m * (p + b) == m * (b * q) + m * (p % b) + m * b;
  }

  /**
   * Ties in the creation times cost nothing as long as the budgets of the rows in the incomplete
   * batch, p % batchSize of them, do not fill a batch (or there is no full batch ahead at all).
   * Otherwise some schedule misses the bound, even for rows all placed at once in empty tables.
   */
  lemma TiesMatterExactly(cfg: Config, p: nat)
    requires cfg.batchSize >= 1
    ensures ServedInTime(cfg, p) <==> p < cfg.batchSize || cfg.Budget() * (p % cfg.batchSize) < cfg.batchSize
  {
    hide ServedInTime;
    if p < cfg.batchSize || cfg.Budget() * (p % cfg.batchSize) < cfg.batchSize {
      KeepsBound(cfg, p);
    } else {
      MissesBound(cfg, p);
    }
  }
}
