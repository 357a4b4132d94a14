/**
 * How often an event can be delivered: exactly how many copies of an order's record have been
 * appended to the log or may still be.
 */
module OutboxCopies {
  import opened Outbox

  function Count(records: seq<Record>, key: nat): nat {
    if records == [] then 0
    else Count(records[..|records| - 1], key) + if records[|records| - 1].key == key then 1 else 0
  }

  /** In the log, and sent without an answer so far. */
  function Copies(s: State, key: nat): nat {
    Count(s.log, key) + Count(s.inflight, key)
  }

  lemma CountNext(records: seq<Record>, r: Record, key: nat)
    ensures Count(records + [r], key) == Count(records, key) + if r.key == key then 1 else 0
  {
    assert (records + [r])[..|records|] == records;
  }

  lemma {:induction false} CountConcat(a: seq<Record>, b: seq<Record>, key: nat)
    ensures Count(a + b, key) == Count(a, key) + Count(b, key)
  {
    if b == [] {
      assert a + b == a;
    } else {
      var last := |b| - 1;
      CountConcat(a, b[..last], key);
      assert b == b[..last] + [b[last]];
      assert a + b == (a + b[..last]) + [b[last]];
      CountNext(a + b[..last], b[last], key);
    }
  }

  lemma CountWithout(records: seq<Record>, i: nat, key: nat)
    requires i < |records|
    ensures Count(records[..i] + records[i + 1..], key) + (if records[i].key == key then 1 else 0)
         == Count(records, key)
  {
    hide Count;
    var before, after := records[..i], records[i + 1..];
    CountConcat(before, after, key);
    CountConcat(records[..i + 1], after, key);
    CountNext(before, records[i], key);
    assert before + [records[i]] == records[..i + 1];
    assert records[..i + 1] + after == records;
  }

  lemma {:induction false} CountNone(records: seq<Record>, key: nat)
    requires forall i :: 0 <= i < |records| ==> records[i].key != key
    ensures Count(records, key) == 0
  {
    if records == [] {
    } else {
      CountNone(records[..|records| - 1], key);
    }
  }

  /** The step is an aborted drain that had already fired the row's record. */
  predicate Fires(step: Step, id: nat) {
    step.Abort? && exists k :: 0 <= k < |step.batch| && k < step.fired && step.batch[k] == id
  }

  function Aborts(steps: seq<Step>, id: nat): nat {
    if steps == [] then 0
    else Aborts(steps[..|steps| - 1], id) + if Fires(steps[|steps| - 1], id) then 1 else 0
  }

  function Settlements(row: Row): nat {
    row.attempts + if row.status == SENT then 1 else 0
  }

  /** Once a row was cleaned up only the bound is left. */
  ghost predicate CopiesOk(cfg: Config, s: State, id: nat, aborts: nat) {
    && id in s.staged
    && (id in s.rows ==> Copies(s, s.staged[id]) == Settlements(s.rows[id]) + aborts)
    && (id in s.cleaned ==> 1 <= Copies(s, s.staged[id]) <= cfg.Budget() + aborts)
  }

  /** No other row of the batch carries the key. */
  ghost predicate KeyOnlyOf(rows: map<nat, Row>, batch: seq<nat>, key: nat, id: nat) {
    forall j :: 0 <= j < |batch| ==> batch[j] in rows && (rows[batch[j]].aggregateId == key <==> batch[j] == id)
  }

  lemma KeyIsItsRow(cfg: Config, s: State, batch: seq<nat>, id: nat)
    requires Safe(cfg, s) && id in s.staged && forall j :: 0 <= j < |batch| ==> batch[j] in s.rows
    ensures KeyOnlyOf(s.rows, batch, s.staged[id], id)
  {
    hide Genuine, CleanedOk, Accounted;
    forall j | 0 <= j < |batch|
      ensures s.rows[batch[j]].aggregateId == s.staged[id] <==> batch[j] == id
    {
      assert RowOk(cfg, s, batch[j]);
    }
  }

  predicate Among(batch: seq<nat>, n: nat, id: nat) {
    exists k :: 0 <= k < n && k < |batch| && batch[k] == id
  }

  lemma AmongNext(batch: seq<nat>, n: nat, id: nat)
    requires 0 < n <= |batch| && Distinct(batch)
    ensures Among(batch, n, id) <==> Among(batch, n - 1, id) || batch[n - 1] == id
    ensures batch[n - 1] == id ==> !Among(batch, n - 1, id)
  {
  }

  lemma {:induction false} DrainCopies(rows: map<nat, Row>, batch: seq<nat>, sends: map<nat, Send>, n: nat,
                                       key: nat, id: nat)
    requires Covers(rows, batch, sends) && n <= |batch| && Distinct(batch) && KeyOnlyOf(rows, batch, key, id)
    ensures Count(AckedRecords(rows, batch, sends, n), key) + Count(LostRecords(rows, batch, sends, n), key) ==
      if Among(batch, n, id) then 1 else 0
  {
    hide Among, Distinct;
    if n == 0 {
      assert !Among(batch, 0, id) by { AmongNone(batch, id); }
    } else {
      hide Count;
      DrainCopies(rows, batch, sends, n - 1, key, id);
      AmongNext(batch, n, id);
      CountNext(AckedRecords(rows, batch, sends, n - 1), RecordOf(rows[batch[n - 1]]), key);
      CountNext(LostRecords(rows, batch, sends, n - 1), RecordOf(rows[batch[n - 1]]), key);
    }
  }

  lemma AmongNone(batch: seq<nat>, id: nat)
    ensures !Among(batch, 0, id)
  {
  }

  lemma {:induction false} FiredCopies(rows: map<nat, Row>, batch: seq<nat>, n: nat, key: nat, id: nat)
    requires n <= |batch| && Distinct(batch) && KeyOnlyOf(rows, batch, key, id)
    requires forall j :: j in batch ==> j in rows
    ensures Count(FiredRecords(rows, batch, n), key) == if Among(batch, n, id) then 1 else 0
  {
    hide Among, Distinct;
    if n == 0 {
      AmongNone(batch, id);
    } else {
      FiredCopies(rows, batch, n - 1, key, id);
      AmongNext(batch, n, id);
      CountNext(FiredRecords(rows, batch, n - 1), RecordOf(rows[batch[n - 1]]), key);
    }
  }

  lemma DrainKeepsCopies(cfg: Config, s: State, batch: seq<nat>, sends: map<nat, Send>, id: nat, aborts: nat)
    requires Safe(cfg, s) && Enabled(cfg, s, Drain(batch, sends)) && CopiesOk(cfg, s, id, aborts)
    ensures CopiesOk(cfg, Apply(cfg, s, Drain(batch, sends)), id, aborts)
  {
    hide Safe, Count;
    var s', key := Apply(cfg, s, Drain(batch, sends)), s.staged[id];
    assert forall j :: 0 <= j < |batch| ==> batch[j] in batch && IsPending(s.rows, batch[j]);
    KeyIsItsRow(cfg, s, batch, id);
    DrainCopies(s.rows, batch, sends, |batch|, key, id);
    CountConcat(s.log, AckedRecords(s.rows, batch, sends, |batch|), key);
    CountConcat(s.inflight, LostRecords(s.rows, batch, sends, |batch|), key);
    assert Among(batch, |batch|, id) <==> id in batch;
    if id in s.cleaned {
      CleanedIsGone(cfg, s, id);
    } else if id in s.rows {
      SettledOnce(cfg, s.rows, batch, sends, id);
    }
  }

  lemma CleanedIsGone(cfg: Config, s: State, id: nat)
    requires Safe(cfg, s) && id in s.cleaned
    ensures id !in s.rows
  {
    hide RowOk, CleanedOk, Genuine, Bijection;
  }

  lemma SettledOnce(cfg: Config, rows: map<nat, Row>, batch: seq<nat>, sends: map<nat, Send>, id: nat)
    requires Covers(rows, batch, sends) && id in rows && (id in batch ==> IsPending(rows, id))
    ensures
      var rows' := SettleAll(cfg, rows, batch, sends);
      id in rows' && Settlements(rows'[id]) == Settlements(rows[id]) + if id in batch then 1 else 0
  {
  }

  lemma AbortKeepsCopies(cfg: Config, s: State, batch: seq<nat>, fired: nat, id: nat, aborts: nat)
    requires Safe(cfg, s) && Enabled(cfg, s, Abort(batch, fired)) && CopiesOk(cfg, s, id, aborts)
    ensures
      var step := Abort(batch, fired);
      CopiesOk(cfg, Apply(cfg, s, step), id, aborts + if Fires(step, id) then 1 else 0)
  {
    hide Safe, Count;
    var key := s.staged[id];
    assert forall j :: 0 <= j < |batch| ==> batch[j] in batch && IsPending(s.rows, batch[j]);
    KeyIsItsRow(cfg, s, batch, id);
    FiredCopies(s.rows, batch, fired, key, id);
    CountConcat(s.inflight, FiredRecords(s.rows, batch, fired), key);
    if id in s.cleaned {
      CleanedIsGone(cfg, s, id);
    }
  }

  lemma ArriveKeepsCopies(cfg: Config, s: State, i: nat, id: nat, aborts: nat)
    requires Enabled(cfg, s, Arrive(i)) && CopiesOk(cfg, s, id, aborts)
    ensures CopiesOk(cfg, Apply(cfg, s, Arrive(i)), id, aborts)
  {
    hide Count;
    CountNext(s.log, s.inflight[i], s.staged[id]);
    CountWithout(s.inflight, i, s.staged[id]);
  }

  lemma CleanupKeepsCopies(cfg: Config, s: State, cutoff: int, id: nat, aborts: nat)
    requires Safe(cfg, s) && CopiesOk(cfg, s, id, aborts)
    ensures CopiesOk(cfg, Apply(cfg, s, Cleanup(cutoff)), id, aborts)
  {
    hide Bijection, Genuine, CleanedOk, Count;
    if id in s.rows {
      assert RowOk(cfg, s, id);
    }
  }

  lemma OrdersKeepCopies(cfg: Config, s: State, step: Step, id: nat, aborts: nat)
    requires Safe(cfg, s) && Enabled(cfg, s, step) && CopiesOk(cfg, s, id, aborts)
    requires step.Create? || step.SetStatus?
    ensures CopiesOk(cfg, Apply(cfg, s, step), id, aborts)
  {
    hide Bijection, Genuine, CleanedOk, RowOk, Count;
  }

  lemma StepKeepsCopies(cfg: Config, s: State, step: Step, id: nat, aborts: nat)
    requires Safe(cfg, s) && Enabled(cfg, s, step) && CopiesOk(cfg, s, id, aborts)
    ensures CopiesOk(cfg, Apply(cfg, s, step), id, aborts + if Fires(step, id) then 1 else 0)
  {
    hide Safe, Enabled, Apply, CopiesOk;
    match step {
      case Drain(batch, sends) => DrainKeepsCopies(cfg, s, batch, sends, id, aborts);
      case Abort(batch, fired) => AbortKeepsCopies(cfg, s, batch, fired, id, aborts);
      case Arrive(i) => ArriveKeepsCopies(cfg, s, i, id, aborts);
      case Cleanup(cutoff) => CleanupKeepsCopies(cfg, s, cutoff, id, aborts);
      case _ => OrdersKeepCopies(cfg, s, step, id, aborts);
    }
  }

  /** A row not yet placed was never fired, and there are no copies of an order not yet placed. */
  lemma {:induction false} NeverFired(cfg: Config, steps: seq<Step>, id: nat)
    requires Legal(cfg, EMPTY, steps) && id >= Run(cfg, EMPTY, steps).nextRow
    ensures Aborts(steps, id) == 0
  {
    hide Safe, Apply;
    if steps == [] {
    } else {
      var front, step := steps[..|steps| - 1], steps[|steps| - 1];
      var mid := Run(cfg, EMPTY, front);
      assert mid.nextRow <= Apply(cfg, mid, step).nextRow by { NextRowGrows(cfg, mid, step); }
      NeverFired(cfg, front, id);
      EmptyIsSafe(cfg);
      NoLostNoGhostEvents(cfg, EMPTY, front);
      NotInBatch(cfg, mid, step, id);
    }
  }

  lemma NotInBatch(cfg: Config, s: State, step: Step, id: nat)
    requires Safe(cfg, s) && Enabled(cfg, s, step) && id >= s.nextRow
    ensures !Fires(step, id)
  {
    hide Bijection, Genuine, CleanedOk, RowOk;
    if step.Abort? {
      forall k | 0 <= k < |step.batch|
        ensures step.batch[k] < s.nextRow
      {
        assert step.batch[k] in step.batch && IsPending(s.rows, step.batch[k]);
        assert step.batch[k] in s.staged.Keys;
      }
    }
  }

  lemma NewRowCopies(cfg: Config, s: State, step: Step, id: nat)
    requires Safe(cfg, s) && Enabled(cfg, s, step) && id !in s.staged && id in Apply(cfg, s, step).staged
    ensures id == s.nextRow && CopiesOk(cfg, Apply(cfg, s, step), id, 0) && !Fires(step, id)
  {
    hide Bijection, CleanedOk, RowOk;
    forall i | 0 <= i < |s.log|
      ensures s.log[i].key != s.nextOrder
    {
      assert s.log[i] in s.log && Genuine(s.orders, s.log[i]);
    }
    forall i | 0 <= i < |s.inflight|
      ensures s.inflight[i].key != s.nextOrder
    {
      assert s.inflight[i] in s.inflight && Genuine(s.orders, s.inflight[i]);
    }
    CountNone(s.log, s.nextOrder);
    CountNone(s.inflight, s.nextOrder);
  }

  /**
   * In every run the copies of an order's record are exactly the row's failed sends, one more once
   * it is SENT, and the aborted drains that had already fired it. After cleanup they lie between 1
   * and the attempt budget plus those aborts.
   */
  lemma {:induction false} CopiesAreSends(cfg: Config, steps: seq<Step>, id: nat)
    requires Legal(cfg, EMPTY, steps) && id in Run(cfg, EMPTY, steps).staged
    ensures CopiesOk(cfg, Run(cfg, EMPTY, steps), id, Aborts(steps, id))
  {
    hide Safe, Apply, CopiesOk, Fires;
    if steps == [] {
    } else {
      var front, step := steps[..|steps| - 1], steps[|steps| - 1];
      var mid := Run(cfg, EMPTY, front);
      EmptyIsSafe(cfg);
      NoLostNoGhostEvents(cfg, EMPTY, front);
      if id in mid.staged {
        CopiesAreSends(cfg, front, id);
        StepKeepsCopies(cfg, mid, step, id, Aborts(front, id));
      } else {
        NewRowCopies(cfg, mid, step, id);
        NeverFired(cfg, front, id);
      }
    }
  }
}
