/**
 * The tables told from the steps of a run alone: which request each order comes from, which sends
 * made each outbox row what it is, and which cleanup deleted it.
 */
module OutboxHistory {
  import opened Prelude
  import opened Orders
  import opened Outbox

  // ---- orders ----

  /** The request names a buyer, a product and a quantity that the product's stock covers. */
  predicate Accepts(step: Step) {
    && step.Create?
    && step.req.buyerId.Some? && step.req.buyerId.value > 0
    && step.req.productId.Some? && step.req.productId.value > 0
    && step.req.quantity.Some? && step.req.quantity.value > 0
    && step.lookup.Some? && step.lookup.value.stock >= step.req.quantity.value
  }

  function Accepted(steps: seq<Step>): nat {
    if steps == [] then 0
    else Accepted(steps[..|steps| - 1]) + if Accepts(steps[|steps| - 1]) then 1 else 0
  }

  /** The i-th step places the order, and the outbox row, with that id. */
  predicate Places(steps: seq<Step>, i: nat, id: nat) {
    i < |steps| && Accepts(steps[i]) && id == Accepted(steps[..i]) + 1
  }

  /** The order says what the request asked for and what the product cost. */
  predicate AsRequested(o: Order, step: Step) {
    && Accepts(step)
    && o.buyerId == step.req.buyerId.value
    && o.productId == step.req.productId.value
    && o.quantity == step.req.quantity.value
    && o.unitPrice == step.lookup.value.price
    && o.totalAmount == step.lookup.value.price * step.req.quantity.value as real
  }

  /** The i-th step places that order, which is as its request asked. */
  predicate PlacedAs(steps: seq<Step>, i: int, id: nat, o: Order) {
    0 <= i < |steps| && Places(steps, i, id) && AsRequested(o, steps[i])
  }

  /** The i-th step stages that row, at its own moment. */
  predicate RowPlaced(steps: seq<Step>, i: int, id: nat, row: Row) {
    && 0 <= i < |steps| && Places(steps, i, id)
    && row.createdAt == steps[i].now && row.aggregateType == "order" && row.eventType == "order-created"
  }

  ghost predicate Ledger(steps: seq<Step>, s: State) {
    && s.nextOrder == s.nextRow == Accepted(steps) + 1
    && (forall id :: id in s.orders <==> 1 <= id < s.nextOrder)
    && (forall id :: id in s.staged <==> 1 <= id < s.nextRow)
    && (forall id :: id in s.staged ==> s.staged[id] == id)
    && (forall id :: id in s.orders ==> exists i :: PlacedAs(steps, i, id, s.orders[id]))
  }

  lemma PlacesStays(steps: seq<Step>, step: Step, i: int, id: nat, o: Order, o': Order)
    requires PlacedAs(steps, i, id, o) && o' == o.(status := o'.status)
    ensures PlacedAs(steps + [step], i, id, o')
  {
    assert (steps + [step])[..i] == steps[..i] && (steps + [step])[i] == steps[i];
  }

  lemma AcceptedNext(steps: seq<Step>, step: Step)
    ensures Accepted(steps + [step]) == Accepted(steps) + if Accepts(step) then 1 else 0
    ensures Accepts(step) ==> Places(steps + [step], |steps|, Accepted(steps) + 1)
  {
    assert (steps + [step])[..|steps|] == steps;
  }

  lemma CreateLedger(cfg: Config, steps: seq<Step>, s: State, step: Step)
    requires Ledger(steps, s) && step.Create?
    ensures Ledger(steps + [step], Apply(cfg, s, step))
  {
    hide PlacedAs;
    var all, s' := steps + [step], Apply(cfg, s, step);
    AcceptedNext(steps, step);
    forall id | id in s'.orders
      ensures exists i :: PlacedAs(all, i, id, s'.orders[id])
    {
      if id in s.orders {
        var i :| PlacedAs(steps, i, id, s.orders[id]);
        PlacesStays(steps, step, i, id, s.orders[id], s'.orders[id]);
      } else {
        PlacedAsRequested(cfg, s, step);
        PlacedNow(steps, step, s'.orders[id]);
      }
    }
  }

  lemma PlacedNow(steps: seq<Step>, step: Step, o: Order)
    requires AsRequested(o, step)
    ensures PlacedAs(steps + [step], |steps|, Accepted(steps) + 1, o)
  {
    AcceptedNext(steps, step);
    assert (steps + [step])[|steps|] == step;
  }

  lemma RowStays(steps: seq<Step>, step: Step, i: int, id: nat, row: Row, row': Row)
    requires RowPlaced(steps, i, id, row) && SamePlace(row, row')
    ensures RowPlaced(steps + [step], i, id, row')
  {
    assert (steps + [step])[..i] == steps[..i] && (steps + [step])[i] == steps[i];
  }

  lemma PlacedAsRequested(cfg: Config, s: State, step: Step)
    requires Accepts(step)
    ensures s.nextOrder in Apply(cfg, s, step).orders && AsRequested(Apply(cfg, s, step).orders[s.nextOrder], step)
  {
  }

  lemma StepLedger(cfg: Config, steps: seq<Step>, s: State, step: Step)
    requires Ledger(steps, s) && Enabled(cfg, s, step)
    ensures Ledger(steps + [step], Apply(cfg, s, step))
  {
    if step.Create? {
      CreateLedger(cfg, steps, s, step);
    } else {
      hide PlacedAs;
      var all, s' := steps + [step], Apply(cfg, s, step);
      AcceptedNext(steps, step);
      forall id | id in s'.orders
        ensures exists i :: PlacedAs(all, i, id, s'.orders[id])
      {
        var i :| PlacedAs(steps, i, id, s.orders[id]);
        PlacesStays(steps, step, i, id, s.orders[id], s'.orders[id]);
      }
    }
  }

  lemma {:induction false} RunLedger(cfg: Config, steps: seq<Step>)
    requires Legal(cfg, EMPTY, steps)
    ensures Ledger(steps, Run(cfg, EMPTY, steps))
  {
    hide Ledger, Apply, Enabled;
    if steps == [] {
      assert Ledger([], EMPTY) by { NothingPlaced(); }
    } else {
      var front, step := steps[..|steps| - 1], steps[|steps| - 1];
      RunLedger(cfg, front);
      StepLedger(cfg, front, Run(cfg, EMPTY, front), step);
      assert front + [step] == steps;
    }
  }

  lemma NothingPlaced()
    ensures Ledger([], EMPTY)
  {
  }

  ghost predicate RowsPlaced(steps: seq<Step>, s: State) {
    forall id :: id in s.rows ==> exists i :: RowPlaced(steps, i, id, s.rows[id])
  }

  predicate SamePlace(row: Row, row': Row) {
    row'.createdAt == row.createdAt && row'.aggregateType == row.aggregateType && row'.eventType == row.eventType
  }

  /** A step leaves the rows it does not place where they were. */
  lemma OldRowsKeepPlace(cfg: Config, s: State, step: Step, id: nat)
    requires Enabled(cfg, s, step) && id in Apply(cfg, s, step).rows
    requires !(Accepts(step) && id == s.nextRow)
    ensures id in s.rows && SamePlace(s.rows[id], Apply(cfg, s, step).rows[id])
  {
    hide OldestPending, AckedRecords, LostRecords, FiredRecords, Take500;
  }

  lemma NewRowHasPlace(cfg: Config, steps: seq<Step>, s: State, step: Step)
    requires Accepts(step) && s.nextRow == Accepted(steps) + 1
    ensures
      var rows' := Apply(cfg, s, step).rows;
      s.nextRow in rows' && RowPlaced(steps + [step], |steps|, s.nextRow, rows'[s.nextRow])
  {
    AcceptedNext(steps, step);
    assert (steps + [step])[|steps|] == step;
  }

  lemma StepRowsPlaced(cfg: Config, steps: seq<Step>, s: State, step: Step)
    requires Ledger(steps, s) && RowsPlaced(steps, s) && Enabled(cfg, s, step)
    ensures RowsPlaced(steps + [step], Apply(cfg, s, step))
  {
    hide RowPlaced, Apply, Enabled, Accepts;
    var s' := Apply(cfg, s, step);
    forall id | id in s'.rows
      ensures exists i :: RowPlaced(steps + [step], i, id, s'.rows[id])
    {
      if Accepts(step) && id == s.nextRow {
        NewRowHasPlace(cfg, steps, s, step);
      } else {
        OldRowsKeepPlace(cfg, s, step, id);
        var i :| RowPlaced(steps, i, id, s.rows[id]);
        RowStays(steps, step, i, id, s.rows[id], s'.rows[id]);
      }
    }
  }

  /** In every run each row still carries the moment of its own request. */
  lemma {:induction false} RowsAreRequests(cfg: Config, steps: seq<Step>)
    requires Legal(cfg, EMPTY, steps)
    ensures RowsPlaced(steps, Run(cfg, EMPTY, steps))
  {
    hide Ledger, RowsPlaced, Apply, Enabled;
    if steps == [] {
      assert RowsPlaced([], EMPTY) by { NoRows(); }
    } else {
      var front, step := steps[..|steps| - 1], steps[|steps| - 1];
      RunLedger(cfg, front);
      RowsAreRequests(cfg, front);
      StepRowsPlaced(cfg, front, Run(cfg, EMPTY, front), step);
      assert front + [step] == steps;
    }
  }

  lemma NoRows()
    ensures RowsPlaced([], EMPTY)
  {
  }

  /** In every run the orders are exactly the accepted requests, in order, with what these asked for. */
  lemma OrdersAreRequests(cfg: Config, steps: seq<Step>, id: nat)
    requires Legal(cfg, EMPTY, steps)
    ensures var orders := Run(cfg, EMPTY, steps).orders;
      && (id in orders <==> 1 <= id <= Accepted(steps))
      && (id in orders ==> exists i :: PlacedAs(steps, i, id, orders[id]))
  {
    RunLedger(cfg, steps);
  }

  /** Every record sent or appended announces such a request, as it was when the order was placed. */
  lemma RecordsAreRequests(cfg: Config, steps: seq<Step>, r: Record)
    requires Legal(cfg, EMPTY, steps)
    requires r in Run(cfg, EMPTY, steps).log || r in Run(cfg, EMPTY, steps).inflight
    ensures r.topic == "order-created" && r.value.orderId == r.key && r.value.order.status == CREATED
    ensures exists i :: PlacedAs(steps, i, r.key, r.value.order)
  {
    hide Ledger, Bijection, Accounted, RowOk, CleanedOk;
    var s := Run(cfg, EMPTY, steps);
    EmptyIsSafe(cfg);
    NoLostNoGhostEvents(cfg, EMPTY, steps);
    assert Genuine(s.orders, r);
    OrdersAreRequests(cfg, steps, r.key);
    var i :| PlacedAs(steps, i, r.key, s.orders[r.key]);
    assert PlacedAs(steps, i, r.key, r.value.order);
  }

  // ---- rows ----

  /** The step is a committed drain in which the row's send was acknowledged at that moment. */
  predicate Acks(step: Step, id: nat, at: int) {
    step.Drain? && id in step.batch && id in step.sends && step.sends[id] == Acked(at)
  }

  predicate Errs(step: Step, id: nat) {
    step.Drain? && id in step.batch && id in step.sends && step.sends[id].Errored?
  }

  /** The moment at which the row's event was first acknowledged. */
  function AckMoment(steps: seq<Step>, id: nat): Option<int> {
    if steps == [] then None
    else
      var before, step := AckMoment(steps[..|steps| - 1], id), steps[|steps| - 1];
      if before.None? && step.Drain? && id in step.batch && id in step.sends && step.sends[id].Acked?
      then Some(step.sends[id].at)
      else before
  }

  function Errors(steps: seq<Step>, id: nat): nat {
    if steps == [] then 0
    else Errors(steps[..|steps| - 1], id) + if Errs(steps[|steps| - 1], id) then 1 else 0
  }

  /** What the row's last failed send reported. */
  function LastMessage(steps: seq<Step>, id: nat): Option<string> {
    if steps == [] then None
    else
      var step := steps[|steps| - 1];
      if Errs(step, id) then step.sends[id].message else LastMessage(steps[..|steps| - 1], id)
  }

  /** Some cleanup after the acknowledgement had a later cutoff. */
  function Gone(steps: seq<Step>, id: nat): bool {
    if steps == [] then false
    else
      var front, step := steps[..|steps| - 1], steps[|steps| - 1];
      var moment := AckMoment(front, id);
      Gone(front, id) || (step.Cleanup? && moment.Some? && moment.value < step.cutoff)
  }

  /** The message, or its first 500 characters. */
  predicate Cut(full: Option<string>, kept: Option<string>) {
    && (kept.Some? <==> full.Some?)
    && (full.Some? ==> kept.value <= full.value && |kept.value| == if |full.value| < 500 then |full.value| else 500)
  }

  /** What the sends so far have made of a row. */
  ghost predicate RowTold(cfg: Config, s: State, id: nat, moment: Option<int>, errors: nat, message: Option<string>,
                          gone: bool) {
    && id in s.staged
    && (gone ==> moment.Some?)
    && (id in s.cleaned <==> gone)
    && (id in s.rows <==> !gone)
    && (id in s.rows ==>
          && s.rows[id].attempts == errors
          && s.rows[id].sentAt == moment
          && Cut(message, s.rows[id].lastError)
          && (s.rows[id].status == SENT <==> moment.Some?)
          && (s.rows[id].status == FAILED <==> moment.None? && errors >= cfg.maxAttempts && errors >= 1))
  }

  lemma CutsTo500(message: Option<string>)
    ensures Cut(message, Take500(message))
  {
  }

  lemma DrainTold(cfg: Config, s: State, batch: seq<nat>, sends: map<nat, Send>, id: nat,
                  moment: Option<int>, errors: nat, message: Option<string>, gone: bool)
    requires RowTold(cfg, s, id, moment, errors, message, gone)
    requires Enabled(cfg, s, Drain(batch, sends)) && (id in batch ==> IsPending(s.rows, id))
    ensures
      var step := Drain(batch, sends);
      var served := id in batch && id in sends;
      RowTold(cfg, Apply(cfg, s, step), id,
              if moment.None? && served && sends[id].Acked? then Some(sends[id].at) else moment,
              errors + if Errs(step, id) then 1 else 0,
              if Errs(step, id) then sends[id].message else message, gone)
  {
    hide OldestPending, AckedRecords, LostRecords, Cut, Take500;
    if id in batch && id in sends && sends[id].Errored? {
      CutsTo500(sends[id].message);
    }
  }

  lemma CleanupTold(cfg: Config, s: State, cutoff: int, id: nat,
                    moment: Option<int>, errors: nat, message: Option<string>, gone: bool)
    requires RowTold(cfg, s, id, moment, errors, message, gone)
    ensures RowTold(cfg, Apply(cfg, s, Cleanup(cutoff)), id, moment, errors, message,
                    gone || (moment.Some? && moment.value < cutoff))
  {
    hide Cut;
  }

  lemma OtherTold(cfg: Config, s: State, step: Step, id: nat,
                  moment: Option<int>, errors: nat, message: Option<string>, gone: bool)
    requires RowTold(cfg, s, id, moment, errors, message, gone) && Enabled(cfg, s, step)
    requires !step.Drain? && !step.Cleanup? && s.nextRow !in s.staged && s.nextRow !in s.cleaned
    ensures RowTold(cfg, Apply(cfg, s, step), id, moment, errors, message, gone)
  {
    hide Cut, OldestPending, FiredRecords, CheckRequest;
  }

  lemma NewTold(cfg: Config, s: State, step: Step, id: nat)
    requires Enabled(cfg, s, step) && id !in s.staged && id !in s.cleaned && id in Apply(cfg, s, step).staged
    ensures RowTold(cfg, Apply(cfg, s, step), id, None, 0, None, false) && step.Create?
  {
  }

  /** Rows not yet placed are in no batch. */
  lemma {:induction false} NotServed(cfg: Config, steps: seq<Step>, id: nat)
    requires Legal(cfg, EMPTY, steps) && id !in Run(cfg, EMPTY, steps).staged
    ensures AckMoment(steps, id) == None && Errors(steps, id) == 0 && LastMessage(steps, id) == None && !Gone(steps, id)
  {
    hide Safe;
    if steps == [] {
    } else {
      var front, step := steps[..|steps| - 1], steps[|steps| - 1];
      var mid := Run(cfg, EMPTY, front);
      StagedStays(cfg, mid, step, id);
      NotServed(cfg, front, id);
      EmptyIsSafe(cfg);
      NoLostNoGhostEvents(cfg, EMPTY, front);
      if step.Drain? {
        ServedIsStaged(cfg, mid, step.batch, step.sends, id);
      }
    }
  }

  lemma StagedStays(cfg: Config, s: State, step: Step, id: nat)
    requires Enabled(cfg, s, step)
    ensures id in s.staged ==> id in Apply(cfg, s, step).staged
  {
  }

  lemma ServedIsStaged(cfg: Config, s: State, batch: seq<nat>, sends: map<nat, Send>, id: nat)
    requires Safe(cfg, s) && Enabled(cfg, s, Drain(batch, sends))
    ensures id in batch ==> IsPending(s.rows, id) && id in s.staged
  {
    hide Bijection, Genuine, CleanedOk, RowOk;
    assert forall r :: r in s.rows ==> r in s.staged.Keys;
  }

  ghost predicate Told(cfg: Config, steps: seq<Step>, s: State, id: nat) {
    RowTold(cfg, s, id, AckMoment(steps, id), Errors(steps, id), LastMessage(steps, id), Gone(steps, id))
  }

  lemma StepTold(cfg: Config, steps: seq<Step>, s: State, step: Step, id: nat)
    requires Safe(cfg, s) && Enabled(cfg, s, step) && Told(cfg, steps, s, id)
    ensures Told(cfg, steps + [step], Apply(cfg, s, step), id)
  {
    hide RowTold, Apply, Safe;
    var all := steps + [step];
    assert all[..|all| - 1] == steps && all[|all| - 1] == step;
    var moment, errors := AckMoment(steps, id), Errors(steps, id);
    var message, gone := LastMessage(steps, id), Gone(steps, id);
    match step {
      case Drain(batch, sends) =>
        ServedIsStaged(cfg, s, batch, sends, id);
        DrainTold(cfg, s, batch, sends, id, moment, errors, message, gone);
      case Cleanup(cutoff) => CleanupTold(cfg, s, cutoff, id, moment, errors, message, gone);
      case _ =>
        NextRowIsFree(cfg, s);
        OtherTold(cfg, s, step, id, moment, errors, message, gone);
    }
  }

  lemma NextRowIsFree(cfg: Config, s: State)
    requires Safe(cfg, s)
    ensures s.nextRow !in s.staged && s.nextRow !in s.cleaned
    ensures forall id :: id in s.cleaned ==> id in s.staged
  {
    hide Bijection, Genuine, RowOk;
    assert forall id :: id in s.cleaned ==> id in s.staged.Keys;
  }

  /**
   * In every run each row ever staged is what its sends have made of it: its attempts are the failed
   * sends, its error the last one's message, it is SENT with the moment of its acknowledgement if it
   * has one, FAILED if the failed sends have used up the budget, and deleted if a later cleanup's
   * cutoff passed that moment.
   */
  lemma {:induction false} RowsAreTold(cfg: Config, steps: seq<Step>, id: nat)
    requires Legal(cfg, EMPTY, steps) && id in Run(cfg, EMPTY, steps).staged
    ensures Told(cfg, steps, Run(cfg, EMPTY, steps), id)
  {
    hide Told, Safe, Apply, Enabled;
    if steps == [] {
    } else {
      var front, step := steps[..|steps| - 1], steps[|steps| - 1];
      var mid := Run(cfg, EMPTY, front);
      assert front + [step] == steps;
      EmptyIsSafe(cfg);
      NoLostNoGhostEvents(cfg, EMPTY, front);
      if id in mid.staged {
        RowsAreTold(cfg, front, id);
        StepTold(cfg, front, mid, step, id);
      } else {
        NotServed(cfg, front, id);
        NextRowIsFree(cfg, mid);
        FirstTold(cfg, front, mid, step, id);
      }
    }
  }

  lemma FirstTold(cfg: Config, steps: seq<Step>, s: State, step: Step, id: nat)
    requires Enabled(cfg, s, step) && id !in s.staged && id !in s.cleaned && id in Apply(cfg, s, step).staged
    requires AckMoment(steps, id) == None && Errors(steps, id) == 0
    requires LastMessage(steps, id) == None && !Gone(steps, id)
    ensures Told(cfg, steps + [step], Apply(cfg, s, step), id)
  {
    hide RowTold;
    var all := steps + [step];
    assert all[..|all| - 1] == steps && all[|all| - 1] == step;
    NewTold(cfg, s, step, id);
  }

  // ---- the same without auxiliary functions ----

  /** An acknowledgement is the only one of its row. */
  lemma {:induction false} AckedOnce(cfg: Config, steps: seq<Step>, i: nat, id: nat, at: int)
    requires Legal(cfg, EMPTY, steps) && i < |steps| && Acks(steps[i], id, at)
    ensures AckMoment(steps, id) == Some(at)
    decreases |steps|
  {
    hide Safe, RowTold, Apply;
    var front, step := steps[..|steps| - 1], steps[|steps| - 1];
    if i == |steps| - 1 {
      var mid := Run(cfg, EMPTY, front);
      EmptyIsSafe(cfg);
      NoLostNoGhostEvents(cfg, EMPTY, front);
      ServedIsStaged(cfg, mid, step.batch, step.sends, id);
      RowsAreTold(cfg, front, id);
      PendingIsUnacked(cfg, mid, id, AckMoment(front, id), Errors(front, id), LastMessage(front, id), Gone(front, id));
    } else {
      AckedOnce(cfg, front, i, id, at);
    }
  }

  lemma PendingIsUnacked(cfg: Config, s: State, id: nat, moment: Option<int>, errors: nat, message: Option<string>,
                         gone: bool)
    requires RowTold(cfg, s, id, moment, errors, message, gone) && IsPending(s.rows, id)
    ensures moment == None
  {
  }

  lemma {:induction false} AckIsAStep(steps: seq<Step>, id: nat) returns (i: nat)
    requires AckMoment(steps, id).Some?
    ensures i < |steps| && Acks(steps[i], id, AckMoment(steps, id).value)
  {
    var front := steps[..|steps| - 1];
    if AckMoment(front, id).Some? {
      i := AckIsAStep(front, id);
    } else {
      i := |steps| - 1;
    }
  }

  lemma {:induction false} GoneIsTwoSteps(steps: seq<Step>, id: nat) returns (i: nat, j: nat, at: int)
    requires Gone(steps, id)
    ensures i < j < |steps| && Acks(steps[i], id, at) && steps[j].Cleanup? && steps[j].cutoff > at
  {
    var front := steps[..|steps| - 1];
    if Gone(front, id) {
      i, j, at := GoneIsTwoSteps(front, id);
    } else {
      i := AckIsAStep(front, id);
      j, at := |steps| - 1, AckMoment(front, id).value;
    }
  }

  lemma {:induction false} TwoStepsAreGone(cfg: Config, steps: seq<Step>, i: nat, j: nat, id: nat, at: int)
    requires Legal(cfg, EMPTY, steps) && i < j < |steps| && Acks(steps[i], id, at)
    requires steps[j].Cleanup? && steps[j].cutoff > at
    ensures Gone(steps, id)
    decreases |steps|
  {
    var front := steps[..|steps| - 1];
    if j == |steps| - 1 {
      AckedOnce(cfg, front, i, id, at);
    } else {
      TwoStepsAreGone(cfg, front, i, j, id, at);
    }
  }

  /** A SENT row carries the moment at which a committed drain of the run had its send acknowledged. */
  lemma SentWhenAcknowledged(cfg: Config, steps: seq<Step>, id: nat)
    requires Legal(cfg, EMPTY, steps)
    requires var rows := Run(cfg, EMPTY, steps).rows; id in rows && rows[id].status == SENT
    ensures
      var row := Run(cfg, EMPTY, steps).rows[id];
      row.sentAt.Some? && exists i :: 0 <= i < |steps| && Acks(steps[i], id, row.sentAt.value)
  {
    hide Safe, Run;
    EmptyIsSafe(cfg);
    NoLostNoGhostEvents(cfg, EMPTY, steps);
    RowIsStaged(cfg, Run(cfg, EMPTY, steps), id);
    RowsAreTold(cfg, steps, id);
    var i := AckIsAStep(steps, id);
  }

  lemma RowIsStaged(cfg: Config, s: State, id: nat)
    requires Safe(cfg, s) && (id in s.rows || id in s.cleaned)
    ensures id in s.staged
  {
    hide Bijection, Genuine, RowOk, CleanedOk;
    assert id in s.staged.Keys;
  }

  /** A row is deleted if and only if a cleanup after its acknowledgement has a cutoff past that very moment. */
  lemma CleanedExactly(cfg: Config, steps: seq<Step>, id: nat)
    requires Legal(cfg, EMPTY, steps)
    ensures id in Run(cfg, EMPTY, steps).cleaned <==>
      exists i, j, at :: 0 <= i < j < |steps| && Acks(steps[i], id, at) && steps[j].Cleanup? && steps[j].cutoff > at
  {
    hide Safe, Run;
    var s := Run(cfg, EMPTY, steps);
    EmptyIsSafe(cfg);
    NoLostNoGhostEvents(cfg, EMPTY, steps);
    if id in s.cleaned {
      RowIsStaged(cfg, s, id);
      RowsAreTold(cfg, steps, id);
      var i, j, at := GoneIsTwoSteps(steps, id);
    } else if i, j, at :| 0 <= i < j < |steps| && Acks(steps[i], id, at)
                          && steps[j].Cleanup? && steps[j].cutoff > at {
      TwoStepsAreGone(cfg, steps, i, j, id, at);
      AckedOnce(cfg, steps, i, id, at);
      if id !in s.staged {
        NotServed(cfg, steps, id);
      }
      RowsAreTold(cfg, steps, id);
    }
  }
}
