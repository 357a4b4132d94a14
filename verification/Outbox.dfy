/**
 * Orders and their transactional outbox, as a step system over the two tables, the Kafka log and
 * the sends whose outcome nobody waited for. Each transactional method is one step.
 */
module Outbox {
  import opened Prelude
  import opened Orders

  datatype OutboxStatus = PENDING | SENT | FAILED

  datatype Order = Order(buyerId: int, productId: int, quantity: int, unitPrice: real, totalAmount: real,
                         status: OrderStatus)

  /** The response body that an event carries. */
  datatype Snapshot = Snapshot(orderId: nat, order: Order)

  datatype Row = Row(aggregateType: string, aggregateId: nat, eventType: string, topic: string, payload: Snapshot,
                     status: OutboxStatus, attempts: nat, lastError: Option<string>,
                     createdAt: int, sentAt: Option<int>)

  datatype Record = Record(topic: string, key: nat, value: Snapshot)

  /** Batch size (at least 1, or the page request is refused) and attempt budget of the worker. */
  datatype Config = Config(batchSize: nat, maxAttempts: int)
  {
    /** A failing row always gets its first attempt, whatever the configured budget. */
    function Budget(): nat {
      if maxAttempts < 1 then 1 else maxAttempts
    }
  }

  /**
   * `staged` (row to order, of every row ever inserted) and `cleaned` (rows deleted by the cleanup)
   * are history: no step reads them.
   */
  datatype State = State(orders: map<nat, Order>, nextOrder: nat, rows: map<nat, Row>, nextRow: nat,
                         log: seq<Record>, inflight: seq<Record>,
                         staged: map<nat, nat>, cleaned: set<nat>)

  const EMPTY := State(map[], 1, map[], 1, [], [], map[], {})

  const ORDER_CREATED := "order-created"

  // ---- placing an order ----

  datatype CreateOrderRequest = CreateOrderRequest(buyerId: Option<int>, productId: Option<int>, quantity: Option<int>)

  datatype ProductSnapshot = ProductSnapshot(price: real, stock: int)

  datatype CreateError = BuyerRequired | ProductRequired | QuantityRequired | ProductLookupFailed
                       | InsufficientStock(requested: int, available: int)

  predicate Positive(n: Option<int>) {
    n.Some? && n.value > 0
  }

  function CheckRequest(req: CreateOrderRequest, lookup: Option<ProductSnapshot>): (r: Option<CreateError>)
    ensures r.None? <==>
      && Positive(req.buyerId) && Positive(req.productId) && Positive(req.quantity)
      && lookup.Some? && lookup.value.stock >= req.quantity.value
    ensures r == Some(BuyerRequired) <==> !Positive(req.buyerId)
    ensures r == Some(ProductRequired) <==> Positive(req.buyerId) && !Positive(req.productId)
    ensures r == Some(QuantityRequired) <==>
      Positive(req.buyerId) && Positive(req.productId) && !Positive(req.quantity)
    ensures r == Some(ProductLookupFailed) ==> lookup.None?
    ensures r.Some? && r.value.InsufficientStock? ==>
      && lookup.Some? && req.quantity == Some(r.value.requested)
      && r.value.available == lookup.value.stock < r.value.requested
  {
    if !Positive(req.buyerId) then Some(BuyerRequired)
    else if !Positive(req.productId) then Some(ProductRequired)
    else if !Positive(req.quantity) then Some(QuantityRequired)
    else if lookup.None? then Some(ProductLookupFailed)
    else if lookup.value.stock < req.quantity.value then
      Some(InsufficientStock(req.quantity.value, lookup.value.stock))
    else None
  }

  function NewOrder(req: CreateOrderRequest, product: ProductSnapshot): Order
    requires req.buyerId.Some? && req.productId.Some? && req.quantity.Some?
  {
    Order(req.buyerId.value, req.productId.value, req.quantity.value, product.price,
          product.price * req.quantity.value as real, CREATED)
  }

  function StagedRow(aggregateId: nat, payload: Snapshot, now: int): Row {
    Row("order", aggregateId, ORDER_CREATED, ORDER_CREATED, payload, PENDING, 0, None, now, None)
  }

  /** Order row and outbox row, committed together or not at all. */
  function Place(s: State, req: CreateOrderRequest, lookup: Option<ProductSnapshot>, now: int): State {
    if CheckRequest(req, lookup).Some? then s
    else
      var o := NewOrder(req, lookup.value);
      s.(orders := s.orders[s.nextOrder := o], nextOrder := s.nextOrder + 1,
         rows := s.rows[s.nextRow := StagedRow(s.nextOrder, Snapshot(s.nextOrder, o), now)], nextRow := s.nextRow + 1,
         staged := s.staged[s.nextRow := s.nextOrder])
  }

  // ---- draining ----

  predicate IsPending(rows: map<nat, Row>, id: nat) {
    id in rows && rows[id].status == PENDING
  }

  predicate Distinct(ids: seq<nat>) {
    forall i, j :: 0 <= i < j < |ids| ==> ids[i] != ids[j]
  }

  /** What the locking query promises: the first `limit` pending rows by creation time, ties in any order. */
  predicate OldestPending(rows: map<nat, Row>, batch: seq<nat>, limit: nat) {
    && |batch| <= limit
    && Distinct(batch)
    && (forall id :: id in batch ==> IsPending(rows, id))
    && (forall i, j :: 0 <= i < j < |batch| ==>
          batch[i] in rows && batch[j] in rows && rows[batch[i]].createdAt <= rows[batch[j]].createdAt)
    && (forall id :: id in rows && IsPending(rows, id) && id !in batch ==>
          |batch| == limit && forall b :: b in batch ==> b in rows && rows[b].createdAt <= rows[id].createdAt)
  }

  /** The oldest of some rows. */
  lemma {:induction false} Oldest(rows: map<nat, Row>, ids: set<nat>) returns (oldest: nat)
    requires ids != {} && ids <= rows.Keys
    ensures oldest in ids && forall id :: id in ids ==> rows[oldest].createdAt <= rows[id].createdAt
  {
    oldest :| oldest in ids;
    if ids == {oldest} {
    } else {
      var next := Oldest(rows, ids - {oldest});
      if rows[next].createdAt < rows[oldest].createdAt {
        oldest := next;
      }
    }
  }

  lemma Extends(rows: map<nat, Row>, batch: seq<nat>, next: nat)
    requires OldestPending(rows, batch, |batch|) && IsPending(rows, next) && next !in batch
    requires forall id :: IsPending(rows, id) && id !in batch ==> rows[next].createdAt <= rows[id].createdAt
    ensures OldestPending(rows, batch + [next], |batch| + 1)
  {
    assert forall i :: 0 <= i < |batch| ==> batch[i] in batch && (batch + [next])[i] == batch[i];
  }

  lemma NoneLeft(rows: map<nat, Row>, batch: seq<nat>, limit: nat, more: nat)
    requires OldestPending(rows, batch, limit) && limit <= more
    requires forall id :: IsPending(rows, id) ==> id in batch
    ensures OldestPending(rows, batch, more)
  {
    assert forall i :: 0 <= i < |batch| ==> batch[i] in batch && IsPending(rows, batch[i]);
  }

  lemma AllTaken(rows: map<nat, Row>, batch: seq<nat>, limit: nat, rest: set<nat>)
    requires OldestPending(rows, batch, limit) && rest != {}
    requires forall id :: id in rest ==> IsPending(rows, id) && id !in batch
    ensures |batch| == limit
  {
    var id :| id in rest;
    assert IsPending(rows, id);
  }

  /** The query always has an answer. */
  lemma {:induction false} LockPending(rows: map<nat, Row>, limit: nat) returns (batch: seq<nat>)
    ensures OldestPending(rows, batch, limit)
  {
    if limit == 0 {
      batch := [];
    } else {
      hide OldestPending;
      batch := LockPending(rows, limit - 1);
      var rest := set id | id in rows && IsPending(rows, id) && id !in batch;
      assert forall id :: IsPending(rows, id) && id !in batch ==> id in rest;
      if rest != {} {
        AllTaken(rows, batch, limit - 1, rest);
        var next := Oldest(rows, rest);
        Extends(rows, batch, next);
        batch := batch + [next];
      } else {
        NoneLeft(rows, batch, limit - 1, limit);
      }
    }
  }

  /** The future of one send: acknowledged at a moment, or failed or timed out with a message. */
  datatype Send = Acked(at: int) | Errored(message: Option<string>)

  function Take500(message: Option<string>): (r: Option<string>)
    ensures r.Some? <==> message.Some?
    ensures r.Some? ==> r.value <= message.value && |r.value| <= 500 && (|message.value| <= 500 ==> r == message)
  {
    if message.Some? && |message.value| > 500 then Some(message.value[..500]) else message
  }

  function Settle(cfg: Config, row: Row, send: Send): Row {
    match send
    case Acked(at) => row.(status := SENT, sentAt := Some(at))
    case Errored(message) =>
      var attempts := row.attempts + 1;
      row.(attempts := attempts, lastError := Take500(message),
           status := if attempts >= cfg.maxAttempts then FAILED else row.status)
  }

  function RecordOf(row: Row): Record {
    Record(row.topic, row.aggregateId, row.payload)
  }

  predicate Covers(rows: map<nat, Row>, batch: seq<nat>, sends: map<nat, Send>) {
    forall id :: id in batch ==> id in rows && id in sends
  }

  function SettleAll(cfg: Config, rows: map<nat, Row>, batch: seq<nat>, sends: map<nat, Send>): map<nat, Row>
    requires Covers(rows, batch, sends)
  {
    map id | id in rows :: if id in batch then Settle(cfg, rows[id], sends[id]) else rows[id]
  }

  /** Records of the acknowledged sends among the first `n`, in send order. */
  function AckedRecords(rows: map<nat, Row>, batch: seq<nat>, sends: map<nat, Send>, n: nat): seq<Record>
    requires Covers(rows, batch, sends) && n <= |batch|
  {
    if n == 0 then []
    else
      var rest, id := AckedRecords(rows, batch, sends, n - 1), batch[n - 1];
      if sends[id].Acked? then rest + [RecordOf(rows[id])] else rest
  }

  /** Records of the sends not acknowledged in time; the broker may still append them. */
  function LostRecords(rows: map<nat, Row>, batch: seq<nat>, sends: map<nat, Send>, n: nat): seq<Record>
    requires Covers(rows, batch, sends) && n <= |batch|
  {
    if n == 0 then []
    else
      var rest, id := LostRecords(rows, batch, sends, n - 1), batch[n - 1];
      if sends[id].Acked? then rest else rest + [RecordOf(rows[id])]
  }

  function FiredRecords(rows: map<nat, Row>, batch: seq<nat>, n: nat): seq<Record>
    requires n <= |batch| && forall id :: id in batch ==> id in rows
  {
    if n == 0 then [] else FiredRecords(rows, batch, n - 1) + [RecordOf(rows[batch[n - 1]])]
  }

  // ---- cleanup ----

  predicate Expired(row: Row, cutoff: int) {
    row.status == SENT && row.sentAt.Some? && row.sentAt.value < cutoff
  }

  // ---- status ----

  function StatusesOf(orders: map<nat, Order>): Statuses {
    map id: nat | id in orders :: orders[id].status
  }

  // ---- steps ----

  datatype Step =
    | Create(req: CreateOrderRequest, lookup: Option<ProductSnapshot>, now: int)
    | Drain(batch: seq<nat>, sends: map<nat, Send>)
    | Abort(batch: seq<nat>, fired: nat)  // a send throws, or the worker dies before its commit
    | Arrive(i: nat)                      // the broker appends a send nobody waited for
    | Cleanup(cutoff: int)
    | SetStatus(id: nat, next: OrderStatus)

  predicate Enabled(cfg: Config, s: State, step: Step) {
    match step
    case Create(_, _, _) => true
    case Drain(batch, sends) => OldestPending(s.rows, batch, cfg.batchSize) && Covers(s.rows, batch, sends)
    case Abort(batch, fired) => OldestPending(s.rows, batch, cfg.batchSize) && fired <= |batch|
    case Arrive(i) => i < |s.inflight|
    case Cleanup(_) => true
    case SetStatus(id, next) => id in s.orders && s.orders[id].status.CanTransitionTo(next)
  }

  function Apply(cfg: Config, s: State, step: Step): State
    requires Enabled(cfg, s, step)
  {
    match step
    case Create(req, lookup, now) => Place(s, req, lookup, now)
    case Drain(batch, sends) =>
      s.(rows := SettleAll(cfg, s.rows, batch, sends),
         log := s.log + AckedRecords(s.rows, batch, sends, |batch|),
         inflight := s.inflight + LostRecords(s.rows, batch, sends, |batch|))
    case Abort(batch, fired) => s.(inflight := s.inflight + FiredRecords(s.rows, batch, fired))
    case Arrive(i) => s.(log := s.log + [s.inflight[i]], inflight := s.inflight[..i] + s.inflight[i + 1..])
    case Cleanup(cutoff) =>
      s.(rows := map id | id in s.rows && !Expired(s.rows[id], cutoff) :: s.rows[id],
         cleaned := s.cleaned + set id | id in s.rows && Expired(s.rows[id], cutoff))
    case SetStatus(id, next) => s.(orders := s.orders[id := s.orders[id].(status := next)])
  }

  /** A status step is the guarded update of the order lifecycle, and is possible when that is accepted. */
  lemma SetStatusIsUpdate(cfg: Config, s: State, id: nat, next: OrderStatus)
    ensures Enabled(cfg, s, SetStatus(id, next)) <==> UpdateStatus(StatusesOf(s.orders), id, next).Ok?
    ensures Enabled(cfg, s, SetStatus(id, next)) ==>
      UpdateStatus(StatusesOf(s.orders), id, next) == Ok(StatusesOf(Apply(cfg, s, SetStatus(id, next)).orders))
  {
    if Enabled(cfg, s, SetStatus(id, next)) {
      var updated := StatusesOf(Apply(cfg, s, SetStatus(id, next)).orders);
      assert updated == StatusesOf(s.orders)[id := next];
    }
  }

  predicate Legal(cfg: Config, s: State, steps: seq<Step>)
    decreases |steps|, 0
  {
    steps == [] || (Legal(cfg, s, steps[..|steps| - 1])
                    && Enabled(cfg, Run(cfg, s, steps[..|steps| - 1]), steps[|steps| - 1]))
  }

  function Run(cfg: Config, s: State, steps: seq<Step>): State
    requires Legal(cfg, s, steps)
    decreases |steps|, 1
  {
    if steps == [] then s else Apply(cfg, Run(cfg, s, steps[..|steps| - 1]), steps[|steps| - 1])
  }

  // ---- no lost and no ghost events ----

  /** The event an order calls for: its id and its state at creation. */
  function EventOf(orders: map<nat, Order>, id: nat): Record
    requires id in orders
  {
    Record(ORDER_CREATED, id, Snapshot(id, orders[id].(status := CREATED)))
  }

  predicate Genuine(orders: map<nat, Order>, r: Record) {
    r.key in orders && r == EventOf(orders, r.key)
  }

  /** `staged` pairs the rows ever inserted with the orders, one to one. */
  ghost predicate Bijection(staged: map<nat, nat>, orders: set<nat>) {
    && (forall r :: r in staged ==> staged[r] in orders)
    && (forall r, r' :: r in staged && r' in staged && staged[r] == staged[r'] ==> r == r')
    && (forall id :: id in orders ==> exists r :: r in staged && staged[r] == id)
  }

  ghost predicate Accounted(s: State) {
    && (forall r :: r in s.staged ==> r < s.nextRow)
    && (forall id :: id in s.orders ==> id < s.nextOrder)
    && s.rows.Keys + s.cleaned == s.staged.Keys
    && s.rows.Keys !! s.cleaned
  }

  ghost predicate RowOk(cfg: Config, s: State, id: nat) {
    && id in s.rows && id in s.staged && s.staged[id] in s.orders
    && var row := s.rows[id];
    && row.aggregateId == s.staged[id]
    && RecordOf(row) == EventOf(s.orders, s.staged[id])
    && row.attempts <= cfg.Budget()
    && (row.status == FAILED <==> row.attempts == cfg.Budget())
    && (row.status == SENT ==> row.sentAt.Some? && RecordOf(row) in s.log)
  }

  ghost predicate CleanedOk(s: State, id: nat) {
    id in s.staged && s.staged[id] in s.orders && EventOf(s.orders, s.staged[id]) in s.log
  }

  ghost predicate Safe(cfg: Config, s: State) {
    && Bijection(s.staged, s.orders.Keys)
    && Accounted(s)
    && (forall id :: id in s.rows ==> RowOk(cfg, s, id))
    && (forall id :: id in s.cleaned ==> CleanedOk(s, id))
    && (forall r :: r in s.log ==> Genuine(s.orders, r))
    && (forall r :: r in s.inflight ==> Genuine(s.orders, r))
  }

  lemma BijectionExtends(staged: map<nat, nat>, orders: set<nat>, r: nat, id: nat)
    requires Bijection(staged, orders) && r !in staged && id !in orders
    ensures Bijection(staged[r := id], orders + {id})
  {
    var staged' := staged[r := id];
    forall o | o in orders + {id}
      ensures exists q :: q in staged' && staged'[q] == o
    {
      if o == id {
        assert staged'[r] == o;
      } else {
        var q :| q in staged && staged[q] == o;
        assert q in staged' && staged'[q] == o;
      }
    }
  }

  lemma PlaceAccounted(cfg: Config, s: State, req: CreateOrderRequest, lookup: Option<ProductSnapshot>, now: int)
    requires Safe(cfg, s) && CheckRequest(req, lookup).None?
    ensures
      var s' := Place(s, req, lookup, now);
      && Accounted(s') && Bijection(s'.staged, s'.orders.Keys) && EventsKept(s, s')
  {
    hide Bijection, RowOk, CleanedOk, Genuine;
    var s' := Place(s, req, lookup, now);
    BijectionExtends(s.staged, s.orders.Keys, s.nextRow, s.nextOrder);
    assert s'.orders.Keys == s.orders.Keys + {s.nextOrder};
    assert s'.rows.Keys == s.rows.Keys + {s.nextRow};
    assert s'.staged.Keys == s.staged.Keys + {s.nextRow};
  }

  lemma PlaceSafe(cfg: Config, s: State, req: CreateOrderRequest, lookup: Option<ProductSnapshot>, now: int)
    requires Safe(cfg, s)
    ensures Safe(cfg, Place(s, req, lookup, now))
  {
    hide Bijection, Accounted;
    var s' := Place(s, req, lookup, now);
    if CheckRequest(req, lookup).None? {
      PlaceAccounted(cfg, s, req, lookup, now);
      KeptRecords(cfg, s, s');
      forall id | id in s'.rows
        ensures RowOk(cfg, s', id)
      {
        if id != s.nextRow {
          KeptRow(cfg, s, s', id);
        }
      }
    }
  }

  /** Orders may be added and change status: the events they call for do not change. */
  ghost predicate EventsKept(s: State, s': State) {
    && (forall id :: id in s.orders ==> id in s'.orders && EventOf(s'.orders, id) == EventOf(s.orders, id))
    && (forall r :: r in s.staged ==> r in s'.staged && s'.staged[r] == s.staged[r])
    && s'.log == s.log && s'.inflight == s.inflight && s'.cleaned == s.cleaned
  }

  lemma KeptRow(cfg: Config, s: State, s': State, id: nat)
    requires EventsKept(s, s') && RowOk(cfg, s, id) && id in s'.rows && s'.rows[id] == s.rows[id]
    ensures RowOk(cfg, s', id)
  {
  }

  lemma KeptRecords(cfg: Config, s: State, s': State)
    requires Safe(cfg, s) && EventsKept(s, s')
    ensures forall id :: id in s'.cleaned ==> CleanedOk(s', id)
    ensures forall r :: r in s'.log ==> Genuine(s'.orders, r)
    ensures forall r :: r in s'.inflight ==> Genuine(s'.orders, r)
  {
    assert forall id :: id in s.cleaned ==> CleanedOk(s, id);
  }

  lemma {:induction false} AckedGenuine(rows: map<nat, Row>, batch: seq<nat>, sends: map<nat, Send>,
                                        orders: map<nat, Order>, n: nat)
    requires Covers(rows, batch, sends) && n <= |batch|
    requires forall id :: id in batch ==> Genuine(orders, RecordOf(rows[id]))
    ensures forall r :: r in AckedRecords(rows, batch, sends, n) ==> Genuine(orders, r)
    ensures forall r :: r in LostRecords(rows, batch, sends, n) ==> Genuine(orders, r)
    ensures forall i :: 0 <= i < n && sends[batch[i]].Acked? ==>
      RecordOf(rows[batch[i]]) in AckedRecords(rows, batch, sends, n)
  {
    if n == 0 {
    } else {
      AckedGenuine(rows, batch, sends, orders, n - 1);
    }
  }

  lemma {:induction false} FiredGenuine(rows: map<nat, Row>, batch: seq<nat>, orders: map<nat, Order>, n: nat)
    requires n <= |batch| && forall id :: id in batch ==> id in rows && Genuine(orders, RecordOf(rows[id]))
    ensures forall r :: r in FiredRecords(rows, batch, n) ==> Genuine(orders, r)
  {
    if n == 0 {
    } else {
      FiredGenuine(rows, batch, orders, n - 1);
    }
  }

  /** Steps that leave orders and history alone and only add genuine records. */
  ghost predicate OnlySends(cfg: Config, s: State, s': State) {
    && s'.orders == s.orders && s'.nextOrder == s.nextOrder && s'.nextRow == s.nextRow
    && s'.staged == s.staged && s'.cleaned == s.cleaned
    && s.log <= s'.log
    && (forall r :: r in s'.log || r in s'.inflight ==> Genuine(s.orders, r))
  }

  lemma SendsSafe(cfg: Config, s: State, s': State)
    requires Safe(cfg, s) && OnlySends(cfg, s, s')
    requires s'.rows.Keys == s.rows.Keys && forall id :: id in s.rows ==> RowOk(cfg, s', id)
    ensures Safe(cfg, s')
  {
    assert forall r :: r in s.log ==> r in s'.log;
    assert forall id :: id in s.cleaned ==> CleanedOk(s, id);
  }

  lemma SettleOk(cfg: Config, s: State, s': State, batch: seq<nat>, sends: map<nat, Send>, id: nat)
    requires RowOk(cfg, s, id) && Covers(s.rows, batch, sends)
    requires s'.rows == SettleAll(cfg, s.rows, batch, sends) && s'.orders == s.orders && s'.staged == s.staged
    requires s.log <= s'.log && (id in batch ==> IsPending(s.rows, id))
    requires id in batch && sends[id].Acked? ==> RecordOf(s.rows[id]) in s'.log
    ensures RowOk(cfg, s', id)
  {
  }

  lemma DrainSafe(cfg: Config, s: State, batch: seq<nat>, sends: map<nat, Send>)
    requires Safe(cfg, s) && Enabled(cfg, s, Drain(batch, sends))
    ensures Safe(cfg, Apply(cfg, s, Drain(batch, sends)))
  {
    hide Bijection, Accounted;
    var s' := Apply(cfg, s, Drain(batch, sends));
    assert forall id :: id in batch ==> RowOk(cfg, s, id);
    AckedGenuine(s.rows, batch, sends, s.orders, |batch|);
    forall id | id in s.rows
      ensures RowOk(cfg, s', id)
    {
      SettleOk(cfg, s, s', batch, sends, id);
    }
    SendsSafe(cfg, s, s');
  }

  lemma AbortSafe(cfg: Config, s: State, batch: seq<nat>, fired: nat)
    requires Safe(cfg, s) && Enabled(cfg, s, Abort(batch, fired))
    ensures Safe(cfg, Apply(cfg, s, Abort(batch, fired)))
  {
    var s' := Apply(cfg, s, Abort(batch, fired));
    assert forall id :: id in batch ==> RowOk(cfg, s, id);
    FiredGenuine(s.rows, batch, s.orders, fired);
    assert forall id :: id in s.rows ==> RowOk(cfg, s, id);
    SendsSafe(cfg, s, s');
  }

  lemma ArriveSafe(cfg: Config, s: State, i: nat)
    requires Safe(cfg, s) && Enabled(cfg, s, Arrive(i))
    ensures Safe(cfg, Apply(cfg, s, Arrive(i)))
  {
    assert s.inflight[i] in s.inflight;
    assert forall id :: id in s.rows ==> RowOk(cfg, s, id);
    SendsSafe(cfg, s, Apply(cfg, s, Arrive(i)));
  }

  lemma CleanupSafe(cfg: Config, s: State, cutoff: int)
    requires Safe(cfg, s)
    ensures Safe(cfg, Apply(cfg, s, Cleanup(cutoff)))
  {
    var s' := Apply(cfg, s, Cleanup(cutoff));
    assert Accounted(s') by {
      assert s'.rows.Keys + s'.cleaned == s.rows.Keys + s.cleaned;
    }
    forall id | id in s'.rows
      ensures RowOk(cfg, s', id)
    {
      assert RowOk(cfg, s, id);
    }
    forall id | id in s'.cleaned
      ensures CleanedOk(s', id)
    {
      assert if id in s.rows then RowOk(cfg, s, id) else CleanedOk(s, id);
    }
  }

  lemma SetStatusSafe(cfg: Config, s: State, id: nat, next: OrderStatus)
    requires Safe(cfg, s) && Enabled(cfg, s, SetStatus(id, next))
    ensures Safe(cfg, Apply(cfg, s, SetStatus(id, next)))
  {
    var s' := Apply(cfg, s, SetStatus(id, next));
    assert s'.orders.Keys == s.orders.Keys;
    assert EventsKept(s, s');
    KeptRecords(cfg, s, s');
    forall r | r in s.rows
      ensures RowOk(cfg, s', r)
    {
      KeptRow(cfg, s, s', r);
    }
  }

  lemma StepSafe(cfg: Config, s: State, step: Step)
    requires Safe(cfg, s) && Enabled(cfg, s, step)
    ensures Safe(cfg, Apply(cfg, s, step))
  {
    match step {
      case Create(req, lookup, now) => PlaceSafe(cfg, s, req, lookup, now);
      case Drain(batch, sends) => DrainSafe(cfg, s, batch, sends);
      case Abort(batch, fired) => AbortSafe(cfg, s, batch, fired);
      case Arrive(i) => ArriveSafe(cfg, s, i);
      case Cleanup(cutoff) => CleanupSafe(cfg, s, cutoff);
      case SetStatus(id, next) => SetStatusSafe(cfg, s, id, next);
    }
  }

  /** Over every run, with aborted drains, late broker appends and cleanups: no event is lost, none is invented. */
  lemma {:induction false} NoLostNoGhostEvents(cfg: Config, s: State, steps: seq<Step>)
    requires Safe(cfg, s) && Legal(cfg, s, steps)
    ensures Safe(cfg, Run(cfg, s, steps))
  {
    if steps == [] {
    } else {
      var front := steps[..|steps| - 1];
      NoLostNoGhostEvents(cfg, s, front);
      StepSafe(cfg, Run(cfg, s, front), steps[|steps| - 1]);
    }
  }

  lemma EmptyIsSafe(cfg: Config)
    ensures Safe(cfg, EMPTY)
  {
  }

  function WithStatus(rows: map<nat, Row>, status: OutboxStatus): set<nat> {
    set id | id in rows && rows[id].status == status
  }

  /** Every staged row is accounted for, exactly once. */
  lemma StagedIsConserved(cfg: Config, s: State)
    requires Safe(cfg, s)
    ensures |s.staged| == |WithStatus(s.rows, PENDING)| + |WithStatus(s.rows, SENT)| + |WithStatus(s.rows, FAILED)|
                          + |s.cleaned|
    ensures |s.staged| == |s.orders|
  {
    StatusPartition(s.rows);
    assert s.staged.Keys == s.rows.Keys + s.cleaned;
    assert |s.staged| == |s.staged.Keys| && |s.rows| == |s.rows.Keys| && |s.orders| == |s.orders.Keys|;
    InjectiveSize(s.staged, s.orders.Keys);
  }

  lemma StatusPartition(rows: map<nat, Row>)
    ensures |rows| == |WithStatus(rows, PENDING)| + |WithStatus(rows, SENT)| + |WithStatus(rows, FAILED)|
  {
    var p, t, f := WithStatus(rows, PENDING), WithStatus(rows, SENT), WithStatus(rows, FAILED);
    assert rows.Keys == p + t + f;
    assert |p + t + f| == |p| + |t| + |f|;
    assert |rows| == |rows.Keys|;
  }

  lemma {:induction false} InjectiveSize(m: map<nat, nat>, range: set<nat>)
    requires Bijection(m, range)
    ensures |m| == |range|
    decreases |m|
  {
    if m.Keys == {} {
      assert m == map[];
      assert range == {};
    } else {
      var r :| r in m;
      var m' := map k | k in m && k != r :: m[k];
      assert m'.Keys == m.Keys - {r};
      forall id | id in range - {m[r]}
        ensures exists k :: k in m' && m'[k] == id
      {
        var k :| k in m && m[k] == id;
        assert k in m' && m'[k] == id;
      }
      InjectiveSize(m', range - {m[r]});
    }
  }

  lemma NextRowGrows(cfg: Config, s: State, step: Step)
    requires Enabled(cfg, s, step)
    ensures s.nextRow <= Apply(cfg, s, step).nextRow
  {
  }

  /** Some cleanup of the run has a cutoff later than that moment. */
  predicate CleanedPast(steps: seq<Step>, sentAt: int) {
    exists i :: 0 <= i < |steps| && steps[i].Cleanup? && steps[i].cutoff > sentAt
  }

  lemma CleanedPastNext(steps: seq<Step>, step: Step, sentAt: int)
    ensures CleanedPast(steps + [step], sentAt) <==>
      CleanedPast(steps, sentAt) || (step.Cleanup? && step.cutoff > sentAt)
  {
    assert (steps + [step])[|steps|] == step;
    assert forall i :: 0 <= i < |steps| ==> (steps + [step])[i] == steps[i];
  }

  /**
   * A row leaves PENDING for good and never changes again. It is deleted if and only if it was
   * SENT and a cleanup's cutoff passed the moment it was sent; FAILED rows stay.
   */
  lemma {:induction false} SettledForGood(cfg: Config, s: State, steps: seq<Step>, id: nat)
    requires Legal(cfg, s, steps) && id in s.rows && s.rows[id].status != PENDING && id < s.nextRow
    ensures var s', row := Run(cfg, s, steps), s.rows[id];
      && id < s'.nextRow
      && (id in s'.rows ==> s'.rows[id] == row)
      && (id !in s'.rows <==> row.status == SENT && row.sentAt.Some? && CleanedPast(steps, row.sentAt.value))
  {
    if steps == [] {
    } else {
      var front, step, row := steps[..|steps| - 1], steps[|steps| - 1], s.rows[id];
      SettledForGood(cfg, s, front, id);
      assert steps == front + [step];
      if row.sentAt.Some? {
        CleanedPastNext(front, step, row.sentAt.value);
      }
      SettledRowStep(cfg, Run(cfg, s, front), step, id);
    }
  }

  lemma SettledRowStep(cfg: Config, s: State, step: Step, id: nat)
    requires Enabled(cfg, s, step) && !IsPending(s.rows, id) && id < s.nextRow
    ensures var s' := Apply(cfg, s, step);
      && id < s'.nextRow
      && (id in s'.rows <==> id in s.rows && !(step.Cleanup? && Expired(s.rows[id], step.cutoff)))
      && (id in s'.rows ==> s'.rows[id] == s.rows[id])
  {
    match step {
      case Drain(batch, sends) => assert id in batch ==> IsPending(s.rows, id);
      case _ =>
    }
  }
}
