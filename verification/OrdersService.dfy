/**
 * orders-service over its two tables and the Kafka producer, each transactional method tied to
 * one step of the Outbox system.
 */
module OrdersService {
  import opened Prelude
  import opened Orders
  import opened Outbox

  datatype OrderCreatedInternalEvent = OrderCreatedInternalEvent(orderId: nat, productId: int, quantity: int)

  lemma NothingToSettle(cfg: Config, rows: map<nat, Row>, sends: map<nat, Send>)
    ensures SettleAll(cfg, rows, [], sends) == rows
    ensures AckedRecords(rows, [], sends, 0) == [] && LostRecords(rows, [], sends, 0) == []
  {
  }

  ghost function SettledUpTo(cfg: Config, rows: map<nat, Row>, batch: seq<nat>, sends: map<nat, Send>,
                             n: nat): map<nat, Row>
    requires Covers(rows, batch, sends) && n <= |batch|
  {
    map id | id in rows :: if id in batch[..n] then Settle(cfg, rows[id], sends[id]) else rows[id]
  }

  lemma SettledNone(cfg: Config, rows: map<nat, Row>, batch: seq<nat>, sends: map<nat, Send>)
    requires Covers(rows, batch, sends)
    ensures SettledUpTo(cfg, rows, batch, sends, 0) == rows
    ensures AckedRecords(rows, batch, sends, 0) == [] && LostRecords(rows, batch, sends, 0) == []
  {
  }

  lemma SettledUpToEnd(cfg: Config, rows: map<nat, Row>, batch: seq<nat>, sends: map<nat, Send>)
    requires Covers(rows, batch, sends)
    ensures SettledUpTo(cfg, rows, batch, sends, |batch|) == SettleAll(cfg, rows, batch, sends)
  {
    assert batch[..|batch|] == batch;
  }

  lemma SettledUpToNext(cfg: Config, rows: map<nat, Row>, batch: seq<nat>, sends: map<nat, Send>, n: nat)
    requires Distinct(batch) && Covers(rows, batch, sends) && n < |batch|
    ensures batch[n] in SettledUpTo(cfg, rows, batch, sends, n)
    ensures SettledUpTo(cfg, rows, batch, sends, n)[batch[n]] == rows[batch[n]]
    ensures SettledUpTo(cfg, rows, batch, sends, n + 1) ==
      SettledUpTo(cfg, rows, batch, sends, n)[batch[n] := Settle(cfg, rows[batch[n]], sends[batch[n]])]
    ensures
      var record := RecordOf(rows[batch[n]]);
      var acked, lost := AckedRecords(rows, batch, sends, n), LostRecords(rows, batch, sends, n);
      if sends[batch[n]].Acked? then
        AckedRecords(rows, batch, sends, n + 1) == acked + [record] && LostRecords(rows, batch, sends, n + 1) == lost
      else
        AckedRecords(rows, batch, sends, n + 1) == acked && LostRecords(rows, batch, sends, n + 1) == lost + [record]
  {
    assert batch[..n + 1] == batch[..n] + [batch[n]];
  }

  class OrdersService {
    const cfg: Config
    var orders: map<nat, Order>
    var nextOrder: nat
    var rows: map<nat, Row>
    var nextRow: nat
    var log: seq<Record>
    var inflight: seq<Record>
    ghost var staged: map<nat, nat>
    ghost var cleaned: set<nat>

    ghost function View(): State
      reads this
    {
      State(orders, nextOrder, rows, nextRow, log, inflight, staged, cleaned)
    }

    constructor (cfg: Config)
      requires cfg.batchSize >= 1
      ensures this.cfg == cfg && View() == EMPTY && Safe(cfg, View())
    {
      this.cfg := cfg;
      orders, nextOrder, rows, nextRow := map[], 1, map[], 1;
      log, inflight, staged, cleaned := [], [], map[], {};
    }

    /** Inserts an outbox row; runs only inside the caller's transaction. */
    method Stage(aggregateId: nat, payload: Snapshot, now: int)
      modifies this`rows, this`nextRow, this`staged
      ensures rows == old(rows)[old(nextRow) := StagedRow(aggregateId, payload, now)]
      ensures nextRow == old(nextRow) + 1 && staged == old(staged)[old(nextRow) := aggregateId]
    {
      var row := Row("order", aggregateId, ORDER_CREATED, ORDER_CREATED, payload, PENDING, 0, None, now, None);
      rows := rows[nextRow := row];
      staged := staged[nextRow := aggregateId];
      nextRow := nextRow + 1;
    }

    /**
     * Refuses in the order of the checks, writing nothing; otherwise commits the order with its
     * event and hands the stock decrement to the after-commit listener.
     */
    method Create(req: CreateOrderRequest, lookup: Option<ProductSnapshot>, now: int)
      returns (r: Result<Snapshot, CreateError>, after: Option<OrderCreatedInternalEvent>)
      modifies this
      ensures View() == Apply(cfg, old(View()), Step.Create(req, lookup, now))
      ensures match CheckRequest(req, lookup)
              case Some(e) => r == Err(e) && after == None && View() == old(View())
              case None =>
                && old(nextOrder) in orders
                && r == Ok(Snapshot(old(nextOrder), orders[old(nextOrder)]))
                && after == Some(OrderCreatedInternalEvent(old(nextOrder), req.productId.value, req.quantity.value))
    {
      if !Positive(req.buyerId) {
        return Err(BuyerRequired), None;
      }
      if !Positive(req.productId) {
        return Err(ProductRequired), None;
      }
      if !Positive(req.quantity) {
        return Err(QuantityRequired), None;
      }
      if lookup.None? {
        return Err(ProductLookupFailed), None;
      }
      var product, quantity := lookup.value, req.quantity.value;
      if product.stock < quantity {
        return Err(InsufficientStock(quantity, product.stock)), None;
      }
      var order := Order(req.buyerId.value, req.productId.value, quantity, product.price,
                         product.price * quantity as real, CREATED);
      assert order == NewOrder(req, product);
      var id := nextOrder;
      orders := orders[id := order];
      nextOrder := id + 1;
      var resp := Snapshot(id, order);
      Stage(id, resp, now);
      return Ok(resp), Some(OrderCreatedInternalEvent(id, req.productId.value, quantity));
    }

    method UpdateStatus(id: nat, next: OrderStatus) returns (r: Result<Snapshot, UpdateError>)
      modifies this`orders
      ensures if Enabled(cfg, old(View()), SetStatus(id, next))
              then View() == Apply(cfg, old(View()), SetStatus(id, next)) && r == Ok(Snapshot(id, orders[id]))
              else View() == old(View()) && r.Err?
      ensures r == Err(OrderNotFound) <==> id !in old(orders)
      ensures id in old(orders) && r.Err? ==> r == Err(IllegalTransition(old(orders)[id].status, next))
    {
      if id !in orders {
        return Err(OrderNotFound);
      }
      var o := orders[id];
      if !o.status.CanTransitionTo(next) {
        return Err(IllegalTransition(o.status, next));
      }
      orders := orders[id := o.(status := next)];
      return Ok(Snapshot(id, orders[id]));
    }

    /** Hands the records of the batch to the producer, up to a send that throws at once. */
    method FireAll(batch: seq<nat>, throwsAt: Option<nat>) returns (pendingSends: seq<Record>)
      requires forall id :: id in batch ==> id in rows
      ensures |pendingSends| == if throwsAt.Some? && throwsAt.value < |batch| then throwsAt.value else |batch|
      ensures pendingSends == FiredRecords(rows, batch, |pendingSends|)
    {
      pendingSends := [];
      while |pendingSends| < |batch|
        invariant |pendingSends| <= |batch|
        invariant throwsAt.Some? && throwsAt.value < |batch| ==> |pendingSends| <= throwsAt.value
        invariant pendingSends == FiredRecords(rows, batch, |pendingSends|)
      {
        if throwsAt == Some(|pendingSends|) {
          return;
        }
        pendingSends := pendingSends + [RecordOf(rows[batch[|pendingSends|]])];
      }
    }

    /** Awaits one future and settles its row. */
    method Await(id: nat, send: Send) returns (acked: bool)
      requires id in rows
      modifies this`rows, this`log, this`inflight
      ensures rows == old(rows)[id := Settle(cfg, old(rows)[id], send)]
      ensures acked == send.Acked?
      ensures log == if acked then old(log) + [RecordOf(old(rows)[id])] else old(log)
      ensures inflight == if acked then old(inflight) else old(inflight) + [RecordOf(old(rows)[id])]
    {
      var row := rows[id];
      match send {
        case Acked(at) =>
          log := log + [RecordOf(row)];
          rows := rows[id := row.(status := SENT, sentAt := Some(at))];
          acked := true;
        case Errored(message) =>
          inflight := inflight + [RecordOf(row)];
          row := row.(attempts := row.attempts + 1, lastError := Take500(message));
          if row.attempts >= cfg.maxAttempts {
            row := row.(status := FAILED);
          }
          rows := rows[id := row];
          acked := false;
      }
    }

    /** Awaits the futures in order; each outcome settles its row. */
    method AwaitAll(batch: seq<nat>, sends: map<nat, Send>) returns (sent: nat, failed: nat)
      requires Distinct(batch) && Covers(rows, batch, sends)
      modifies this`rows, this`log, this`inflight
      ensures rows == SettleAll(cfg, old(rows), batch, sends)
      ensures log == old(log) + AckedRecords(old(rows), batch, sends, |batch|)
      ensures inflight == old(inflight) + LostRecords(old(rows), batch, sends, |batch|)
      ensures sent == |AckedRecords(old(rows), batch, sends, |batch|)| && sent + failed == |batch|
    {
      hide Settle, SettleAll, RecordOf, SettledUpTo, Distinct, AckedRecords, LostRecords;
      sent, failed := 0, 0;
      ghost var rows0 := rows;
      ghost var acked, lost := [], [];
      SettledNone(cfg, rows0, batch, sends);
      var i := 0;
      while i < |batch|
        invariant i <= |batch| && rows == SettledUpTo(cfg, rows0, batch, sends, i)
        invariant acked == AckedRecords(rows0, batch, sends, i) && log == old(log) + acked
        invariant lost == LostRecords(rows0, batch, sends, i) && inflight == old(inflight) + lost
        invariant sent == |acked| && sent + failed == i
      {
        ghost var record := RecordOf(rows0[batch[i]]);
        SettledUpToNext(cfg, rows0, batch, sends, i);
        var ok := Await(batch[i], sends[batch[i]]);
        if ok {
          acked := acked + [record];
          sent := sent + 1;
        } else {
          lost := lost + [record];
          failed := failed + 1;
        }
        i := i + 1;
      }
      SettledUpToEnd(cfg, rows0, batch, sends);
    }

    /**
     * Fires every send of the batch, then settles the rows as the futures complete. `throwsAt` is
     * the position of a send that throws at once: the transaction rolls back, but the records
     * already handed to the producer are out.
     */
    method Drain(batch: seq<nat>, sends: map<nat, Send>, throwsAt: Option<nat>) returns (sent: nat, failed: nat)
      requires OldestPending(rows, batch, cfg.batchSize) && Covers(rows, batch, sends)
      modifies this`rows, this`log, this`inflight
      ensures
        var aborts := throwsAt.Some? && throwsAt.value < |batch|;
        && View() == Apply(cfg, old(View()), if aborts then Abort(batch, throwsAt.value) else Step.Drain(batch, sends))
        && sent == (if aborts then 0 else |AckedRecords(old(rows), batch, sends, |batch|)|)
        && failed == (if aborts then 0 else |batch| - sent)
    {
      if batch == [] {
        NothingToSettle(cfg, rows, sends);
        return 0, 0;
      }
      var pendingSends := FireAll(batch, throwsAt);
      if |pendingSends| < |batch| {
        inflight := inflight + pendingSends;
        return 0, 0;
      }
      sent, failed := AwaitAll(batch, sends);
    }

    method Cleanup(cutoff: int) returns (deleted: nat)
      modifies this`rows, this`cleaned
      ensures View() == Apply(cfg, old(View()), Step.Cleanup(cutoff))
      ensures deleted == |set id | id in old(rows) && Expired(old(rows)[id], cutoff)|
    {
      var gone := set id | id in rows && Expired(rows[id], cutoff);
      rows := map id | id in rows && id !in gone :: rows[id];
      cleaned := cleaned + gone;
      deleted := |gone|;
      assert gone == set id | id in old(rows) && Expired(old(rows)[id], cutoff);
    }
  }
}
