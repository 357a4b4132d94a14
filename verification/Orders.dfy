/**
 * Order lifecycle: the status machine, the update that guards it, and the two payment listeners
 * that drive it. Status updates are atomic, one order row at a time.
 */
module Orders {
  import opened Prelude

  datatype OrderStatus = CREATED | PAYMENT_PENDING | PAID | SHIPPED | DELIVERED | CANCELLED
  {
    predicate CanTransitionTo(next: OrderStatus) {
      match this
      case CREATED => next in {PAYMENT_PENDING, PAID, CANCELLED}
      case PAYMENT_PENDING => next in {PAID, CANCELLED}
      case PAID => next in {SHIPPED, CANCELLED}
      case SHIPPED => next == DELIVERED
      case DELIVERED => false
      case CANCELLED => false
    }

    predicate Unshipped() {
      this in {CREATED, PAYMENT_PENDING, PAID, CANCELLED}
    }
  }

  datatype UpdateError = OrderNotFound | IllegalTransition(from: OrderStatus, next: OrderStatus)

  type Statuses = map<int, OrderStatus>

  /** The guarded read-modify-write of one order's status. */
  function UpdateStatus(orders: Statuses, id: int, next: OrderStatus): Result<Statuses, UpdateError> {
    if id !in orders then Err(OrderNotFound)
    else if !orders[id].CanTransitionTo(next) then Err(IllegalTransition(orders[id], next))
    else Ok(orders[id := next])
  }

  /** Topic of a payment event. */
  datatype Kind = Confirmed | Failed

  /** A message on one of the two payment topics: unreadable, or read as an order id (0 when absent). */
  datatype Message = Garbled(kind: Kind) | Payment(kind: Kind, orderId: int)

  function Target(kind: Kind): OrderStatus {
    match kind
    case Confirmed => PAID
    case Failed => CANCELLED
  }

  /** What a listener leaves behind; it swallows every error. */
  function Consume(orders: Statuses, m: Message): Statuses {
    if m.Garbled? || m.orderId <= 0 then orders
    else
      match UpdateStatus(orders, m.orderId, Target(m.kind))
      case Ok(updated) => updated
      case Err(_) => orders
  }

  function ConsumeAll(orders: Statuses, ms: seq<Message>): Statuses {
    if ms == [] then orders
    else Consume(ConsumeAll(orders, ms[..|ms| - 1]), ms[|ms| - 1])
  }

  /** Where an order ends up, from the kinds of payment event that reached it. */
  function Final(status: OrderStatus, confirmed: bool, failed: bool): OrderStatus {
    if !status.Unshipped() || status == CANCELLED then status
    else if failed then CANCELLED
    else if confirmed then PAID
    else status
  }

  /** Every order ends where the set of its event kinds says, in whatever order and however often they came. */
  lemma {:induction false} ConsumeAllIsFinal(orders: Statuses, ms: seq<Message>)
    ensures ConsumeAll(orders, ms).Keys == orders.Keys
    ensures forall id :: id in orders ==>
      ConsumeAll(orders, ms)[id] ==
        if id <= 0 then orders[id]
        else Final(orders[id], Payment(Confirmed, id) in ms, Payment(Failed, id) in ms)
  {
    if ms == [] {
    } else {
      var front, m := ms[..|ms| - 1], ms[|ms| - 1];
      ConsumeAllIsFinal(orders, front);
      assert ms == front + [m];
      var before := ConsumeAll(orders, front);
      forall id | id in orders
        ensures ConsumeAll(orders, ms)[id] ==
          if id <= 0 then orders[id]
          else Final(orders[id], Payment(Confirmed, id) in ms, Payment(Failed, id) in ms)
      {
        ConsumeOne(before, m, id);
      }
    }
  }

  lemma ConsumeOne(orders: Statuses, m: Message, id: int)
    requires id in orders
    ensures Consume(orders, m).Keys == orders.Keys
    ensures Consume(orders, m)[id] ==
      if id > 0 && m == Payment(m.kind, id) then Final(orders[id], m.kind == Confirmed, m.kind == Failed)
      else orders[id]
  {
  }

  /** Reordering across topics and redelivery do not matter: same messages, same orders. */
  lemma PaymentEventsConfluent(orders: Statuses, ms: seq<Message>, ms': seq<Message>)
    requires forall m :: m in ms <==> m in ms'
    ensures ConsumeAll(orders, ms) == ConsumeAll(orders, ms')
  {
    ConsumeAllIsFinal(orders, ms);
    ConsumeAllIsFinal(orders, ms');
    var after, after' := ConsumeAll(orders, ms), ConsumeAll(orders, ms');
    forall id | id in orders
      ensures after[id] == after'[id]
    {
      assert Payment(Confirmed, id) in ms <==> Payment(Confirmed, id) in ms';
      assert Payment(Failed, id) in ms <==> Payment(Failed, id) in ms';
    }
    assert after == after';
  }

  class PaymentEventConsumer {
    var orders: Statuses

    constructor (orders: Statuses)
      ensures this.orders == orders
    {
      this.orders := orders;
    }

    method UpdateOrder(id: int, next: OrderStatus) returns (r: Result<OrderStatus, UpdateError>)
      modifies this
      ensures match UpdateStatus(old(orders), id, next)
              case Ok(updated) => r == Ok(next) && orders == updated
              case Err(e) => r == Err(e) && orders == old(orders)
    {
      if id !in orders {
        return Err(OrderNotFound);
      }
      if !orders[id].CanTransitionTo(next) {
        return Err(IllegalTransition(orders[id], next));
      }
      orders := orders[id := next];
      return Ok(next);
    }

    method OnPaymentConfirmed(m: Message)
      requires m.kind == Confirmed
      modifies this
      ensures orders == Consume(old(orders), m)
    {
      if m.Garbled? || m.orderId <= 0 {
        return;
      }
      var _ := UpdateOrder(m.orderId, PAID);
    }

    method OnPaymentFailed(m: Message)
      requires m.kind == Failed
      modifies this
      ensures orders == Consume(old(orders), m)
    {
      if m.Payment? && m.orderId > 0 {
        var _ := UpdateOrder(m.orderId, CANCELLED);
      }
    }
  }
}
