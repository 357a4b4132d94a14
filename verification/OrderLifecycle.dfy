/**
 * The life of an order under any sequence of status requests, accepted or refused: exactly which
 * histories there are.
 */
module OrderLifecycle {
  import opened Prelude
  import opened Orders

  /** The orders after requests for one of them; a refused request changes nothing. */
  function After(orders: Statuses, id: int, requests: seq<OrderStatus>): Statuses {
    if requests == [] then orders
    else
      var before := After(orders, id, requests[..|requests| - 1]);
      match UpdateStatus(before, id, requests[|requests| - 1])
      case Ok(updated) => updated
      case Err(_) => before
  }

  /** The statuses that the order has had, one for each accepted request. */
  function History(orders: Statuses, id: int, requests: seq<OrderStatus>): seq<OrderStatus>
    requires id in orders
  {
    if requests == [] then [orders[id]]
    else
      var front, next := requests[..|requests| - 1], requests[|requests| - 1];
      match UpdateStatus(After(orders, id, front), id, next)
      case Ok(updated) => History(orders, id, front) + if id in updated then [updated[id]] else []
      case Err(_) => History(orders, id, front)
  }

  /** All there can be, of an order from its creation on. */
  const HISTORIES: set<seq<OrderStatus>> := {
    [CREATED],
    [CREATED, CANCELLED],
    [CREATED, PAYMENT_PENDING],
    [CREATED, PAYMENT_PENDING, CANCELLED],
    [CREATED, PAYMENT_PENDING, PAID],
    [CREATED, PAYMENT_PENDING, PAID, CANCELLED],
    [CREATED, PAYMENT_PENDING, PAID, SHIPPED],
    [CREATED, PAYMENT_PENDING, PAID, SHIPPED, DELIVERED],
    [CREATED, PAID],
    [CREATED, PAID, CANCELLED],
    [CREATED, PAID, SHIPPED],
    [CREATED, PAID, SHIPPED, DELIVERED]
  }

  lemma {:induction false} HistoryEndsNow(orders: Statuses, id: int, requests: seq<OrderStatus>)
    requires id in orders
    ensures var h, now := History(orders, id, requests), After(orders, id, requests);
      h != [] && id in now && h[|h| - 1] == now[id]
    ensures After(orders, id, requests) == orders[id := After(orders, id, requests)[id]]
  {
    if requests == [] {
    } else {
      HistoryEndsNow(orders, id, requests[..|requests| - 1]);
    }
  }

  /** An accepted request continues one history with another. */
  lemma Continues(h: seq<OrderStatus>, orders: Statuses, id: int, next: OrderStatus)
    requires h in HISTORIES && id in orders && orders[id] == h[|h| - 1]
    ensures match UpdateStatus(orders, id, next)
            case Ok(updated) => updated == orders[id := next] && h + [next] in HISTORIES
            case Err(_) => h + [next] !in HISTORIES
  {
    var longer := h + [next];
    assert longer[..|h|] == h && longer[|h|] == next;
    LastTwo(h, next);
  }

  /** In the histories, what follows what. */
  lemma LastTwo(h: seq<OrderStatus>, next: OrderStatus)
    requires h in HISTORIES
    ensures h + [next] in HISTORIES <==>
      match h[|h| - 1]
      case CREATED => next == PAYMENT_PENDING || next == PAID || next == CANCELLED
      case PAYMENT_PENDING => next == PAID || next == CANCELLED
      case PAID => next == SHIPPED || next == CANCELLED
      case SHIPPED => next == DELIVERED
      case DELIVERED => false
      case CANCELLED => false
  {
    var longer := h + [next];
    if |h| == 1 {
      assert longer == [h[0], next];
    } else if |h| == 2 {
      assert longer == [h[0], h[1], next];
    } else if |h| == 3 {
      assert longer == [h[0], h[1], h[2], next];
    } else if |h| == 4 {
      assert longer == [h[0], h[1], h[2], h[3], next];
    } else {
      assert |longer| == 6;
    }
  }

  lemma {:induction false} HistoryIsOne(orders: Statuses, id: int, requests: seq<OrderStatus>)
    requires id in orders && orders[id] == CREATED
    ensures History(orders, id, requests) in HISTORIES
  {
    if requests == [] {
    } else {
      var front, next := requests[..|requests| - 1], requests[|requests| - 1];
      HistoryIsOne(orders, id, front);
      HistoryEndsNow(orders, id, front);
      Continues(History(orders, id, front), After(orders, id, front), id, next);
    }
  }

  lemma FrontIsHistory(h: seq<OrderStatus>)
    requires h in HISTORIES && |h| > 1
    ensures h[..|h| - 1] in HISTORIES && h == h[..|h| - 1] + [h[|h| - 1]]
  {
    assert h == h[..|h| - 1] + [h[|h| - 1]];
    var front := h[..|h| - 1];
    if |h| == 2 {
      assert front == [CREATED];
    } else if |h| == 3 {
      assert front == [CREATED, h[1]];
    } else if |h| == 4 {
      assert front == [CREATED, h[1], h[2]];
    } else {
      assert front == [CREATED, PAYMENT_PENDING, PAID, SHIPPED];
    }
  }

  /** Asked for one after the other, the statuses of a history are all accepted. */
  lemma {:induction false} EachHappens(orders: Statuses, id: int, h: seq<OrderStatus>)
    requires id in orders && orders[id] == CREATED && h in HISTORIES
    ensures History(orders, id, h[1..]) == h
    decreases |h|
  {
    if |h| == 1 {
      assert h == [CREATED] && h[1..] == [];
    } else {
      var front, next := h[..|h| - 1], h[|h| - 1];
      FrontIsHistory(h);
      EachHappens(orders, id, front);
      HistoryEndsNow(orders, id, front[1..]);
      assert h[1..][..|h| - 2] == front[1..] && h[1..][|h| - 2] == next;
      Continues(front, After(orders, id, front[1..]), id, next);
    }
  }

  /**
   * The histories of an order, over all sequences of requests, are exactly these twelve: a delivered
   * order was shipped right before and a shipped one paid right before, nothing follows delivery or
   * cancellation, only delivery follows shipping, and each of these moves can be made.
   */
  lemma LifecycleExactly(orders: Statuses, id: int, h: seq<OrderStatus>)
    requires id in orders && orders[id] == CREATED
    ensures (exists requests :: History(orders, id, requests) == h) <==> h in HISTORIES
  {
    hide History;
    if h in HISTORIES {
      EachHappens(orders, id, h);
    }
    if requests :| History(orders, id, requests) == h {
      HistoryIsOne(orders, id, requests);
    }
  }

  /** A refusal says whether the order is missing, or which move is not allowed; nothing else is refused. */
  lemma RefusalsAreTold(orders: Statuses, id: int, next: OrderStatus)
    ensures
      match UpdateStatus(orders, id, next)
      case Ok(updated) => id in orders && updated == orders[id := next] && next in Future(orders[id]) - {orders[id]}
      case Err(OrderNotFound) => id !in orders
      case Err(IllegalTransition(from, to)) => id in orders && from == orders[id] && to == next
  {
  }

  /** What can still become of an order. */
  function Future(status: OrderStatus): set<OrderStatus> {
    match status
    case CREATED => {CREATED, PAYMENT_PENDING, PAID, SHIPPED, DELIVERED, CANCELLED}
    case PAYMENT_PENDING => {PAYMENT_PENDING, PAID, SHIPPED, DELIVERED, CANCELLED}
    case PAID => {PAID, SHIPPED, DELIVERED, CANCELLED}
    case SHIPPED => {SHIPPED, DELIVERED}
    case DELIVERED => {DELIVERED}
    case CANCELLED => {CANCELLED}
  }

  lemma {:induction false} StaysInFuture(orders: Statuses, id: int, requests: seq<OrderStatus>)
    requires id in orders
    ensures id in After(orders, id, requests) && After(orders, id, requests)[id] in Future(orders[id])
  {
    if requests == [] {
    } else {
      StaysInFuture(orders, id, requests[..|requests| - 1]);
    }
  }

  /** Requests that lead to a status, from wherever it can be reached. */
  function Route(target: OrderStatus): seq<OrderStatus> {
    match target
    case CREATED => []
    case SHIPPED => [PAID, SHIPPED]
    case DELIVERED => [PAID, SHIPPED, DELIVERED]
    case _ => [target]
  }

  lemma AfterNext(orders: Statuses, id: int, requests: seq<OrderStatus>, next: OrderStatus)
    ensures After(orders, id, requests + [next]) ==
      match UpdateStatus(After(orders, id, requests), id, next)
      case Ok(updated) => updated
      case Err(_) => After(orders, id, requests)
  {
    assert (requests + [next])[..|requests|] == requests;
  }

  predicate Arrives(orders: Statuses, id: int, requests: seq<OrderStatus>, target: OrderStatus) {
    var now := After(orders, id, requests);
    id in now && now[id] == target
  }

  lemma RouteArrives(orders: Statuses, id: int, target: OrderStatus)
    requires id in orders && target in Future(orders[id])
    ensures Arrives(orders, id, Route(target), target)
  {
    hide After;
    AfterNothing(orders, id);
    AfterNext(orders, id, [], target);
    AfterNext(orders, id, [], PAID);
    assert [] + [PAID] == [PAID] && [] + [target] == [target];
    if target == SHIPPED || target == DELIVERED {
      var paid := After(orders, id, [PAID]);
      assert id in paid && paid[id] == if orders[id] == SHIPPED || orders[id] == DELIVERED then orders[id] else PAID;
      AfterNext(orders, id, [PAID], SHIPPED);
      assert [PAID] + [SHIPPED] == [PAID, SHIPPED];
      var shipped := After(orders, id, [PAID, SHIPPED]);
      assert id in shipped && shipped[id] == if orders[id] == DELIVERED then DELIVERED else SHIPPED;
      AfterNext(orders, id, [PAID, SHIPPED], DELIVERED);
      assert [PAID, SHIPPED] + [DELIVERED] == [PAID, SHIPPED, DELIVERED];
    }
    match target {
      case CREATED => assert Arrives(orders, id, [], target);
      case PAYMENT_PENDING => assert Arrives(orders, id, [target], target);
      case PAID => assert Arrives(orders, id, [target], target);
      case SHIPPED => assert Arrives(orders, id, [PAID, SHIPPED], target);
      case DELIVERED => assert Arrives(orders, id, [PAID, SHIPPED, DELIVERED], target);
      case CANCELLED => assert Arrives(orders, id, [target], target);
    }
  }

  lemma AfterNothing(orders: Statuses, id: int)
    ensures After(orders, id, []) == orders
  {
  }

  /** From each status exactly these can be reached by some requests. */
  lemma FutureExactly(orders: Statuses, id: int, target: OrderStatus)
    requires id in orders
    ensures (exists requests :: Arrives(orders, id, requests, target)) <==> target in Future(orders[id])
  {
    hide After, Future;
    if target in Future(orders[id]) {
      RouteArrives(orders, id, target);
    }
    forall requests
      ensures id in After(orders, id, requests) && After(orders, id, requests)[id] in Future(orders[id])
    {
      StaysInFuture(orders, id, requests);
    }
  }
}
