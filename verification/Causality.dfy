/**
 * Orders, payments and the two topics between them: publications may be dropped, deliveries may be
 * reordered and repeated for ever.
 */
module Causality {
  import opened Orders
  import Payments

  /** `charges` are committed payment rows, `published` the messages that reached a topic. */
  datatype State = State(orders: Statuses, charges: seq<Payments.Payment>, published: set<Message>)

  const EMPTY := State(map[], [], {})

  datatype Step =
    | CreateOrder(id: int)
    | Pay(body: Payments.Body, delivered: bool)
    | Deliver(message: Message)
    | Patch(id: int, next: OrderStatus)

  predicate Enabled(s: State, step: Step) {
    match step
    case CreateOrder(id) => id > 0 && id !in s.orders
    case Pay(body, _) => body.orderId > 0 && body.amount > 0.0
    case Deliver(message) => message in s.published
    case Patch(_, _) => true
  }

  function Apply(s: State, step: Step): State {
    match step
    case CreateOrder(id) => s.(orders := s.orders[id := CREATED])
    case Pay(body, delivered) =>
      var payment := Payments.Payment(|s.charges| + 1, body, Payments.SimulateProcessing(body.amount));
      s.(charges := s.charges + [payment],
         published := if delivered then s.published + {Payments.OutcomeOf(payment)} else s.published)
    case Deliver(message) => s.(orders := Consume(s.orders, message))
    case Patch(id, next) =>
      match UpdateStatus(s.orders, id, next)
      case Ok(updated) => s.(orders := updated)
      case Err(_) => s
  }

  predicate Legal(s: State, steps: seq<Step>) {
    steps == [] || (Legal(s, steps[..|steps| - 1]) && Enabled(Run(s, steps[..|steps| - 1]), steps[|steps| - 1]))
  }

  function Run(s: State, steps: seq<Step>): State {
    if steps == [] then s else Apply(Run(s, steps[..|steps| - 1]), steps[|steps| - 1])
  }

  /** A payment of that outcome was committed for the order. */
  ghost predicate Committed(charges: seq<Payments.Payment>, orderId: int, status: Payments.PaymentStatus) {
    exists p :: p in charges && p.body.orderId == orderId && p.status == status && Payments.Decided(p)
  }

  ghost predicate Caused(s: State) {
    && (forall id :: id in s.orders && s.orders[id] in {PAID, SHIPPED, DELIVERED} ==>
          Committed(s.charges, id, Payments.CONFIRMED))
    && (forall id :: id in s.orders && s.orders[id] == CANCELLED ==> Committed(s.charges, id, Payments.FAILED))
    && (forall m :: m in s.published ==>
          && m.Payment?
          && Committed(s.charges, m.orderId, if m.kind == Confirmed then Payments.CONFIRMED else Payments.FAILED))
  }

  /** The manual status endpoint is not used to declare an order paid or cancelled. */
  predicate HandsOff(step: Step) {
    step.Patch? ==> step.next != PAID && step.next != CANCELLED
  }

  lemma StepCaused(s: State, step: Step)
    requires Caused(s) && Enabled(s, step) && HandsOff(step)
    ensures Caused(Apply(s, step))
  {
    var s' := Apply(s, step);
    match step {
      case Pay(body, delivered) =>
        assert forall p :: p in s.charges ==> p in s'.charges;
        var payment := Payments.Payment(|s.charges| + 1, body, Payments.SimulateProcessing(body.amount));
        assert payment in s'.charges && Payments.Decided(payment);
      case Deliver(message) => assert message in s.published;
      case _ =>
    }
  }

  /**
   * A PAID, SHIPPED or DELIVERED order has a committed confirmed payment and a CANCELLED one a
   * committed failed payment, whatever is dropped, reordered or redelivered.
   */
  lemma {:induction false} StatusHasItsPayment(s: State, steps: seq<Step>)
    requires Caused(s) && Legal(s, steps) && forall i :: 0 <= i < |steps| ==> HandsOff(steps[i])
    ensures Caused(Run(s, steps))
  {
    if steps == [] {
    } else {
      var front := steps[..|steps| - 1];
      StatusHasItsPayment(s, front);
      StepCaused(Run(s, front), steps[|steps| - 1]);
    }
  }

  /**
   * A PATCH keeps the rule if and only if it is refused, asks for neither PAID nor CANCELLED, or the
   * matching payment is committed.
   */
  lemma PatchKeepsCauseExactly(s: State, id: int, next: OrderStatus)
    requires Caused(s)
    ensures Caused(Apply(s, Patch(id, next))) <==>
      || UpdateStatus(s.orders, id, next).Err?
      || (next != PAID && next != CANCELLED)
      || Committed(s.charges, id, if next == PAID then Payments.CONFIRMED else Payments.FAILED)
  {
    var s' := Apply(s, Patch(id, next));
    if UpdateStatus(s.orders, id, next).Ok? {
      assert id in s'.orders && s'.orders[id] == next;
    }
  }

  /** Each of the two excluded uses of the endpoint breaks the rule, on any fresh order. */
  lemma PatchWithoutPayment(s: State, id: int, next: OrderStatus)
    requires Caused(s) && id in s.orders && s.orders[id] == CREATED && (next == PAID || next == CANCELLED)
    requires forall p :: p in s.charges ==> p.body.orderId != id
    ensures !Caused(Apply(s, Patch(id, next)))
  {
    var s' := Apply(s, Patch(id, next));
    assert id in s'.orders && s'.orders[id] == next;
    assert forall status :: !Committed(s'.charges, id, status);
  }

  lemma NothingYet()
    ensures Caused(EMPTY)
  {
  }

  /** A committed payment for the order, of such an amount. */
  ghost predicate PaidFor(charges: seq<Payments.Payment>, orderId: int, failed: bool) {
    exists p :: p in charges && p.body.orderId == orderId && p.body.amount > 0.0
                && (if failed then p.body.amount >= 100000.0 else p.body.amount < 100000.0)
  }

  /**
   * In every run from the beginning, whose PATCH is not used for it, a PAID, SHIPPED or DELIVERED
   * order has a committed payment below 100000, and a CANCELLED one a payment of at least 100000.
   */
  lemma AlwaysCaused(steps: seq<Step>)
    requires Legal(EMPTY, steps) && forall i :: 0 <= i < |steps| ==> HandsOff(steps[i])
    ensures
      var s := Run(EMPTY, steps);
      forall id :: id in s.orders ==>
        && (s.orders[id] in {PAID, SHIPPED, DELIVERED} ==> PaidFor(s.charges, id, false))
        && (s.orders[id] == CANCELLED ==> PaidFor(s.charges, id, true))
  {
    var s := Run(EMPTY, steps);
    NothingYet();
    StatusHasItsPayment(EMPTY, steps);
    forall id, status | Committed(s.charges, id, status)
      ensures PaidFor(s.charges, id, status == Payments.FAILED)
    {
      var p :| p in s.charges && p.body.orderId == id && p.status == status && Payments.Decided(p);
    }
  }
}
