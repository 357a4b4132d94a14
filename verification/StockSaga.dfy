/**
 * Stock reservation across orders-service and products-service: after an order commits, its stock
 * decrement is sent over HTTP, up to three times, without any key that would make it idempotent.
 */
module StockSaga {

  /** The retry configuration of the products client. */
  const MAX_ATTEMPTS := 3

  datatype SideEffect = Waiting(attempts: nat) | Over

  /**
   * A committed order: how often its decrement took effect, and how many of its requests the client
   * gave up waiting for that may still reach the service (both history).
   */
  datatype Line = Line(product: int, quantity: nat, applied: nat, inflight: nat, effect: SideEffect)

  /** `supplied` is history: the initial stock of a product plus every other delta applied to it. */
  datatype State = State(stock: map<int, int>, supplied: map<int, int>, lines: seq<Line>)

  const EMPTY := State(map[], map[], [])

  /** The conditional update of one row: no effect on a missing product or below zero. */
  function ApplyStockDelta(stock: map<int, int>, id: int, delta: int): map<int, int> {
    if id in stock && stock[id] + delta >= 0 then stock[id := stock[id] + delta] else stock
  }

  predicate Accepts(stock: map<int, int>, id: int, delta: int) {
    id in stock && stock[id] + delta >= 0
  }

  /** When a request reaches the service: before the client goes on, some time afterwards, or not at all. */
  datatype Reach = Now | Later | Never

  /**
   * One PATCH attempt: when it reaches the service, and whether the client saw an error that its
   * retry policy covers (a lost response, a timeout, a server error, no connection).
   */
  datatype Outcome = Outcome(reach: Reach, retryable: bool)

  datatype Step =
    | AddProduct(id: int, initial: nat)
    | RemoveProduct(id: int)
    | OtherDelta(id: int, delta: int)
    | Commit(product: int, quantity: nat)
    | Attempt(o: nat, outcome: Outcome)
    | Arrive(o: nat)  // a request that the client gave up waiting for takes effect
    | Crash(o: nat)   // the process dies: pending attempts are never made

  predicate Enabled(s: State, step: Step) {
    match step
    case AddProduct(id, _) => id !in s.supplied  // serial ids are not reused
    case RemoveProduct(_) => true
    case OtherDelta(_, delta) => delta != 0
    case Commit(_, quantity) => quantity > 0
    case Attempt(o, _) => o < |s.lines| && s.lines[o].effect.Waiting?
    case Arrive(o) => o < |s.lines| && s.lines[o].inflight > 0
    case Crash(o) => o < |s.lines|
  }

  function Attempted(line: Line, applied: bool, outcome: Outcome): Line
    requires line.effect.Waiting?
  {
    var made := line.effect.attempts + 1;
    line.(applied := line.applied + if applied then 1 else 0,
          inflight := line.inflight + if outcome.reach.Later? then 1 else 0,
          effect := if outcome.retryable && made < MAX_ATTEMPTS then Waiting(made) else Over)
  }

  function SuppliedTo(s: State, id: int): int {
    if id in s.supplied then s.supplied[id] else 0
  }

  function Apply(s: State, step: Step): State
    requires Enabled(s, step)
  {
    match step
    case AddProduct(id, initial) => s.(stock := s.stock[id := initial], supplied := s.supplied[id := initial])
    case RemoveProduct(id) => s.(stock := s.stock - {id})
    case OtherDelta(id, delta) =>
      if Accepts(s.stock, id, delta) then
        s.(stock := ApplyStockDelta(s.stock, id, delta), supplied := s.supplied[id := SuppliedTo(s, id) + delta])
      else s
    case Commit(product, quantity) => s.(lines := s.lines + [Line(product, quantity, 0, 0, Waiting(0))])
    case Attempt(o, outcome) =>
      var line := s.lines[o];
      var applies := outcome.reach.Now? && Accepts(s.stock, line.product, 0 - line.quantity);
      s.(stock := if outcome.reach.Now? then ApplyStockDelta(s.stock, line.product, 0 - line.quantity) else s.stock,
         lines := s.lines[o := Attempted(line, applies, outcome)])
    case Arrive(o) =>
      var line := s.lines[o];
      var applies := Accepts(s.stock, line.product, 0 - line.quantity);
      s.(stock := ApplyStockDelta(s.stock, line.product, 0 - line.quantity),
         lines := s.lines[o := line.(applied := line.applied + if applies then 1 else 0,
                                     inflight := line.inflight - 1)])
    case Crash(o) => s.(lines := s.lines[o := s.lines[o].(effect := Over)])
  }

  predicate Legal(s: State, steps: seq<Step>)
    decreases |steps|, 0
  {
    steps == [] || (Legal(s, steps[..|steps| - 1]) && Enabled(Run(s, steps[..|steps| - 1]), steps[|steps| - 1]))
  }

  function Run(s: State, steps: seq<Step>): State
    requires Legal(s, steps)
    decreases |steps|, 1
  {
    if steps == [] then s else Apply(Run(s, steps[..|steps| - 1]), steps[|steps| - 1])
  }

  /** Units of `product` taken by all decrements that took effect. */
  function Reserved(lines: seq<Line>, product: int): nat {
    if lines == [] then 0
    else
      var line := lines[|lines| - 1];
      Reserved(lines[..|lines| - 1], product) + if line.product == product then line.quantity * line.applied else 0
  }

  predicate LineOk(line: Line) {
    match line.effect
    case Waiting(attempts) => line.applied + line.inflight <= attempts < MAX_ATTEMPTS
    case Over => line.applied + line.inflight <= MAX_ATTEMPTS
  }

  ghost predicate Conserved(s: State) {
    && (forall p :: p in s.stock ==>
          p in s.supplied && s.stock[p] >= 0 && s.stock[p] + Reserved(s.lines, p) == s.supplied[p])
    && (forall p :: p in s.supplied ==> Reserved(s.lines, p) <= s.supplied[p])
    && (forall i :: 0 <= i < |s.lines| ==> LineOk(s.lines[i]))
    && (forall p :: p !in s.supplied ==> Reserved(s.lines, p) == 0)
  }

  lemma {:induction false} ReservedUpdate(lines: seq<Line>, o: nat, line: Line, p: int)
    requires o < |lines| && line.product == lines[o].product && line.quantity == lines[o].quantity
    requires line.applied == lines[o].applied || line.applied == lines[o].applied + 1
    ensures Reserved(lines[o := line], p) ==
      Reserved(lines, p) + if line.product == p && line.applied > lines[o].applied then line.quantity else 0
  {
    var last := |lines| - 1;
    if o == last {
      assert lines[o := line][..last] == lines[..last];
      if line.applied > lines[o].applied {
        OneMore(line.quantity, lines[o].applied);
      }
    } else {
      assert lines[o := line][..last] == lines[..last][o := line];
      ReservedUpdate(lines[..last], o, line, p);
    }
  }

  lemma OneMore(quantity: nat, applied: nat)
    ensures quantity * (applied + 1) == quantity * applied + quantity
  {
  }

  lemma AttemptConserves(s: State, o: nat, outcome: Outcome)
    requires Conserved(s) && Enabled(s, Attempt(o, outcome))
    ensures Conserved(Apply(s, Attempt(o, outcome)))
  {
    var s' := Apply(s, Attempt(o, outcome));
    var line, line' := s.lines[o], s'.lines[o];
    assert s'.lines == s.lines[o := line'];
    forall p
      ensures Reserved(s'.lines, p) ==
        Reserved(s.lines, p) + if line'.product == p && line'.applied > line.applied then line'.quantity else 0
    {
      ReservedUpdate(s.lines, o, line', p);
    }
  }

  lemma ArriveConserves(s: State, o: nat)
    requires Conserved(s) && Enabled(s, Arrive(o))
    ensures Conserved(Apply(s, Arrive(o)))
  {
    var s' := Apply(s, Arrive(o));
    var line, line' := s.lines[o], s'.lines[o];
    assert s'.lines == s.lines[o := line'];
    forall p
      ensures Reserved(s'.lines, p) ==
        Reserved(s.lines, p) + if line'.product == p && line'.applied > line.applied then line'.quantity else 0
    {
      ReservedUpdate(s.lines, o, line', p);
    }
  }

  lemma CommitConserves(s: State, product: int, quantity: nat)
    requires Conserved(s) && quantity > 0
    ensures Conserved(Apply(s, Commit(product, quantity)))
  {
    var line := Line(product, quantity, 0, 0, Waiting(0));
    assert (s.lines + [line])[..|s.lines|] == s.lines;
  }

  lemma CrashConserves(s: State, o: nat)
    requires Conserved(s) && o < |s.lines|
    ensures Conserved(Apply(s, Crash(o)))
  {
    forall p
      ensures Reserved(Apply(s, Crash(o)).lines, p) == Reserved(s.lines, p)
    {
      ReservedUpdate(s.lines, o, s.lines[o].(effect := Over), p);
    }
  }

  lemma StepConserves(s: State, step: Step)
    requires Conserved(s) && Enabled(s, step)
    ensures Conserved(Apply(s, step))
  {
    hide Reserved;
    match step {
      case Attempt(o, outcome) => AttemptConserves(s, o, outcome);
      case Commit(product, quantity) => CommitConserves(s, product, quantity);
      case Arrive(o) => ArriveConserves(s, o);
      case Crash(o) => CrashConserves(s, o);
      case _ =>
    }
  }

  /**
   * In every run: stock is never negative, stock plus reserved units equals what was supplied; no
   * more is ever reserved than was supplied, also of products that were removed since; no decrement
   * is applied more than three times.
   */
  lemma {:induction false} StockConserved(s: State, steps: seq<Step>)
    requires Conserved(s) && Legal(s, steps)
    ensures
      var s' := Run(s, steps);
      && Conserved(s')
      && (forall p :: p in s'.stock && p in s'.supplied ==>
            0 <= s'.stock[p] == s'.supplied[p] - Reserved(s'.lines, p))
      && (forall p :: Reserved(s'.lines, p) <= SuppliedTo(s', p))
      && (forall i :: 0 <= i < |s'.lines| ==> s'.lines[i].applied <= MAX_ATTEMPTS)
  {
    hide Apply, Enabled, Reserved;
    if steps == [] {
    } else {
      var front := steps[..|steps| - 1];
      StockConserved(s, front);
      StepConserves(Run(s, front), steps[|steps| - 1]);
    }
  }

  /** The attempts on one order, as far as its retry policy goes. */
  function RunAttempts(s: State, o: nat, outcomes: seq<Outcome>): (r: State)
    requires o < |s.lines|
    ensures |r.lines| == |s.lines|
    decreases |outcomes|
  {
    if outcomes == [] || !s.lines[o].effect.Waiting? then s
    else RunAttempts(Apply(s, Attempt(o, outcomes[0])), o, outcomes[1..])
  }

  /** The times a decrement can take effect: three, or as often as the stock allows. */
  function MostApplied(s: State, o: nat): nat
    requires o < |s.lines| && s.lines[o].quantity > 0
  {
    var line := s.lines[o];
    if line.product !in s.stock || s.stock[line.product] < line.quantity then 0
    else if s.stock[line.product] < 2 * line.quantity then 1
    else if s.stock[line.product] < 3 * line.quantity then 2
    else MAX_ATTEMPTS
  }

  predicate Stocked(s: State, o: nat)
    requires o < |s.lines|
  {
    s.lines[o].product in s.stock ==> s.stock[s.lines[o].product] >= 0
  }

  /** Only this order's decrement is under way: attempts, late arrivals, a crash. */
  predicate Only(o: nat, step: Step) {
    match step
    case Attempt(o', _) => o' == o
    case Arrive(o') => o' == o
    case Crash(o') => o' == o
    case _ => false
  }

  predicate AllOnly(o: nat, steps: seq<Step>) {
    forall i :: 0 <= i < |steps| ==> Only(o, steps[i])
  }

  /** Units taken in between are those of the decrements that took effect. */
  ghost predicate Took(s: State, s': State, o: nat) {
    && o < |s.lines| == |s'.lines| && s.lines[o].applied <= s'.lines[o].applied
    && s'.lines[o].product == s.lines[o].product && s'.lines[o].quantity == s.lines[o].quantity
    && LineOk(s'.lines[o])
    && s'.stock.Keys == s.stock.Keys
    && var p, taken := s.lines[o].product, s'.lines[o].applied - s.lines[o].applied;
    && (p in s.stock ==> 0 <= s'.stock[p] == s.stock[p] - s.lines[o].quantity * taken)
    && (p !in s.stock ==> taken == 0)
  }

  lemma TookStep(s: State, mid: State, o: nat, step: Step)
    requires Took(s, mid, o) && Enabled(mid, step) && Only(o, step)
    ensures Took(s, Apply(mid, step), o)
  {
    OneMore(s.lines[o].quantity, mid.lines[o].applied - s.lines[o].applied);
  }

  lemma {:induction false} TookRun(s: State, o: nat, steps: seq<Step>)
    requires o < |s.lines| && LineOk(s.lines[o]) && Stocked(s, o) && Legal(s, steps) && AllOnly(o, steps)
    ensures Took(s, Run(s, steps), o)
  {
    hide Apply, Enabled;
    if steps == [] {
    } else {
      TookRun(s, o, steps[..|steps| - 1]);
      TookStep(s, Run(s, steps[..|steps| - 1]), o, steps[|steps| - 1]);
    }
  }

  lemma TakesAtMost(s: State, s': State, o: nat)
    requires Took(s, s', o) && s.lines[o].quantity > 0 && s.lines[o].applied == 0
    ensures s'.lines[o].applied <= MostApplied(s, o)
  {
    var quantity, taken := s.lines[o].quantity, s'.lines[o].applied;
    assert taken >= 1 ==> quantity * 1 <= quantity * taken;
    assert taken >= 2 ==> quantity * 2 <= quantity * taken;
    assert taken >= 3 ==> quantity * 3 <= quantity * taken;
  }

  const LOST := Outcome(Now, true)

  lemma LostThrice(s: State, o: nat)
    requires o < |s.lines| && s.lines[o].effect == Waiting(0)
    ensures
      var s1 := Apply(s, Attempt(o, LOST));
      var s2 := Apply(s1, Attempt(o, LOST));
      RunAttempts(s, o, [LOST, LOST, LOST]) == Apply(s2, Attempt(o, LOST))
  {
    var s1 := Apply(s, Attempt(o, LOST));
    var s2 := Apply(s1, Attempt(o, LOST));
    assert [LOST, LOST, LOST][1..] == [LOST, LOST];
    assert [LOST, LOST][1..] == [LOST];
    assert [LOST][1..] == [];
    assert RunAttempts(s2, o, [LOST]) == Apply(s2, Attempt(o, LOST));
    assert RunAttempts(s1, o, [LOST, LOST]) == Apply(s2, Attempt(o, LOST));
  }

  /** If every response is lost, the decrement takes effect as often as it can. */
  lemma AllLost(s: State, o: nat)
    requires o < |s.lines| && s.lines[o].effect == Waiting(0) && s.lines[o].quantity > 0
    ensures
      var s' := RunAttempts(s, o, [LOST, LOST, LOST]);
      s'.lines[o].applied == s.lines[o].applied + MostApplied(s, o) && s'.lines[o].effect == Over
  {
    LostThrice(s, o);
  }

  /** However its attempts go and whenever they arrive, the decrement takes effect at most so often. */
  ghost predicate AppliedAtMost(s: State, o: nat, n: nat)
    requires o < |s.lines|
  {
    forall steps :: Legal(s, steps) && AllOnly(o, steps) && o < |Run(s, steps).lines| ==>
      Run(s, steps).lines[o].applied <= n
  }

  lemma LostRun(s: State, o: nat)
    requires o < |s.lines| && s.lines[o].effect == Waiting(0)
    ensures
      var lost := Attempt(o, LOST);
      && Legal(s, [lost, lost, lost]) && AllOnly(o, [lost, lost, lost])
      && Run(s, [lost, lost, lost]) == RunAttempts(s, o, [LOST, LOST, LOST])
  {
    hide Legal, Run;
    var lost := Attempt(o, LOST);
    var s1 := Apply(s, lost);
    var s2 := Apply(s1, lost);
    NoSteps(s);
    RunNext(s, [], lost);
    assert [] + [lost] == [lost] && [lost] + [lost] == [lost, lost] && [lost, lost] + [lost] == [lost, lost, lost];
    RunNext(s, [lost], lost);
    RunNext(s, [lost, lost], lost);
    LostThrice(s, o);
  }

  lemma NoSteps(s: State)
    ensures Legal(s, []) && Run(s, []) == s
  {
  }

  lemma RunNext(s: State, steps: seq<Step>, step: Step)
    requires Legal(s, steps) && Enabled(Run(s, steps), step)
    ensures Legal(s, steps + [step]) && Run(s, steps + [step]) == Apply(Run(s, steps), step)
  {
    hide Apply, Enabled;
    var next := steps + [step];
    assert next[..|next| - 1] == steps && next[|next| - 1] == step;
  }

  /**
   * Exactly how often the decrement of a fresh order can take effect, late arrivals included. In
   * particular an order takes its units at most once if and only if the product has less than twice
   * of them when it commits.
   */
  lemma AppliedAtMostExactly(s: State, o: nat, n: nat)
    requires o < |s.lines| && s.lines[o].effect == Waiting(0) && LineOk(s.lines[o])
    requires s.lines[o].quantity > 0 && Stocked(s, o)
    ensures AppliedAtMost(s, o, n) <==> MostApplied(s, o) <= n
    ensures AppliedAtMost(s, o, 1) <==>
      s.lines[o].product !in s.stock || s.stock[s.lines[o].product] < 2 * s.lines[o].quantity
  {
    hide Took;
    forall steps | Legal(s, steps) && AllOnly(o, steps) && o < |Run(s, steps).lines|
      ensures Run(s, steps).lines[o].applied <= MostApplied(s, o)
    {
      TookRun(s, o, steps);
      TakesAtMost(s, Run(s, steps), o);
    }
    AllLost(s, o);
    LostRun(s, o);
    var lost := Attempt(o, LOST);
    assert Run(s, [lost, lost, lost]).lines[o].applied == MostApplied(s, o);
  }

  /** The decrement is not idempotent: responses lost twice make one order take its units three times. */
  lemma LostResponsesTripleTheDecrement(s: State, o: nat)
    requires o < |s.lines| && s.lines[o].effect == Waiting(0) && s.lines[o].applied == 0 && s.lines[o].quantity > 0
    requires s.lines[o].product in s.stock && s.stock[s.lines[o].product] >= 3 * s.lines[o].quantity
    ensures
      var s' := RunAttempts(s, o, [LOST, LOST, LOST]);
      && s'.lines[o].applied == 3
      && s.lines[o].product in s'.stock
      && s'.stock[s.lines[o].product] == s.stock[s.lines[o].product] - 3 * s.lines[o].quantity
      && s'.lines[o].effect == Over
  {
    var s1 := Apply(s, Attempt(o, LOST));
    var s2 := Apply(s1, Attempt(o, LOST));
    var s3 := Apply(s2, Attempt(o, LOST));
    LostThrice(s, o);
  }

  class OrderSideEffects {
    var stock: map<int, int>
    var lines: seq<Line>
    ghost var supplied: map<int, int>

    ghost function View(): State
      reads this
    {
      State(stock, supplied, lines)
    }

    constructor ()
      ensures View() == EMPTY && Conserved(View())
    {
      stock, lines, supplied := map[], [], map[];
    }

    /** One conditional UPDATE; no row matches a missing product or a stock that would go negative. */
    method UpdateStock(id: int, delta: int) returns (found: bool)
      requires delta != 0
      modifies this`stock
      ensures stock == ApplyStockDelta(old(stock), id, delta) && found == Accepts(old(stock), id, delta)
    {
      found := id in stock && stock[id] + delta >= 0;
      if found {
        stock := stock[id := stock[id] + delta];
      }
    }

    /** The after-commit listener: retries as configured and swallows the last failure. */
    method OnOrderCreated(o: nat, outcomes: seq<Outcome>)
      requires o < |lines| && lines[o].effect == Waiting(0) && lines[o].quantity > 0
      requires |outcomes| >= MAX_ATTEMPTS
      modifies this`stock, this`lines
      ensures |lines| == old(|lines|) && View() == RunAttempts(old(View()), o, outcomes)
      ensures lines[o].effect == Over
    {
      var attempt := 0;
      while lines[o].effect.Waiting?
        invariant |lines| == old(|lines|) && attempt <= MAX_ATTEMPTS && lines[o].quantity > 0
        invariant lines[o].effect.Waiting? ==> lines[o].effect.attempts == attempt < MAX_ATTEMPTS
        invariant RunAttempts(View(), o, outcomes[attempt..]) == RunAttempts(old(View()), o, outcomes)
        decreases MAX_ATTEMPTS - attempt
      {
        var line, outcome := lines[o], outcomes[attempt];
        assert outcomes[attempt..][1..] == outcomes[attempt + 1..];
        var applied := false;
        if outcome.reach.Now? {
          applied := UpdateStock(line.product, 0 - line.quantity);
        }
        attempt := attempt + 1;
        var effect := if outcome.retryable && attempt < MAX_ATTEMPTS then Waiting(attempt) else Over;
        lines := lines[o := line.(applied := line.applied + if applied then 1 else 0,
                                  inflight := line.inflight + if outcome.reach.Later? then 1 else 0,
                                  effect := effect)];
      }
    }
  }
}
