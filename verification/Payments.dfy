/**
 * Payments with an idempotency key. A request looks its key up, charges, and stores its response,
 * as three separate database transactions; requests interleave at those points and may die there.
 */
module Payments {
  import opened Prelude
  import Orders

  datatype Body = Body(orderId: int, amount: real, paymentMethod: string)

  /** SHA-256 over the canonical body, taken to be injective. */
  datatype Fingerprint = Fingerprint(canonical: Body)

  datatype PaymentStatus = CONFIRMED | FAILED

  datatype Payment = Payment(id: nat, body: Body, status: PaymentStatus)

  datatype Request = Request(key: Option<string>, body: Body)
  {
    /** An empty header counts as no key. */
    function IdempotencyKey(): Option<string> {
      if key == Some("") then None else key
    }
  }

  datatype Response = Created(payment: Payment) | Replayed(payment: Payment) | KeyReused | BadRequest | ServerError

  datatype Stored = Stored(fingerprint: Fingerprint, payment: Payment)

  /** A committed payment row, with the request that made it and that request's key (history). */
  datatype Charge = Charge(rid: nat, key: Option<string>, payment: Payment)

  datatype Db = Db(charges: seq<Charge>, keys: map<string, Stored>)

  function SimulateProcessing(amount: real): PaymentStatus {
    if amount >= 100000.0 then FAILED else CONFIRMED
  }

  function NewPayment(db: Db, body: Body): Payment {
    Payment(|db.charges| + 1, body, SimulateProcessing(body.amount))
  }

  function TopicOf(status: PaymentStatus): Orders.Kind {
    if status == CONFIRMED then Orders.Confirmed else Orders.Failed
  }

  /** The message that announces a committed payment. */
  function OutcomeOf(payment: Payment): Orders.Message {
    Orders.Payment(TopicOf(payment.status), payment.body.orderId)
  }

  // ---- the interleaved system ----

  datatype Phase = Fresh | Cleared | Charged(payment: Payment) | Done(response: Response) | Dead

  datatype Flight = Flight(request: Request, phase: Phase)

  /** `missed` is history: requests that looked their key up while it was not stored. */
  datatype State = State(db: Db, flights: map<nat, Flight>, missed: set<nat>)

  const EMPTY := State(Db([], map[]), map[], {})

  datatype Step =
    | Arrive(rid: nat, request: Request)
    | Lookup(rid: nat)
    | ChargeIt(rid: nat)
    | Store(rid: nat)
    | Crash(rid: nat)

  function LookUp(db: Db, req: Request): Phase {
    var key := req.IdempotencyKey();
    if key.Some? && key.value in db.keys then
      if db.keys[key.value].fingerprint != Fingerprint(req.body) then Done(KeyReused)
      else Done(Replayed(db.keys[key.value].payment))
    else Cleared
  }

  /** The width of the key column. Nothing bounds the header. */
  const MAX_KEY := 120

  predicate FitsColumn(req: Request) {
    req.IdempotencyKey().Some? ==> |req.IdempotencyKey().value| <= MAX_KEY
  }

  /**
   * The first writer of a key wins; a later one rolls back and keeps its own response. A key that
   * is too long is an error that nobody handles.
   */
  function StoreKey(db: Db, req: Request, payment: Payment): Db {
    var key := req.IdempotencyKey();
    if key.None? || !FitsColumn(req) || key.value in db.keys then db
    else db.(keys := db.keys[key.value := Stored(Fingerprint(req.body), payment)])
  }

  /** What the client gets once the payment is committed. */
  function Finished(req: Request, payment: Payment): Response {
    if FitsColumn(req) then Created(payment) else ServerError
  }

  predicate AtPhase(s: State, rid: nat, phase: Phase) {
    rid in s.flights && s.flights[rid].phase == phase
  }

  function Moved(s: State, rid: nat, phase: Phase): State
    requires rid in s.flights
  {
    s.(flights := s.flights[rid := s.flights[rid].(phase := phase)])
  }

  /** A step that does not fit the request's phase does nothing. */
  function Apply(s: State, step: Step): State {
    match step
    case Arrive(rid, request) =>
      if rid in s.flights then s else s.(flights := s.flights[rid := Flight(request, Fresh)])
    case Lookup(rid) =>
      if !AtPhase(s, rid, Fresh) then s
      else
        var phase := LookUp(s.db, s.flights[rid].request);
        Moved(s, rid, phase).(missed := if phase == Cleared then s.missed + {rid} else s.missed)
    case ChargeIt(rid) =>
      if !AtPhase(s, rid, Cleared) then s
      else
        var req := s.flights[rid].request;
        if req.body.amount <= 0.0 then Moved(s, rid, Done(BadRequest))
        else
          var payment := NewPayment(s.db, req.body);
          Moved(s, rid, Charged(payment)).(
            db := s.db.(charges := s.db.charges + [Charge(rid, req.IdempotencyKey(), payment)]))
    case Store(rid) =>
      if rid !in s.flights || !s.flights[rid].phase.Charged? then s
      else
        var payment := s.flights[rid].phase.payment;
        Moved(s, rid, Done(Finished(s.flights[rid].request, payment))).(
          db := StoreKey(s.db, s.flights[rid].request, payment))
    case Crash(rid) =>
      if rid in s.flights && !s.flights[rid].phase.Done? then Moved(s, rid, Dead) else s
  }

  function Run(s: State, steps: seq<Step>): State {
    if steps == [] then s else Apply(Run(s, steps[..|steps| - 1]), steps[|steps| - 1])
  }

  function CountUnder(charges: seq<Charge>, key: string, n: nat): nat
    requires n <= |charges|
  {
    if n == 0 then 0 else CountUnder(charges, key, n - 1) + if charges[n - 1].key == Some(key) then 1 else 0
  }

  /** How often a key has been charged. */
  function CountCharges(db: Db, key: string): nat {
    CountUnder(db.charges, key, |db.charges|)
  }

  /** Requests that looked `key` up before it was first stored. */
  ghost function MissedOn(s: State, key: string): set<nat> {
    set rid | rid in s.missed && rid in s.flights && s.flights[rid].request.IdempotencyKey() == Some(key)
  }

  /** Requests that have charged. */
  ghost function Chargers(db: Db): set<nat> {
    set i | 0 <= i < |db.charges| :: db.charges[i].rid
  }

  predicate Backs(stored: Stored, c: Charge) {
    c.payment == stored.payment && Fingerprint(c.payment.body) == stored.fingerprint
  }

  ghost predicate Backed(db: Db, k: string) {
    k in db.keys && exists c :: c in db.charges && c.key == Some(k) && Backs(db.keys[k], c)
  }

  ghost predicate FlightOk(s: State, rid: nat) {
    && rid in s.flights
    && var f := s.flights[rid];
    var key := f.request.IdempotencyKey();
    match f.phase
    case Fresh => rid !in s.missed && rid !in Chargers(s.db)
    case Cleared => rid in s.missed && rid !in Chargers(s.db)
    case Charged(p) => Charge(rid, key, p) in s.db.charges && p.body == f.request.body
    case Done(Created(p)) => Charge(rid, key, p) in s.db.charges
    case Done(Replayed(p)) =>
      && key.Some? && key.value in s.db.keys && s.db.keys[key.value] == Stored(Fingerprint(f.request.body), p)
      && rid !in Chargers(s.db)
    case Done(ServerError) => rid in Chargers(s.db)
    case Done(_) => rid !in Chargers(s.db)
    case Dead => true
  }

  ghost predicate ChargeOk(s: State, c: Charge) {
    && c.rid in s.missed && c.rid in s.flights && c.key == s.flights[c.rid].request.IdempotencyKey()
    && c.payment.body == s.flights[c.rid].request.body && Decided(c.payment)
  }

  /** Amounts of 100000 and more fail, smaller ones are confirmed, others are never charged. */
  predicate Decided(p: Payment) {
    && p.body.amount > 0.0
    && (p.status == FAILED <==> p.body.amount >= 100000.0)
    && (p.status == CONFIRMED <==> p.body.amount < 100000.0)
  }

  ghost predicate OneEach(charges: seq<Charge>) {
    forall i, j :: 0 <= i < j < |charges| ==> charges[i].rid != charges[j].rid
  }

  ghost predicate Inv(s: State) {
    && (forall rid :: rid in s.flights ==> FlightOk(s, rid))
    && s.missed <= s.flights.Keys
    && (forall c :: c in s.db.charges ==> ChargeOk(s, c))
    && OneEach(s.db.charges)
    && (forall k :: k in s.db.keys ==> Backed(s.db, k))
  }

  /** One request moves: what it can have added, and what it cannot have touched. */
  ghost predicate MovedBy(s: State, s': State, who: nat) {
    && s'.flights.Keys == s.flights.Keys + {who}
    && (forall rid :: rid in s.flights && rid != who ==> s'.flights[rid] == s.flights[rid])
    && (who in s.flights ==> s'.flights[who].request == s.flights[who].request)
    && (s'.missed == s.missed || s'.missed == s.missed + {who})
    && (s'.db.charges == s.db.charges
        || (who !in Chargers(s.db) && |s'.db.charges| == |s.db.charges| + 1 && s.db.charges < s'.db.charges
            && s'.db.charges[|s.db.charges|].rid == who))
    && (forall k :: k in s.db.keys ==> k in s'.db.keys && s'.db.keys[k] == s.db.keys[k])
  }

  lemma ChargersMoved(s: State, s': State, who: nat)
    requires MovedBy(s, s', who)
    ensures Chargers(s.db) <= Chargers(s'.db) <= Chargers(s.db) + {who}
    ensures forall c :: c in s.db.charges ==> c in s'.db.charges
    ensures OneEach(s.db.charges) ==> OneEach(s'.db.charges)
  {
    var n := |s.db.charges|;
    forall i | 0 <= i < n
      ensures s'.db.charges[i] == s.db.charges[i] && s.db.charges[i].rid in Chargers(s.db)
    {
    }
  }

  lemma OthersStay(s: State, s': State, who: nat, rid: nat)
    requires MovedBy(s, s', who) && FlightOk(s, rid) && rid != who
    ensures FlightOk(s', rid)
  {
    ChargersMoved(s, s', who);
  }

  lemma ApplyMoves(s: State, step: Step)
    requires Inv(s)
    ensures Apply(s, step) == s || MovedBy(s, Apply(s, step), step.rid)
  {
    assert step.rid in s.flights ==> FlightOk(s, step.rid);
  }

  lemma MoverOk(s: State, step: Step)
    requires Inv(s) && Apply(s, step) != s
    ensures FlightOk(Apply(s, step), step.rid)
  {
    var s' := Apply(s, step);
    ApplyMoves(s, step);
    ChargersMoved(s, s', step.rid);
    if step.rid in s.flights {
      assert FlightOk(s, step.rid);
    } else {
      assert step.rid !in Chargers(s.db) by {
        assert forall i :: 0 <= i < |s.db.charges| ==> ChargeOk(s, s.db.charges[i]);
      }
    }
  }

  lemma KeysBacked(s: State, step: Step, k: string)
    requires Inv(s) && k in Apply(s, step).db.keys
    ensures Backed(Apply(s, step).db, k)
  {
    var s' := Apply(s, step);
    ApplyMoves(s, step);
    if s' != s {
      ChargersMoved(s, s', step.rid);
      if k in s.db.keys {
        var c :| c in s.db.charges && c.key == Some(k) && Backs(s.db.keys[k], c);
        assert c in s'.db.charges;
      } else {
        assert FlightOk(s, step.rid);
        assert Charge(step.rid, Some(k), s.flights[step.rid].phase.payment) in s'.db.charges;
      }
    }
  }

  lemma StepInv(s: State, step: Step)
    requires Inv(s)
    ensures Inv(Apply(s, step))
  {
    var s' := Apply(s, step);
    ApplyMoves(s, step);
    if s' != s {
      ChargersMoved(s, s', step.rid);
      forall rid | rid in s'.flights
        ensures FlightOk(s', rid)
      {
        if rid == step.rid {
          MoverOk(s, step);
        } else {
          OthersStay(s, s', step.rid, rid);
        }
      }
      forall c | c in s'.db.charges
        ensures ChargeOk(s', c)
      {
        NewChargeOk(s, step, c);
      }
      forall k | k in s'.db.keys
        ensures Backed(s'.db, k)
      {
        KeysBacked(s, step, k);
      }
    }
  }

  lemma NewChargeOk(s: State, step: Step, c: Charge)
    requires Inv(s) && c in Apply(s, step).db.charges
    ensures ChargeOk(Apply(s, step), c)
  {
    ApplyMoves(s, step);
    if c in s.db.charges {
      assert ChargeOk(s, c);
    } else {
      assert FlightOk(s, step.rid);
    }
  }

  lemma {:induction false} RunInv(s: State, steps: seq<Step>)
    requires Inv(s)
    ensures Inv(Run(s, steps))
  {
    if steps == [] {
    } else {
      RunInv(s, steps[..|steps| - 1]);
      StepInv(Run(s, steps[..|steps| - 1]), steps[|steps| - 1]);
    }
  }

  /** In every interleaving each committed payment is of its request's body, and decided by its amount. */
  lemma ChargesAreDecided(steps: seq<Step>, c: Charge)
    requires c in Run(EMPTY, steps).db.charges
    ensures
      var s := Run(EMPTY, steps);
      && c.rid in s.flights && c.payment.body == s.flights[c.rid].request.body && c.payment.body.amount > 0.0
      && c.payment.status == if c.payment.body.amount >= 100000.0 then FAILED else CONFIRMED
  {
    RunInv(EMPTY, steps);
    assert ChargeOk(Run(EMPTY, steps), c);
  }

  predicate Numbered(charges: seq<Charge>) {
    forall i :: 0 <= i < |charges| ==> charges[i].payment.id == i + 1
  }

  lemma StepNumbers(s: State, step: Step)
    requires Numbered(s.db.charges)
    ensures Numbered(Apply(s, step).db.charges)
  {
    hide SimulateProcessing, LookUp, FitsColumn;
  }

  /** Payments are numbered as they are committed. */
  lemma {:induction false} PaymentsAreNumbered(steps: seq<Step>)
    ensures Numbered(Run(EMPTY, steps).db.charges)
  {
    hide Apply;
    if steps == [] {
    } else {
      PaymentsAreNumbered(steps[..|steps| - 1]);
      StepNumbers(Run(EMPTY, steps[..|steps| - 1]), steps[|steps| - 1]);
    }
  }

  /** Requests behind the first `n` charges, of those made under the key. */
  ghost function ChargeRids(charges: seq<Charge>, key: string, n: nat): set<nat>
    requires n <= |charges|
  {
    if n == 0 then {}
    else if charges[n - 1].key == Some(key) then ChargeRids(charges, key, n - 1) + {charges[n - 1].rid}
    else ChargeRids(charges, key, n - 1)
  }

  lemma {:induction false} RidsWithin(charges: seq<Charge>, key: string, n: nat, rids: set<nat>)
    requires n <= |charges|
    requires forall i :: 0 <= i < n && charges[i].key == Some(key) ==> charges[i].rid in rids
    ensures ChargeRids(charges, key, n) <= rids
  {
    if n == 0 {
    } else {
      RidsWithin(charges, key, n - 1, rids);
    }
  }

  /** The charges of a key are told apart by the request that made them. */
  lemma {:induction false} ChargesAreRequests(charges: seq<Charge>, key: string, n: nat)
    requires OneEach(charges) && n <= |charges|
    ensures CountUnder(charges, key, n) == |ChargeRids(charges, key, n)|
  {
    if n == 0 {
    } else {
      var rid, earlier := charges[n - 1].rid, set i | 0 <= i < n - 1 :: charges[i].rid;
      ChargesAreRequests(charges, key, n - 1);
      RidsWithin(charges, key, n - 1, earlier);
      assert rid !in earlier;
    }
  }

  /**
   * In every interleaving, with crashes anywhere, a key is charged at most once per request that
   * looked it up before it was first stored.
   */
  lemma OverlapBound(steps: seq<Step>, key: string)
    ensures var s := Run(EMPTY, steps); CountCharges(s.db, key) <= |MissedOn(s, key)|
  {
    var s := Run(EMPTY, steps);
    RunInv(EMPTY, steps);
    var n := |s.db.charges|;
    ChargesAreRequests(s.db.charges, key, n);
    assert forall i :: 0 <= i < n ==> ChargeOk(s, s.db.charges[i]);
    RidsWithin(s.db.charges, key, n, MissedOn(s, key));
    SubsetSize(ChargeRids(s.db.charges, key, n), MissedOn(s, key));
  }

  lemma {:induction false} RidsContain(charges: seq<Charge>, key: string, n: nat, i: nat)
    requires i < n <= |charges| && charges[i].key == Some(key)
    ensures charges[i].rid in ChargeRids(charges, key, n)
  {
    if i == n - 1 {
    } else {
      RidsContain(charges, key, n - 1, i);
    }
  }

  /** In every interleaving the charges of a key are exactly its missing requests that went on to charge. */
  lemma OneChargePerMiss(steps: seq<Step>, key: string)
    ensures var s := Run(EMPTY, steps); CountCharges(s.db, key) == |MissedOn(s, key) * Chargers(s.db)|
  {
    var s := Run(EMPTY, steps);
    var charges, n := s.db.charges, |s.db.charges|;
    RunInv(EMPTY, steps);
    ChargesAreRequests(charges, key, n);
    assert forall i :: 0 <= i < n ==> ChargeOk(s, charges[i]);
    RidsWithin(charges, key, n, MissedOn(s, key) * Chargers(s.db));
    forall rid | rid in MissedOn(s, key) * Chargers(s.db)
      ensures rid in ChargeRids(charges, key, n)
    {
      var i :| 0 <= i < n && charges[i].rid == rid;
      RidsContain(charges, key, n, i);
    }
    assert ChargeRids(charges, key, n) == MissedOn(s, key) * Chargers(s.db);
  }

  /** Every request that missed the key got as far as its charge: none is refused, waiting or dead before it. */
  ghost predicate MissesCharged(s: State, key: string) {
    forall rid :: rid in MissedOn(s, key) ==>
      match s.flights[rid].phase
      case Charged(_) => true
      case Done(response) => response.Created? || response.ServerError?
      case _ => false
  }

  /**
   * The promise that a key is never charged twice, in every interleaving: it is kept if and only if
   * at most one request looked the key up before it was first stored.
   */
  lemma ChargedOnceExactly(steps: seq<Step>, key: string)
    requires MissesCharged(Run(EMPTY, steps), key)
    ensures
      var s := Run(EMPTY, steps);
      && CountCharges(s.db, key) == |MissedOn(s, key)|
      && (CountCharges(s.db, key) <= 1 <==> |MissedOn(s, key)| <= 1)
  {
    var s := Run(EMPTY, steps);
    RunInv(EMPTY, steps);
    OneChargePerMiss(steps, key);
    forall rid | rid in MissedOn(s, key)
      ensures rid in Chargers(s.db)
    {
      assert FlightOk(s, rid);
    }
    assert MissedOn(s, key) * Chargers(s.db) == MissedOn(s, key);
  }

  /** Once a key is stored, it is never overwritten and no further request can miss it. */
  lemma {:induction false} StoredForGood(s: State, steps: seq<Step>, key: string)
    requires Inv(s) && key in s.db.keys
    ensures var s' := Run(s, steps);
      && key in s'.db.keys && s'.db.keys[key] == s.db.keys[key]
      && MissedOn(s', key) == MissedOn(s, key)
  {
    if steps == [] {
    } else {
      var front := steps[..|steps| - 1];
      StoredForGood(s, front, key);
      RunInv(s, front);
      OneStepForGood(Run(s, front), steps[|steps| - 1], key);
    }
  }

  lemma OneStepForGood(s: State, step: Step, key: string)
    requires Inv(s) && key in s.db.keys
    ensures var s' := Apply(s, step);
      && key in s'.db.keys && s'.db.keys[key] == s.db.keys[key]
      && MissedOn(s', key) == MissedOn(s, key)
  {
    ApplyMoves(s, step);
  }

  /** All replays of a key return one and the same payment: a charge of that key with that body. */
  lemma ReplaysAgree(steps: seq<Step>, r1: nat, r2: nat)
    requires
      var s := Run(EMPTY, steps);
      && r1 in s.flights && s.flights[r1].phase.Done? && s.flights[r1].phase.response.Replayed?
      && r2 in s.flights && s.flights[r2].phase.Done? && s.flights[r2].phase.response.Replayed?
      && s.flights[r1].request.key == s.flights[r2].request.key
    ensures
      var s := Run(EMPTY, steps);
      var payment := s.flights[r1].phase.response.payment;
      && s.flights[r2].phase.response.payment == payment
      && payment.body == s.flights[r1].request.body == s.flights[r2].request.body
      && exists c :: c in s.db.charges && c.payment == payment && c.key == s.flights[r1].request.key
  {
    var s := Run(EMPTY, steps);
    RunInv(EMPTY, steps);
    assert FlightOk(s, r1) && FlightOk(s, r2);
    assert Backed(s.db, s.flights[r1].request.key.value);
  }

  // ---- requests that do not overlap ----

  /** One request from lookup to response, undisturbed. */
  function Serve(db: Db, rid: nat, req: Request): (Db, Response) {
    match LookUp(db, req)
    case Done(response) => (db, response)
    case _ =>
      if req.body.amount <= 0.0 then (db, BadRequest)
      else
        var payment := NewPayment(db, req.body);
        var charged := db.(charges := db.charges + [Charge(rid, req.IdempotencyKey(), payment)]);
        (StoreKey(charged, req, payment), Finished(req, payment))
  }

  /** The undisturbed request is one schedule of the interleaved system. */
  lemma ServeIsSchedule(s: State, rid: nat, req: Request)
    requires rid !in s.flights
    ensures
      var s' := Apply(Apply(Apply(Apply(s, Arrive(rid, req)), Lookup(rid)), ChargeIt(rid)), Store(rid));
      && s'.db == Serve(s.db, rid, req).0
      && AtPhase(s', rid, Done(Serve(s.db, rid, req).1))
  {
    var s1 := Apply(s, Arrive(rid, req));
    assert AtPhase(s1, rid, Fresh);
    var s2 := Apply(s1, Lookup(rid));
    var s3 := Apply(s2, ChargeIt(rid));
  }

  function DbAfter(reqs: seq<Request>, n: nat): Db
    requires n <= |reqs|
  {
    if n == 0 then EMPTY.db else Serve(DbAfter(reqs, n - 1), n - 1, reqs[n - 1]).0
  }

  function Answer(reqs: seq<Request>, i: nat): Response
    requires i < |reqs|
  {
    Serve(DbAfter(reqs, i), i, reqs[i]).1
  }

  /** Requests under the key that are not refused for their amount. */
  function Chargeable(reqs: seq<Request>, n: nat, key: string): nat
    requires n <= |reqs|
  {
    if n == 0 then 0
    else
      var req := reqs[n - 1];
      Chargeable(reqs, n - 1, key) + if req.IdempotencyKey() == Some(key) && req.body.amount > 0.0 then 1 else 0
  }

  /**
   * Without overlap or crash a key that fits its column is charged exactly once if it was ever
   * stored, else never. A longer one is never stored, and charged by every request.
   */
  lemma {:induction false} SerialChargesOnce(reqs: seq<Request>, n: nat, key: string)
    requires n <= |reqs| && key != ""
    ensures |key| <= MAX_KEY ==>
      CountCharges(DbAfter(reqs, n), key) == if key in DbAfter(reqs, n).keys then 1 else 0
    ensures |key| > MAX_KEY ==>
      key !in DbAfter(reqs, n).keys && CountCharges(DbAfter(reqs, n), key) == Chargeable(reqs, n, key)
  {
    if n == 0 {
    } else {
      SerialChargesOnce(reqs, n - 1, key);
      var db, req := DbAfter(reqs, n - 1), reqs[n - 1];
      var payment := NewPayment(db, req.body);
      CountAppend(db.charges, Charge(n - 1, req.IdempotencyKey(), payment), key);
    }
  }

  /** Whatever requests come one after the other, the key is charged at most once. */
  ghost predicate NeverChargedTwice(key: string) {
    forall reqs :: CountCharges(DbAfter(reqs, |reqs|), key) <= 1
  }

  /** The promise holds for serial requests if and only if the key fits its column. */
  lemma SerialChargesOnceExactly(key: string)
    requires key != ""
    ensures NeverChargedTwice(key) <==> |key| <= MAX_KEY
  {
    if |key| <= MAX_KEY {
      forall reqs
        ensures CountCharges(DbAfter(reqs, |reqs|), key) <= 1
      {
        SerialChargesOnce(reqs, |reqs|, key);
      }
    } else {
      var req := Request(Some(key), Body(1, 1.0, "card"));
      var reqs := [req, req];
      SerialChargesOnce(reqs, 2, key);
      assert Chargeable(reqs, 1, key) == 1;
      assert CountCharges(DbAfter(reqs, |reqs|), key) == 2;
    }
  }

  lemma CountAppend(charges: seq<Charge>, c: Charge, key: string)
    ensures CountUnder(charges + [c], key, |charges| + 1) ==
      CountUnder(charges, key, |charges|) + if c.key == Some(key) then 1 else 0
  {
    CountPrefix(charges, charges + [c], key, |charges|);
  }

  lemma {:induction false} CountPrefix(a: seq<Charge>, b: seq<Charge>, key: string, n: nat)
    requires n <= |a| <= |b| && forall i :: 0 <= i < n ==> a[i] == b[i]
    ensures CountUnder(a, key, n) == CountUnder(b, key, n)
  {
    if n == 0 {
    } else {
      CountPrefix(a, b, key, n - 1);
    }
  }

  lemma {:induction false} SerialStored(reqs: seq<Request>, i: nat, n: nat)
    requires i < n <= |reqs| && Answer(reqs, i).Created? && reqs[i].IdempotencyKey().Some?
    ensures
      var key := reqs[i].IdempotencyKey().value;
      && key in DbAfter(reqs, n).keys
      && DbAfter(reqs, n).keys[key] == Stored(Fingerprint(reqs[i].body), Answer(reqs, i).payment)
    decreases n
  {
    if n == i + 1 {
    } else {
      SerialStored(reqs, i, n - 1);
    }
  }

  /**
   * The four cases of the idempotency contract for requests that do not overlap: after a request
   * was processed under a key, the same body replays its response, another body is refused,
   * neither changes anything, and the key stays charged once.
   */
  lemma SerialReplay(reqs: seq<Request>, i: nat, j: nat)
    requires i < j < |reqs| && Answer(reqs, i).Created? && reqs[i].IdempotencyKey().Some?
    requires reqs[j].IdempotencyKey() == reqs[i].IdempotencyKey()
    ensures Answer(reqs, j) ==
      if reqs[j].body == reqs[i].body then Replayed(Answer(reqs, i).payment) else KeyReused
    ensures DbAfter(reqs, j + 1) == DbAfter(reqs, j)
    ensures CountCharges(DbAfter(reqs, j + 1), reqs[i].IdempotencyKey().value) == 1
  {
    SerialStored(reqs, i, j);
    SerialChargesOnce(reqs, j, reqs[i].IdempotencyKey().value);
  }

  // ---- where the promise stops ----

  /** Two identical requests, the second looking the key up after `j` of the first one's three steps. */
  function Duplicate(key: string, body: Body, j: nat): State {
    var req := Request(Some(key), body);
    var s := Apply(Apply(EMPTY, Arrive(1, req)), Arrive(2, req));
    var s0 := if j == 0 then Apply(s, Lookup(2)) else s;
    var looked := Apply(s0, Lookup(1));
    var s1 := if j == 1 then Apply(looked, Lookup(2)) else looked;
    var charged := Apply(s1, ChargeIt(1));
    var s2 := if j == 2 then Apply(charged, Lookup(2)) else charged;
    var stored := Apply(s2, Store(1));
    var s3 := if j == 3 then Apply(stored, Lookup(2)) else stored;
    Apply(Apply(s3, ChargeIt(2)), Store(2))
  }

  lemma DuplicateLate(key: string, body: Body)
    requires key != "" && body.amount > 0.0 && |key| <= MAX_KEY
    ensures |Duplicate(key, body, 3).db.charges| == 1
    ensures Duplicate(key, body, 3).db.charges[0].key == Some(key)
  {
  }

  lemma DuplicateEarly(key: string, body: Body, j: nat)
    requires key != "" && body.amount > 0.0 && j < 3
    ensures |Duplicate(key, body, j).db.charges| == 2
    ensures forall i :: 0 <= i < 2 ==> Duplicate(key, body, j).db.charges[i].key == Some(key)
  {
    hide SimulateProcessing;
  }

  lemma DuplicateUnstored(key: string, body: Body)
    requires body.amount > 0.0 && |key| > MAX_KEY
    ensures |Duplicate(key, body, 3).db.charges| == 2
    ensures forall i :: 0 <= i < 2 ==> Duplicate(key, body, 3).db.charges[i].key == Some(key)
  {
    hide SimulateProcessing;
  }

  /** A duplicate is charged again unless it looks the key up after the original stored it, as it can. */
  lemma DuplicateChargedUnlessAfterStore(key: string, body: Body, j: nat)
    requires key != "" && body.amount > 0.0 && j <= 3
    ensures CountCharges(Duplicate(key, body, j).db, key) == if j == 3 && |key| <= MAX_KEY then 1 else 2
  {
    hide Duplicate;
    if j == 3 && |key| <= MAX_KEY {
      DuplicateLate(key, body);
    } else if j == 3 {
      DuplicateUnstored(key, body);
    } else {
      DuplicateEarly(key, body, j);
    }
    var charges := Duplicate(key, body, j).db.charges;
    assert CountUnder(charges, key, 1) == 1;
  }

  /** A crash between the charge and the store makes a retry charge again. */
  lemma CrashBeforeStoreChargesTwice(key: string, body: Body)
    requires key != "" && body.amount > 0.0
    ensures
      var req := Request(Some(key), body);
      var dead := Apply(Apply(Apply(Apply(EMPTY, Arrive(1, req)), Lookup(1)), ChargeIt(1)), Crash(1));
      CountCharges(Serve(dead.db, 2, req).0, key) == 2
  {
    var p1 := Payment(1, body, SimulateProcessing(body.amount));
    var p2 := Payment(2, body, SimulateProcessing(body.amount));
    var c1, c2 := Charge(1, Some(key), p1), Charge(2, Some(key), p2);
    CountAppend([], c1, key);
    CountAppend([c1], c2, key);
    assert [] + [c1] == [c1];
  }

  // ---- the route ----

  class PaymentRoutes {
    var charges: seq<Charge>
    var keys: map<string, Stored>

    function View(): Db
      reads this
    {
      Db(charges, keys)
    }

    constructor ()
      ensures View() == EMPTY.db
    {
      charges, keys := [], map[];
    }

    method GetStored(key: string) returns (prior: Option<Stored>)
      ensures prior == if key in keys then Some(keys[key]) else None
    {
      prior := if key in keys then Some(keys[key]) else None;
    }

    /** Refuses a non-positive amount; otherwise inserts the row, decides, commits and announces the outcome. */
    method CreatePayment(rid: nat, req: Request) returns (r: Option<Payment>, published: Option<Orders.Message>)
      modifies this`charges
      ensures req.body.amount <= 0.0 ==> r == None && published == None && charges == old(charges)
      ensures req.body.amount > 0.0 ==>
        && r == Some(NewPayment(old(View()), req.body))
        && published == Some(OutcomeOf(r.value))
        && charges == old(charges) + [Charge(rid, req.IdempotencyKey(), r.value)]
    {
      if req.body.amount <= 0.0 {
        return None, None;
      }
      var status := if req.body.amount >= 100000.0 then FAILED else CONFIRMED;
      var payment := Payment(|charges| + 1, req.body, status);
      charges := charges + [Charge(rid, req.IdempotencyKey(), payment)];
      var kind := if status == CONFIRMED then Orders.Confirmed else Orders.Failed;
      return Some(payment), Some(Orders.Payment(kind, req.body.orderId));
    }

    /** The unique key lets only the first writer through; a key that is too long raises. */
    method StoreResponse(key: string, fingerprint: Fingerprint, payment: Payment) returns (raised: bool)
      modifies this`keys
      ensures raised <==> |key| > MAX_KEY
      ensures keys == if raised || key in old(keys) then old(keys) else old(keys)[key := Stored(fingerprint, payment)]
    {
      if |key| > MAX_KEY {
        return true;
      }
      if key !in keys {
        keys := keys[key := Stored(fingerprint, payment)];
      }
      return false;
    }

    /** Only a charge is announced, also one whose key could not be stored; a replay or a refusal is not. */
    method Create(rid: nat, req: Request) returns (r: Response, published: Option<Orders.Message>)
      modifies this
      ensures (View(), r) == Serve(old(View()), rid, req)
      ensures published ==
        if r.Created? || r.ServerError? then Some(OutcomeOf(NewPayment(old(View()), req.body))) else None
    {
      var bodyFp := Fingerprint(req.body);
      var hasKey := req.key.Some? && req.key.value != "";
      if hasKey {
        var prior := GetStored(req.key.value);
        if prior.Some? {
          if prior.value.fingerprint != bodyFp {
            return KeyReused, None;
          }
          return Replayed(prior.value.payment), None;
        }
      }
      var payment;
      payment, published := CreatePayment(rid, req);
      if payment.None? {
        return BadRequest, None;
      }
      if hasKey {
        var raised := StoreResponse(req.key.value, bodyFp, payment.value);
        if raised {
          return ServerError, published;
        }
      }
      r := Created(payment.value);
    }
  }
}
