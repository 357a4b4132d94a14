/**
 * What each of a series of requests is answered, told from the requests alone: no lookup, no table.
 */
module PaymentAnswers {
  import opened Prelude
  import opened Payments

  /** The request carries that key; an empty header is none. */
  predicate Carries(req: Request, key: string) {
    key != "" && req.key == Some(key)
  }

  predicate HasKey(req: Request) {
    req.key.Some? && req.key.value != ""
  }

  /** The first of the first n requests that carries the key and has a positive amount. */
  function FirstUse(reqs: seq<Request>, n: nat, key: string): Option<nat>
    requires n <= |reqs|
  {
    if n == 0 then None
    else if FirstUse(reqs, n - 1, key).Some? then FirstUse(reqs, n - 1, key)
    else if Carries(reqs[n - 1], key) && reqs[n - 1].body.amount > 0.0 then Some(n - 1)
    else None
  }

  /** The earlier request whose answer the i-th one may replay. */
  function Original(reqs: seq<Request>, i: nat): Option<nat>
    requires i < |reqs|
  {
    if HasKey(reqs[i]) && |reqs[i].key.value| <= 120 then FirstUse(reqs, i, reqs[i].key.value) else None
  }

  predicate Charges(reqs: seq<Request>, i: nat)
    requires i < |reqs|
  {
    Original(reqs, i).None? && reqs[i].body.amount > 0.0
  }

  function ChargesAmong(reqs: seq<Request>, n: nat): nat
    requires n <= |reqs|
  {
    if n == 0 then 0 else ChargesAmong(reqs, n - 1) + if Charges(reqs, n - 1) then 1 else 0
  }

  /** The payment that the i-th request makes, the next in number and decided by its amount. */
  predicate PaymentOf(reqs: seq<Request>, i: nat, p: Payment)
    requires i < |reqs|
  {
    && p.id == ChargesAmong(reqs, i) + 1 && p.body == reqs[i].body
    && p.status == if reqs[i].body.amount >= 100000.0 then FAILED else CONFIRMED
  }

  /** What the table of keys holds of a key that fits its column. */
  ghost predicate KeyTold(reqs: seq<Request>, n: nat, key: string)
    requires n <= |reqs|
  {
    var db, first := DbAfter(reqs, n), FirstUse(reqs, n, key);
    && (key in db.keys <==> first.Some?)
    && (first.Some? ==>
          && first.value < n
          && db.keys[key].fingerprint == Fingerprint(reqs[first.value].body)
          && PaymentOf(reqs, first.value, db.keys[key].payment)
          && Answer(reqs, first.value) == Created(db.keys[key].payment))
  }

  lemma ServeTold(reqs: seq<Request>, i: nat)
    requires i < |reqs| && |DbAfter(reqs, i).charges| == ChargesAmong(reqs, i)
    requires HasKey(reqs[i]) && |reqs[i].key.value| <= 120 ==> KeyTold(reqs, i, reqs[i].key.value)
    ensures AnswerTold(reqs, i, Answer(reqs, i))
    ensures |DbAfter(reqs, i + 1).charges| == ChargesAmong(reqs, i + 1)
  {
    hide PaymentOf, SimulateProcessing, CountCharges;
    NewPaymentTold(reqs, i);
    if HasKey(reqs[i]) && |reqs[i].key.value| > 120 {
      SerialChargesOnce(reqs, i, reqs[i].key.value);
    }
  }

  lemma NewPaymentTold(reqs: seq<Request>, i: nat)
    requires i < |reqs| && |DbAfter(reqs, i).charges| == ChargesAmong(reqs, i)
    ensures PaymentOf(reqs, i, NewPayment(DbAfter(reqs, i), reqs[i].body))
  {
  }

  /** The answer, by the four cases of the idempotency contract and the two errors. */
  ghost predicate AnswerTold(reqs: seq<Request>, i: nat, r: Response)
    requires i < |reqs|
  {
    match Original(reqs, i)
    case Some(j) =>
      && j < i
      && Answer(reqs, j).Created? && PaymentOf(reqs, j, Answer(reqs, j).payment)
      && r == if reqs[i].body == reqs[j].body then Replayed(Answer(reqs, j).payment) else KeyReused
    case None =>
      if reqs[i].body.amount <= 0.0 then r == BadRequest
      else if HasKey(reqs[i]) && |reqs[i].key.value| > 120 then r == ServerError
      else r.Created? && PaymentOf(reqs, i, r.payment)
  }

  lemma NextKeyTold(reqs: seq<Request>, n: nat, key: string)
    requires n < |reqs| && key != "" && |key| <= 120 && KeyTold(reqs, n, key)
    requires |DbAfter(reqs, n).charges| == ChargesAmong(reqs, n)
    ensures KeyTold(reqs, n + 1, key)
  {
    hide PaymentOf, SimulateProcessing, NewPayment;
    NewPaymentTold(reqs, n);
  }

  lemma {:induction false} KeysTold(reqs: seq<Request>, n: nat, key: string)
    requires n <= |reqs| && key != "" && |key| <= 120
    ensures KeyTold(reqs, n, key) && |DbAfter(reqs, n).charges| == ChargesAmong(reqs, n)
  {
    hide KeyTold, ChargesAmong, Answer, Serve;
    if n == 0 {
      assert KeyTold(reqs, 0, key) && ChargesAmong(reqs, 0) == 0 by { NoneTold(reqs, key); }
    } else {
      KeysTold(reqs, n - 1, key);
      NextKeyTold(reqs, n - 1, key);
      if HasKey(reqs[n - 1]) && |reqs[n - 1].key.value| <= 120 {
        KeysTold(reqs, n - 1, reqs[n - 1].key.value);
      }
      ServeTold(reqs, n - 1);
    }
  }

  lemma NoneTold(reqs: seq<Request>, key: string)
    ensures KeyTold(reqs, 0, key) && ChargesAmong(reqs, 0) == 0
  {
  }

  /** Every answer in a series of requests that do not overlap. */
  lemma AnswerExactly(reqs: seq<Request>, i: nat)
    requires i < |reqs|
    ensures AnswerTold(reqs, i, Answer(reqs, i))
  {
    hide KeyTold, AnswerTold;
    KeysTold(reqs, i, "k");
    if HasKey(reqs[i]) && |reqs[i].key.value| <= 120 {
      KeysTold(reqs, i, reqs[i].key.value);
    }
    ServeTold(reqs, i);
  }
}
