/**
 * The search index fed by a stock-updates partition through the consumer loop: redelivery after
 * crashes replays updates, and the index still ends up as if each had been applied once.
 */
module SearchIndex {
  import opened Prelude
  import opened Consumer

  datatype StockUpdate = StockUpdate(productId: Option<int>, stock: int)

  datatype Doc = Doc(title: string, stock: int)

  type Index = map<int, Doc>

  /** The handler can succeed: the payload names a product that has a document. */
  predicate Applies(index: Index, u: StockUpdate) {
    u.productId.Some? && u.productId.value in index
  }

  /** A partial update of one document; a missing one is an error and changes nothing. */
  function UpdateStock(index: Index, u: StockUpdate): Index {
    if Applies(index, u) then index[u.productId.value := index[u.productId.value].(stock := u.stock)] else index
  }

  datatype World = World(consumer: State<StockUpdate>, index: Index)

  /** A call succeeds when the cluster answers and the handler can. */
  function Effective(index: Index, v: Value<StockUpdate>, o: Outcome): Outcome {
    if v.Json? && Applies(index, v.payload) then o
    else o.(calls := seq(|o.calls|, i => false))
  }

  predicate Processes(s: World, step: Step<StockUpdate>) {
    && step.Process? && s.consumer.phase.InBatch?
    && s.consumer.phase.next < s.consumer.phase.end && s.consumer.phase.next < |s.consumer.log|
  }

  function Apply(maxRetries: int, s: World, step: Step<StockUpdate>): World {
    if !Processes(s, step) then s.(consumer := Consumer.Apply(maxRetries, s.consumer, step))
    else
      var v := s.consumer.log[s.consumer.phase.next];
      var o := Effective(s.index, v, step.outcome);
      World(Consumer.Apply(maxRetries, s.consumer, Process(o)),
            if v.Json? && FirstSuccess(o.calls, maxRetries).Some? then UpdateStock(s.index, v.payload) else s.index)
  }

  /** Handlers of indexed products get through within the retry limit. */
  predicate GetsThrough(maxRetries: int, s: World, step: Step<StockUpdate>) {
    Processes(s, step) ==>
      var v := s.consumer.log[s.consumer.phase.next];
      v.Json? && Applies(s.index, v.payload) ==> FirstSuccess(step.outcome.calls, maxRetries).Some?
  }

  function Run(maxRetries: int, s: World, steps: seq<Step<StockUpdate>>): World {
    if steps == [] then s else Apply(maxRetries, Run(maxRetries, s, steps[..|steps| - 1]), steps[|steps| - 1])
  }

  predicate AllGetThrough(maxRetries: int, s: World, steps: seq<Step<StockUpdate>>) {
    steps == []
    || (AllGetThrough(maxRetries, s, steps[..|steps| - 1])
        && GetsThrough(maxRetries, Run(maxRetries, s, steps[..|steps| - 1]), steps[|steps| - 1]))
  }

  predicate Names(v: Value<StockUpdate>, pid: int) {
    v.Json? && v.payload.productId == Some(pid)
  }

  /** The product's stock after the first `n` records, each applied once in order. */
  function StockAfter(log: seq<Value<StockUpdate>>, n: nat, pid: int, initial: int): int
    requires n <= |log|
  {
    if n == 0 then initial
    else if Names(log[n - 1], pid) then log[n - 1].payload.stock
    else StockAfter(log, n - 1, pid, initial)
  }

  predicate Mentions(log: seq<Value<StockUpdate>>, from: nat, to: nat, pid: int)
    requires to <= |log|
  {
    exists k :: from <= k < to && Names(log[k], pid)
  }

  lemma {:induction false} Unmentioned(log: seq<Value<StockUpdate>>, from: nat, to: nat, pid: int, initial: int)
    requires from <= to <= |log| && !Mentions(log, from, to, pid)
    ensures StockAfter(log, to, pid, initial) == StockAfter(log, from, pid, initial)
  {
    if from == to {
    } else {
      assert !Names(log[to - 1], pid);
      Unmentioned(log, from, to - 1, pid, initial);
    }
  }

  lemma {:induction false} LongerLog(log: seq<Value<StockUpdate>>, v: Value<StockUpdate>, n: nat, pid: int,
                                     initial: int)
    requires n <= |log|
    ensures StockAfter(log + [v], n, pid, initial) == StockAfter(log, n, pid, initial)
  {
    if n == 0 {
    } else {
      LongerLog(log, v, n - 1, pid, initial);
    }
  }

  /**
   * `reach` is the highest offset ever processed. A product updated since the last restart is up to
   * date with this life of the consumer; one with no update at or after the committed offset is up
   * to date with the committed prefix.
   */
  ghost predicate Consistent(s: World, base: Index, reach: nat) {
    var c := s.consumer;
    && c.committed <= Frontier(c) <= reach <= |c.log|
    && s.index.Keys == base.Keys
    && forall pid :: pid in base ==>
         && s.index[pid].title == base[pid].title
         && UpToDate(s, base, reach, pid)
  }

  ghost predicate UpToDate(s: World, base: Index, reach: nat, pid: int)
    requires pid in s.index && pid in base && s.consumer.committed <= |s.consumer.log|
    requires Frontier(s.consumer) <= reach <= |s.consumer.log|
  {
    var c, stock := s.consumer, s.index[pid].stock;
    && (Mentions(c.log, c.committed, Frontier(c), pid) ==>
          stock == StockAfter(c.log, Frontier(c), pid, base[pid].stock))
    && (!Mentions(c.log, c.committed, reach, pid) ==> stock == StockAfter(c.log, c.committed, pid, base[pid].stock))
  }

  lemma ProcessConsistent(maxRetries: int, s: World, step: Step<StockUpdate>, base: Index, reach: nat)
    requires maxRetries >= 1 && Safe(maxRetries, s.consumer) && Consistent(s, base, reach)
    requires Processes(s, step) && GetsThrough(maxRetries, s, step)
    ensures
      var s' := Apply(maxRetries, s, step);
      Consistent(s', base, if reach < Frontier(s'.consumer) then Frontier(s'.consumer) else reach)
  {
    var s' := Apply(maxRetries, s, step);
    var c, c' := s.consumer, s'.consumer;
    var next := c.phase.next;
    var reach' := if reach < Frontier(c') then Frontier(c') else reach;
    assert c'.log == c.log && c'.committed == c.committed;
    forall pid | pid in base
      ensures s'.index[pid].title == base[pid].title && UpToDate(s', base, reach', pid)
    {
      assert UpToDate(s, base, reach, pid);
      if c'.phase.InBatch? {
        if Names(c.log[next], pid) {
          assert s'.index[pid].stock == c.log[next].payload.stock;
          assert Mentions(c.log, c.committed, reach', pid);
        } else {
          assert s'.index[pid] == s.index[pid];
          assert Mentions(c.log, c.committed, next + 1, pid) ==> Mentions(c.log, c.committed, next, pid);
          assert Mentions(c.log, c.committed, reach, pid) ==> Mentions(c.log, c.committed, reach', pid);
        }
      }
    }
  }

  lemma CommitConsistent(maxRetries: int, s: World, base: Index, reach: nat)
    requires maxRetries >= 1 && Safe(maxRetries, s.consumer) && Consistent(s, base, reach)
    ensures Consistent(Apply(maxRetries, s, Commit), base, reach)
  {
    var s' := Apply(maxRetries, s, Commit);
    var c, c' := s.consumer, s'.consumer;
    forall pid | pid in base
      ensures UpToDate(s', base, reach, pid)
    {
      assert UpToDate(s, base, reach, pid);
      var n := Frontier(c);
      if c' != c && !Mentions(c.log, n, reach, pid) && !Mentions(c.log, c.committed, n, pid) {
        assert !Mentions(c.log, c.committed, reach, pid);
        Unmentioned(c.log, c.committed, n, pid, base[pid].stock);
      }
    }
  }

  lemma ProduceConsistent(maxRetries: int, s: World, v: Value<StockUpdate>, base: Index, reach: nat)
    requires maxRetries >= 1 && Safe(maxRetries, s.consumer) && Consistent(s, base, reach)
    ensures Consistent(Apply(maxRetries, s, Produce(v)), base, reach)
  {
    var s' := Apply(maxRetries, s, Produce(v));
    var c := s.consumer;
    forall pid | pid in base
      ensures UpToDate(s', base, reach, pid)
    {
      assert UpToDate(s, base, reach, pid);
      LongerLog(c.log, v, Frontier(c), pid, base[pid].stock);
      LongerLog(c.log, v, c.committed, pid, base[pid].stock);
      assert forall k :: 0 <= k < |c.log| ==> s'.consumer.log[k] == c.log[k];
      var log' := s'.consumer.log;
      assert Mentions(log', c.committed, Frontier(c), pid) <==> Mentions(c.log, c.committed, Frontier(c), pid);
      assert Mentions(log', c.committed, reach, pid) <==> Mentions(c.log, c.committed, reach, pid);
    }
  }

  /** The highest offset that any life of the consumer has got to. */
  function Reach(maxRetries: int, s: World, steps: seq<Step<StockUpdate>>): nat {
    var here := Frontier(Run(maxRetries, s, steps).consumer);
    if steps == [] then here
    else
      var before := Reach(maxRetries, s, steps[..|steps| - 1]);
      if before < here then here else before
  }

  lemma {:induction false} RunConsistent(maxRetries: int, s: World, steps: seq<Step<StockUpdate>>)
    requires maxRetries >= 1 && Safe(maxRetries, s.consumer) && AllGetThrough(maxRetries, s, steps)
    requires s.consumer.phase == Down && s.consumer.committed == 0
    ensures var s' := Run(maxRetries, s, steps);
      Safe(maxRetries, s'.consumer) && Consistent(s', s.index, Reach(maxRetries, s, steps))
  {
    if steps == [] {
    } else {
      var front, step := steps[..|steps| - 1], steps[|steps| - 1];
      RunConsistent(maxRetries, s, front);
      var mid, reach := Run(maxRetries, s, front), Reach(maxRetries, s, front);
      StepConsistent(maxRetries, mid, step, s.index, reach);
    }
  }

  lemma StepConsistent(maxRetries: int, s: World, step: Step<StockUpdate>, base: Index, reach: nat)
    requires maxRetries >= 1 && Safe(maxRetries, s.consumer) && Consistent(s, base, reach)
    requires GetsThrough(maxRetries, s, step)
    ensures
      var s' := Apply(maxRetries, s, step);
      && Safe(maxRetries, s'.consumer)
      && Consistent(s', base, if reach < Frontier(s'.consumer) then Frontier(s'.consumer) else reach)
  {
    var s' := Apply(maxRetries, s, step);
    if Processes(s, step) {
      ProcessConsistent(maxRetries, s, step, base, reach);
      var v := s.consumer.log[s.consumer.phase.next];
      StepSafe(maxRetries, s.consumer, Process(Effective(s.index, v, step.outcome)));
    } else {
      StepSafe(maxRetries, s.consumer, step);
      match step {
        case Produce(v) => ProduceConsistent(maxRetries, s, v, base, reach);
        case Commit => CommitConsistent(maxRetries, s, base, reach);
        case _ =>
          forall pid | pid in base
            ensures UpToDate(s', base, reach, pid)
          {
            assert UpToDate(s, base, reach, pid);
          }
      }
    }
  }

  /**
   * Redelivery is harmless: once the end of the partition is committed, each product that had a
   * document holds the stock of its last record, as if every record had been applied exactly once.
   */
  lemma RedeliveredEqualsOnce(maxRetries: int, s: World, steps: seq<Step<StockUpdate>>)
    requires maxRetries >= 1 && Safe(maxRetries, s.consumer) && AllGetThrough(maxRetries, s, steps)
    requires s.consumer.phase == Down && s.consumer.committed == 0
    ensures
      var s' := Run(maxRetries, s, steps);
      s'.consumer.committed == |s'.consumer.log| ==>
        && s'.index.Keys == s.index.Keys
        && forall pid :: pid in s.index ==>
             s'.index[pid] == s.index[pid].(
               stock := StockAfter(s'.consumer.log, |s'.consumer.log|, pid, s.index[pid].stock))
  {
    RunConsistent(maxRetries, s, steps);
    var s', reach := Run(maxRetries, s, steps), Reach(maxRetries, s, steps);
    if s'.consumer.committed == |s'.consumer.log| {
      forall pid | pid in s.index
        ensures s'.index[pid].stock == StockAfter(s'.consumer.log, |s'.consumer.log|, pid, s.index[pid].stock)
      {
        assert UpToDate(s', s.index, reach, pid);
        assert !Mentions(s'.consumer.log, s'.consumer.committed, reach, pid);
      }
    }
  }

  /** Whether the next record's handler got through, and the index it leaves. */
  function HandlerEffect(maxRetries: int, index: Index, u: StockUpdate, up: seq<bool>): (bool, Index) {
    var o := Effective(index, Json(u), Outcome(up, true));
    if FirstSuccess(o.calls, maxRetries).Some? then (true, UpdateStock(index, u)) else (false, index)
  }

  /** That is what the step system does with a readable record. */
  lemma ProcessIsHandler(maxRetries: int, s: World, o: Outcome, u: StockUpdate)
    requires maxRetries >= 1 && Processes(s, Process(o)) && s.consumer.log[s.consumer.phase.next] == Json(u)
    ensures
      var (through, index') := HandlerEffect(maxRetries, s.index, u, o.calls);
      var s' := Apply(maxRetries, s, Process(o));
      && s'.index == index'
      && s.consumer.phase.next in s'.consumer.fates
      && (through <==> s'.consumer.fates[s.consumer.phase.next].Handled?)
  {
    assert Effective(s.index, Json(u), o).calls == Effective(s.index, Json(u), Outcome(o.calls, true)).calls;
  }

  class ProductConsumer {
    const maxRetries: int
    var index: Index

    constructor (maxRetries: int, index: Index)
      ensures this.maxRetries == maxRetries && this.index == index
    {
      this.maxRetries := maxRetries;
      this.index := index;
    }

    /** A partial update; it fails when the cluster does or the document is missing. */
    method UpdateProductStock(pid: int, stock: int, up: bool) returns (raised: bool)
      modifies this
      ensures raised <==> !up || pid !in old(index)
      ensures index == if raised then old(index) else UpdateStock(old(index), StockUpdate(Some(pid), stock))
    {
      if !up || pid !in index {
        return true;
      }
      index := index[pid := index[pid].(stock := stock)];
      return false;
    }

    /** A payload without a product id is an error like any other. */
    method HandleStockUpdates(u: StockUpdate, up: bool) returns (raised: bool)
      modifies this
      ensures raised <==> !up || !Applies(old(index), u)
      ensures index == if raised then old(index) else UpdateStock(old(index), u)
    {
      if u.productId.None? {
        return true;
      }
      raised := UpdateProductStock(u.productId.value, u.stock, up);
    }

    /** Calls the handler until it gets through or the tries are used up. */
    method HandleWithRetry(u: StockUpdate, up: seq<bool>) returns (through: bool)
      requires maxRetries >= 1 && |up| >= maxRetries
      modifies this
      ensures (through, index) == HandlerEffect(maxRetries, old(index), u, up)
    {
      var attempt := 0;
      while attempt < maxRetries
        invariant attempt <= maxRetries && index == old(index)
        invariant forall k :: 0 <= k < attempt ==> !(up[k] && Applies(index, u))
      {
        var raised := HandleStockUpdates(u, up[attempt]);
        if !raised {
          return true;
        }
        attempt := attempt + 1;
      }
      return false;
    }
  }
}
