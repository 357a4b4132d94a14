/**
 * From the product table to the search index: stock updates are published after they are written,
 * by requests that may overtake each other, and consumed with crashes and redelivery.
 */
module StockFlow {
  import opened Prelude
  import opened Catalog
  import opened CacheAside
  import opened SearchIndex
  import Consumer

  type Partition = seq<Consumer.Value<StockUpdate>>

  /** The service, and the events already published: positions in the order of the writes. */
  datatype Flow = Flow(store: CacheAside.State, order: seq<nat>)

  const START := Flow(CacheAside.State([], 1, map[], []), [])

  /** A write hands its event to the publisher; the broker gets it later, or never. */
  datatype Step = Write(op: Op) | Publish(e: nat)

  /** A step that does not fit does nothing. */
  function Advance(f: Flow, step: Step): Flow {
    match step
    case Write(op) => f.(store := Do(f.store, op).0)
    case Publish(e) => if e < |f.store.events| && e !in f.order then f.(order := f.order + [e]) else f
  }

  function AdvanceAll(f: Flow, steps: seq<Step>): Flow {
    if steps == [] then f else Advance(AdvanceAll(f, steps[..|steps| - 1]), steps[|steps| - 1])
  }

  predicate InRange(events: seq<Event>, order: seq<nat>) {
    forall k :: 0 <= k < |order| ==> order[k] < |events|
  }

  function Published(events: seq<Event>, order: seq<nat>): seq<Event>
    requires InRange(events, order)
  {
    seq(|order|, k requires 0 <= k < |order| => events[order[k]])
  }

  /** The stock-updates partition that published events make. */
  function Updates(events: seq<Event>): Partition {
    if events == [] then []
    else
      var rest, last := Updates(events[..|events| - 1]), events[|events| - 1];
      if last.StockUpdated? then rest + [Consumer.Json(StockUpdate(Some(last.id), last.stock))] else rest
  }

  function IdOf(e: Event): int {
    match e
    case ProductCreated(p) => p.id
    case StockUpdated(id, _, _) => id
  }

  /** The product's stock as the event reports it. */
  function Reported(e: Event): int {
    match e
    case ProductCreated(p) => p.stock
    case StockUpdated(_, stock, _) => stock
  }

  predicate Updating(e: Event, id: int) {
    e.StockUpdated? && e.id == id
  }

  // ---- the table and its events ----

  /** What later updates add to a product's stock. */
  function DeltasAfter(events: seq<Event>, e: nat, id: int): int {
    if |events| <= e + 1 then 0
    else
      var last := events[|events| - 1];
      DeltasAfter(events[..|events| - 1], e, id) + if Updating(last, id) then last.delta else 0
  }

  predicate Creates(events: seq<Event>, e: nat, id: int) {
    e < |events| && events[e].ProductCreated? && events[e].product.id == id
  }

  /** Every event of a product, with the updates after it, gives the product's stock. */
  ghost predicate RowAccounted(events: seq<Event>, id: int, stock: int) {
    && (exists e :: Creates(events, e, id))
    && (forall e: nat :: e < |events| && IdOf(events[e]) == id ==>
          stock == Reported(events[e]) + DeltasAfter(events, e, id))
  }

  ghost predicate Accounted(s: CacheAside.State) {
    && (forall e :: 0 <= e < |s.events| ==> IdOf(s.events[e]) < s.nextId)
    && (forall i :: 0 <= i < |s.table| ==> RowAccounted(s.events, s.table[i].id, s.table[i].stock))
  }

  lemma DeltasNext(events: seq<Event>, event: Event, e: nat, id: int)
    requires e < |events|
    ensures DeltasAfter(events + [event], e, id) ==
      DeltasAfter(events, e, id) + if Updating(event, id) then event.delta else 0
  {
    assert (events + [event])[..|events|] == events;
  }

  lemma OtherEvent(events: seq<Event>, event: Event, id: int, stock: int)
    requires RowAccounted(events, id, stock) && IdOf(event) != id
    ensures RowAccounted(events + [event], id, stock)
  {
    hide DeltasAfter;
    var all := events + [event];
    var c :| Creates(events, c, id);
    assert Creates(all, c, id);
    forall e: nat | e < |all| && IdOf(all[e]) == id
      ensures stock == Reported(all[e]) + DeltasAfter(all, e, id)
    {
      DeltasNext(events, event, e, id);
    }
  }

  lemma OwnEvent(events: seq<Event>, event: Event, id: int, stock: int)
    requires RowAccounted(events, id, stock) && Updating(event, id) && event.stock == stock + event.delta
    ensures RowAccounted(events + [event], id, event.stock)
  {
    var all := events + [event];
    var c :| Creates(events, c, id);
    assert Creates(all, c, id);
    forall e: nat | e < |all| && IdOf(all[e]) == id
      ensures event.stock == Reported(all[e]) + DeltasAfter(all, e, id)
    {
      if e < |events| {
        DeltasNext(events, event, e, id);
      }
    }
  }

  lemma CreateAccounted(s: CacheAside.State, req: CreateRequest)
    requires Accounted(s) && ValidateCreate(req).None?
    ensures Accounted(Do(s, Create(req)).0)
  {
    hide Invalidate;
    var s', p := Do(s, Create(req)).0, NewProduct(s.nextId, req);
    var event := ProductCreated(p);
    assert Creates(s'.events, |s.events|, p.id);
    assert RowAccounted(s'.events, p.id, p.stock);
    forall i | 0 <= i < |s'.table|
      ensures RowAccounted(s'.events, s'.table[i].id, s'.table[i].stock)
    {
      if i > 0 {
        assert s'.table[i] == s.table[i - 1];
        var c :| Creates(s.events, c, s.table[i - 1].id);
        OtherEvent(s.events, event, s'.table[i].id, s'.table[i].stock);
      }
    }
  }

  lemma StockAccounted(s: CacheAside.State, id: int, delta: int)
    requires WellFormed(s) && Accounted(s)
    ensures Accounted(Do(s, UpdateStock(id, delta)).0)
  {
    hide Invalidate, DeltasAfter;
    var s' := Do(s, UpdateStock(id, delta)).0;
    if s'.events != s.events {
      var i, event := IndexOf(s.table, id), s'.events[|s.events|];
      forall j | 0 <= j < |s'.table|
        ensures RowAccounted(s'.events, s'.table[j].id, s'.table[j].stock)
      {
        assert RowAccounted(s.events, s.table[j].id, s.table[j].stock);
        if j == i {
          OwnEvent(s.events, event, id, s.table[j].stock);
        } else {
          assert s'.table[j] == s.table[j];
          OtherEvent(s.events, event, s.table[j].id, s.table[j].stock);
        }
      }
    }
  }

  lemma UpdateAccounted(s: CacheAside.State, id: int, patch: Patch)
    requires Accounted(s) && Knows(s.table, id)
    ensures Accounted(Do(s, Update(id, patch)).0)
  {
    hide Invalidate, RowAccounted;
    var s' := Do(s, Update(id, patch)).0;
    forall i | 0 <= i < |s'.table|
      ensures RowAccounted(s'.events, s'.table[i].id, s'.table[i].stock)
    {
      assert s.table[i].id == s'.table[i].id && s.table[i].stock == s'.table[i].stock;
      assert RowAccounted(s.events, s.table[i].id, s.table[i].stock);
    }
  }

  lemma DeleteAccounted(s: CacheAside.State, id: int)
    requires Accounted(s) && Knows(s.table, id)
    ensures Accounted(Do(s, Delete(id)).0)
  {
    hide Invalidate, RowAccounted;
    var s', i := Do(s, Delete(id)).0, IndexOf(s.table, id);
    forall j | 0 <= j < |s'.table|
      ensures RowAccounted(s'.events, s'.table[j].id, s'.table[j].stock)
    {
      var k := if j < i then j else j + 1;
      assert s'.table[j] == s.table[k];
      assert RowAccounted(s.events, s.table[k].id, s.table[k].stock);
    }
  }

  lemma ReadAccounted(s: CacheAside.State, op: Op)
    requires Accounted(s) && (op.List? || op.GetByID? || op.Expire?)
    ensures Accounted(Do(s, op).0)
  {
    hide ListPage, RowAccounted;
    var s' := Do(s, op).0;
    forall i | 0 <= i < |s'.table|
      ensures RowAccounted(s'.events, s'.table[i].id, s'.table[i].stock)
    {
      assert RowAccounted(s.events, s.table[i].id, s.table[i].stock);
    }
  }

  lemma DoAccounted(s: CacheAside.State, op: Op)
    requires WellFormed(s) && Accounted(s)
    ensures Accounted(Do(s, op).0)
  {
    hide Accounted, WellFormed, IndexOf, Replace, Without, Invalidate, ListPage;
    match op {
      case Create(req) =>
        if ValidateCreate(req).None? {
          CreateAccounted(s, req);
        }
      case UpdateStock(id, delta) => StockAccounted(s, id, delta);
      case Update(id, patch) =>
        if Knows(s.table, id) {
          UpdateAccounted(s, id, patch);
        }
      case Delete(id) =>
        if Knows(s.table, id) {
          DeleteAccounted(s, id);
        }
      case _ => ReadAccounted(s, op);
    }
  }

  ghost predicate FlowOk(f: Flow) {
    && WellFormed(f.store) && Accounted(f.store) && InRange(f.store.events, f.order)
    && forall j, k :: 0 <= j < k < |f.order| ==> f.order[j] != f.order[k]
  }

  lemma EventsOnlyGrow(s: CacheAside.State, op: Op)
    ensures s.events <= Do(s, op).0.events
  {
    hide ListPage, Invalidate, IndexOf, Replace, Without;
  }

  lemma AdvanceOk(f: Flow, step: Step)
    requires FlowOk(f)
    ensures FlowOk(Advance(f, step))
  {
    hide Do, WellFormed, Accounted;
    match step {
      case Write(op) =>
        DoWellFormed(f.store, op);
        DoAccounted(f.store, op);
        EventsOnlyGrow(f.store, op);
      case Publish(e) =>
    }
  }

  /** In every run every event of a product, with the updates written after it, gives its stock in the table. */
  lemma {:induction false} EventsFollowTable(steps: seq<Step>)
    ensures FlowOk(AdvanceAll(START, steps))
  {
    hide FlowOk, Advance;
    if steps == [] {
      assert FlowOk(START) by { AtStart(); }
    } else {
      EventsFollowTable(steps[..|steps| - 1]);
      AdvanceOk(AdvanceAll(START, steps[..|steps| - 1]), steps[|steps| - 1]);
    }
  }

  lemma AtStart()
    ensures FlowOk(START)
  {
  }

  // ---- the partition and the index ----

  /** The event of that product that the index ends with: the update published last, or else the creation. */
  function Latest(events: seq<Event>, order: seq<nat>, id: int, created: nat): nat
    requires InRange(events, order)
  {
    if order == [] then created
    else
      var last := order[|order| - 1];
      if Updating(events[last], id) then last else Latest(events, order[..|order| - 1], id, created)
  }

  function Replayed(events: seq<Event>, id: int, initial: int): int {
    StockAfter(Updates(events), |Updates(events)|, id, initial)
  }

  lemma ReplayedNext(events: seq<Event>, e: Event, id: int, initial: int)
    ensures Replayed(events + [e], id, initial) ==
      if Updating(e, id) then e.stock else Replayed(events, id, initial)
  {
    assert (events + [e])[..|events|] == events;
    if e.StockUpdated? {
      var log, v := Updates(events), Consumer.Json(StockUpdate(Some(e.id), e.stock));
      LongerLog(log, v, |log|, id, initial);
    }
  }

  lemma {:induction false} ReplayedIsLatest(events: seq<Event>, order: seq<nat>, id: int, created: nat)
    requires InRange(events, order) && Creates(events, created, id)
    ensures
      var e := Latest(events, order, id, created);
      && e < |events| && IdOf(events[e]) == id
      && Replayed(Published(events, order), id, events[created].product.stock) == Reported(events[e])
  {
    hide Replayed;
    if order == [] {
      assert Replayed([], id, events[created].product.stock) == events[created].product.stock by {
        NothingReplayed(id, events[created].product.stock);
      }
    } else {
      var front := order[..|order| - 1];
      ReplayedIsLatest(events, front, id, created);
      assert Published(events, order) == Published(events, front) + [events[order[|order| - 1]]];
      ReplayedNext(Published(events, front), events[order[|order| - 1]], id, events[created].product.stock);
    }
  }

  lemma NothingReplayed(id: int, initial: int)
    ensures Replayed([], id, initial) == initial
  {
  }

  /** The consumer worked through everything published, from an index with each product's stock at creation. */
  ghost predicate Consumed(f: Flow, maxRetries: int, w: World, steps: seq<Consumer.Step<StockUpdate>>) {
    && maxRetries >= 1 && Consumer.Safe(maxRetries, w.consumer) && AllGetThrough(maxRetries, w, steps)
    && w.consumer.phase == Consumer.Down && w.consumer.committed == 0
    && InRange(f.store.events, f.order)
    && var events, end := f.store.events, Run(maxRetries, w, steps).consumer;
    && (forall e :: 0 <= e < |events| && events[e].ProductCreated? ==>
          events[e].product.id in w.index && w.index[events[e].product.id].stock == events[e].product.stock)
    && end.log == Updates(Published(events, f.order)) && end.committed == |end.log|
  }

  /**
   * The index ends with the stock that the update published last reports, whatever crashed and was
   * redelivered. That is the stock of the table if and only if the updates written after it add up
   * to nothing, as when it was written last.
   */
  lemma IndexEndsWithLatest(writes: seq<Step>, maxRetries: int, w: World, steps: seq<Consumer.Step<StockUpdate>>,
                            i: nat, created: nat)
    requires Consumed(AdvanceAll(START, writes), maxRetries, w, steps)
    requires var s := AdvanceAll(START, writes).store; i < |s.table| && Creates(s.events, created, s.table[i].id)
    ensures InRange(AdvanceAll(START, writes).store.events, AdvanceAll(START, writes).order)
    ensures
      var f, index := AdvanceAll(START, writes), Run(maxRetries, w, steps).index;
      var product, e := f.store.table[i], Latest(f.store.events, f.order, f.store.table[i].id, created);
      && e < |f.store.events| && product.id in index
      && index[product.id].stock == Reported(f.store.events[e])
      && (index[product.id].stock == product.stock <==> DeltasAfter(f.store.events, e, product.id) == 0)
  {
    hide Run, AllGetThrough, Consumer.Safe, Replayed, AdvanceAll, DeltasAfter, Latest;
    var f := AdvanceAll(START, writes);
    EventsFollowTable(writes);
    RedeliveredEqualsOnce(maxRetries, w, steps);
    ReplayedIsLatest(f.store.events, f.order, f.store.table[i].id, created);
    assert RowAccounted(f.store.events, f.store.table[i].id, f.store.table[i].stock);
    assert Replayed(Published(f.store.events, f.order), f.store.table[i].id, f.store.events[created].product.stock)
        == Run(maxRetries, w, steps).index[f.store.table[i].id].stock by {
      LastStock(f, maxRetries, w, steps, f.store.table[i].id, created);
    }
  }

  lemma LastStock(f: Flow, maxRetries: int, w: World, steps: seq<Consumer.Step<StockUpdate>>, id: int, created: nat)
    requires Consumed(f, maxRetries, w, steps) && Creates(f.store.events, created, id)
    ensures id in Run(maxRetries, w, steps).index
    ensures Run(maxRetries, w, steps).index[id].stock ==
      Replayed(Published(f.store.events, f.order), id, f.store.events[created].product.stock)
  {
    hide Run, AllGetThrough, Consumer.Safe;
    RedeliveredEqualsOnce(maxRetries, w, steps);
  }

  /** Publication in the order of the writes, without a gap. */
  predicate InOrder(f: Flow) {
    |f.order| == |f.store.events| && forall k :: 0 <= k < |f.order| ==> f.order[k] == k
  }

  lemma {:induction false} NothingAfterLatest(events: seq<Event>, order: seq<nat>, id: int, created: nat)
    requires InRange(events, order) && Creates(events, created, id) && |order| <= |events|
    requires forall k :: 0 <= k < |order| ==> order[k] == k
    ensures DeltasAfter(events[..|order|], Latest(events, order, id, created), id) == 0
  {
    if order == [] {
    } else {
      var n := |order| - 1;
      NothingAfterLatest(events, order[..n], id, created);
      assert events[..n + 1][..n] == events[..n];
    }
  }

  /** If every event was published, in the order of the writes, the index ends with the table's stock. */
  lemma IndexFollowsTable(writes: seq<Step>, maxRetries: int, w: World, steps: seq<Consumer.Step<StockUpdate>>)
    requires Consumed(AdvanceAll(START, writes), maxRetries, w, steps) && InOrder(AdvanceAll(START, writes))
    ensures
      var t, index := AdvanceAll(START, writes).store.table, Run(maxRetries, w, steps).index;
      forall i :: 0 <= i < |t| ==> t[i].id in index && index[t[i].id].stock == t[i].stock
  {
    hide Consumed, Run, AdvanceAll, DeltasAfter, Latest;
    var f := AdvanceAll(START, writes);
    EventsFollowTable(writes);
    forall i | 0 <= i < |f.store.table|
      ensures
        var id, index := f.store.table[i].id, Run(maxRetries, w, steps).index;
        id in index && index[id].stock == f.store.table[i].stock
    {
      assert RowAccounted(f.store.events, f.store.table[i].id, f.store.table[i].stock);
      var created :| Creates(f.store.events, created, f.store.table[i].id);
      IndexEndsWithLatest(writes, maxRetries, w, steps, i, created);
      NothingAfterLatest(f.store.events, f.order, f.store.table[i].id, created);
      assert f.store.events[..|f.order|] == f.store.events;
    }
  }
}
