/**
 * What each operation of products-service does to the catalog as a map from ids to products, and
 * what a client reads back.
 */
module CatalogTable {
  import opened Prelude
  import opened Catalog
  import opened CacheAside
  import StockSaga

  function Rows(t: Table): map<int, Product> {
    if t == [] then map[] else Rows(t[1..])[t[0].id := t[0]]
  }

  function Stocks(t: Table): map<int, int> {
    map id | id in Rows(t) :: Rows(t)[id].stock
  }

  lemma {:induction false} RowsAre(t: Table, id: int)
    ensures id in Rows(t) <==> Knows(t, id)
    ensures id in Rows(t) ==> Rows(t)[id] == Row(t, id)
  {
    if t == [] {
    } else {
      RowsAre(t[1..], id);
    }
  }

  lemma {:induction false} RowsReplaced(t: Table, p: Product)
    requires Knows(t, p.id)
    ensures Rows(Replace(t, p)) == Rows(t)[p.id := p]
  {
    var t' := Replace(t, p);
    if t[0].id == p.id {
      assert t'[1..] == t[1..];
    } else {
      RowsReplaced(t[1..], p);
      assert t'[1..] == Replace(t[1..], p) && t'[0] == t[0];
    }
  }

  lemma {:induction false} RowsWithout(t: Table, id: int)
    requires Knows(t, id) && Descending(t)
    ensures Rows(Without(t, id)) == Rows(t) - {id}
  {
    var t' := Without(t, id);
    if t[0].id == id {
      assert t' == t[1..];
      RowsAre(t[1..], id);
    } else {
      RowsWithout(t[1..], id);
      assert t'[1..] == Without(t[1..], id) && t'[0] == t[0];
    }
  }

  lemma {:induction false} RowsAreIn(t: Table, id: int)
    requires id in Rows(t)
    ensures exists i :: 0 <= i < |t| && t[i] == Rows(t)[id] && t[i].id == id
  {
    if t[0].id == id {
    } else {
      RowsAreIn(t[1..], id);
      var i :| 0 <= i < |t[1..]| && t[1..][i] == Rows(t[1..])[id] && t[1..][i].id == id;
      assert t[i + 1] == t[1..][i];
    }
  }

  // ---- writes ----

  /** A valid request adds its product under a fresh id and announces it; an invalid one changes nothing. */
  lemma CreateAdds(s: State, req: CreateRequest)
    requires WellFormed(s)
    ensures
      var (s', r) := Do(s, Create(req));
      if req.sellerId > 0 && |req.title| > 0 && req.price >= 0.0 && req.stock >= 0 then
        && s.nextId !in Rows(s.table)
        && var p := Product(s.nextId, req.sellerId, req.title, req.description, req.category, req.price, req.stock);
        && Rows(s'.table) == Rows(s.table)[s.nextId := p]
        && r == Found(p) && s'.events == s.events + [ProductCreated(p)] && s'.nextId == s.nextId + 1
      else s' == s && r.Rejected?
  {
    hide Invalidate;
    if s.nextId in Rows(s.table) {
      RowsAreIn(s.table, s.nextId);
    }
    var p := NewProduct(s.nextId, req);
    assert ([p] + s.table)[1..] == s.table;
  }

  /** A patch of a known product replaces the given fields of that row and nothing else. */
  lemma UpdatePatches(s: State, id: int, patch: Patch)
    ensures
      var (s', r) := Do(s, Update(id, patch));
      if id in Rows(s.table) then
        && r.Found? && r.product.id == id
        && Rows(s'.table) == Rows(s.table)[id := r.product]
        && Patches(Rows(s.table)[id], patch, r.product)
        && s'.events == s.events && s'.nextId == s.nextId
      else s' == s && r == NotFound
  {
    hide Invalidate, Replace;
    RowsAre(s.table, id);
    if id in Rows(s.table) {
      RowsReplaced(s.table, Patched(Row(s.table, id), patch));
    }
  }

  predicate Patches(p: Product, patch: Patch, q: Product) {
    && q.sellerId == p.sellerId && q.stock == p.stock
    && q.title == (if patch.title.Some? then patch.title.value else p.title)
    && q.description == (if patch.description.Some? then patch.description.value else p.description)
    && q.category == (if patch.category.Some? then patch.category.value else p.category)
    && q.price == (if patch.price.Some? then patch.price.value else p.price)
  }

  /** A deletion removes that row and no other. */
  lemma DeleteRemoves(s: State, id: int)
    requires WellFormed(s)
    ensures
      var (s', r) := Do(s, Delete(id));
      if id in Rows(s.table) then
        && Rows(s'.table) == Rows(s.table) - {id} && r == Deleted
        && s'.events == s.events && s'.nextId == s.nextId
      else s' == s && r == NotFound
  {
    hide Invalidate, Without;
    RowsAre(s.table, id);
    if id in Rows(s.table) {
      RowsWithout(s.table, id);
    }
  }

  /**
   * A stock change is the conditional update that the orders' decrements are: accepted if and only if
   * the product exists and keeps a stock of at least 0, announced then, and otherwise without effect.
   */
  lemma StockChangesConditionally(s: State, id: int, delta: int)
    ensures
      var (s', r) := Do(s, UpdateStock(id, delta));
      if delta == 0 then s' == s && r == Rejected(ZeroDelta)
      else
        && Stocks(s'.table) == StockSaga.ApplyStockDelta(Stocks(s.table), id, delta)
        && (if id in Rows(s.table) && Rows(s.table)[id].stock + delta >= 0 then
              && var p := Rows(s.table)[id].(stock := Rows(s.table)[id].stock + delta);
              && Rows(s'.table) == Rows(s.table)[id := p] && r == Found(p)
              && s'.events == s.events + [StockUpdated(id, p.stock, delta)] && s'.nextId == s.nextId
            else s' == s && r == NotFound)
  {
    hide Invalidate, Replace, Rows;
    RowsAre(s.table, id);
    if delta != 0 && id in Rows(s.table) && Rows(s.table)[id].stock + delta >= 0 {
      var p := Row(s.table, id).(stock := Row(s.table, id).stock + delta);
      RowsReplaced(s.table, p);
    }
  }

  // ---- no stock below zero ----

  predicate Stocked(t: Table, events: seq<Event>) {
    && (forall i :: 0 <= i < |t| ==> t[i].stock >= 0)
    && (forall e :: 0 <= e < |events| ==>
          match events[e]
          case ProductCreated(p) => p.stock >= 0
          case StockUpdated(_, stock, _) => stock >= 0)
  }

  lemma DoStocked(s: State, op: Op)
    requires Stocked(s.table, s.events)
    ensures Stocked(Do(s, op).0.table, Do(s, op).0.events)
  {
    hide Invalidate, ListPage;
  }

  /** Whatever is asked, no product's stock and no stock announced is ever negative. */
  lemma {:induction false} NeverNegative(s: State, ops: seq<Op>)
    requires Stocked(s.table, s.events)
    ensures Stocked(Exec(s, ops).table, Exec(s, ops).events)
  {
    hide Do, Stocked;
    if ops == [] {
    } else {
      NeverNegative(s, ops[..|ops| - 1]);
      DoStocked(Exec(s, ops[..|ops| - 1]), ops[|ops| - 1]);
    }
  }

  // ---- reads ----

  /** In a coherent state a fetch answers from the table, leaves it alone, and caches what it found. */
  lemma FetchReads(s: State, id: int)
    requires Coherent(s)
    ensures
      var (s', r) := Do(s, GetByID(id));
      && s'.table == s.table && s'.events == s.events && s'.nextId == s.nextId
      && (if id in Rows(s.table) then
            r == Found(Rows(s.table)[id]) && s'.cache == s.cache[ItemKey(id) := Item(Rows(s.table)[id])]
          else r == NotFound && s'.cache == s.cache)
  {
    hide Rows;
    RowsAre(s.table, id);
    assert ItemFresh(s, id);
  }

  /** In a coherent state the three watched listings answer from the table, and are cached. */
  lemma ListReads(s: State, size: int)
    requires Coherent(s) && size in {20, 50, 100}
    ensures
      var (s', r) := Do(s, List(1, size));
      && r == Listing(ListPage(s.table, 1, size))
      && s' == s.(cache := s.cache[ListKey(1, size) := Items(ListPage(s.table, 1, size))])
  {
    hide ListPage;
    assert ListFresh(s, 1, size);
  }

  /** After an accepted patch a fetch returns the patched product, and fetches of others what they did before. */
  lemma ReadAfterWrite(s: State, id: int, patch: Patch, other: int)
    requires Coherent(s) && id in Rows(s.table)
    ensures
      var (s', written) := Do(s, Update(id, patch));
      && written.Found? && Patches(Rows(s.table)[id], patch, written.product)
      && Do(s', GetByID(id)).1 == written
      && (other != id ==> Do(s', GetByID(other)).1 == Do(s, GetByID(other)).1)
  {
    hide Coherent, Rows, Do, Patches;
    var s' := Do(s, Update(id, patch)).0;
    UpdatePatches(s, id, patch);
    DoCoherent(s, Update(id, patch));
    FetchReads(s', id);
    FetchReads(s', other);
    FetchReads(s, other);
  }

  /** An operation drops no entries but its own product's, the three listings, and what runs out. */
  predicate Concerns(op: Op, key: Key) {
    match op
    case Create(_) => key.ListKey?
    case Update(id, _) => key.ListKey? || key == ItemKey(id)
    case Delete(id) => key.ListKey? || key == ItemKey(id)
    case UpdateStock(id, _) => key.ListKey? || key == ItemKey(id)
    case Expire(k) => key == k
    case _ => false
  }

  lemma OtherEntriesStay(s: State, op: Op, key: Key)
    requires key in s.cache
    requires !Concerns(op, key) || (key.ListKey? && !op.Expire? && !(key.page == 1 && key.size in {20, 50, 100}))
    requires op.List? || op.GetByID? ==> s.cache[key].Items? == key.ListKey?
    ensures var s' := Do(s, op).0; key in s'.cache && s'.cache[key] == s.cache[key]
  {
    hide ListPage, Replace, Without, IndexOf, Patched, ValidateCreate;
  }
}
