/**
 * products-service in front of its table: reads go through a cache, writes invalidate by key.
 * Operations do not overlap here and cache commands work; CacheStaleness covers the other runs.
 */
module CacheAside {
  import opened Prelude
  import opened Catalog

  /** `products:list:p=..:s=..` and `products:item:..`, as they were asked for. */
  datatype Key = ListKey(page: int, size: int) | ItemKey(id: int)

  datatype Value = Items(items: seq<Product>) | Item(product: Product)

  /** Messages for the product-created and stock-updates topics. */
  datatype Event = ProductCreated(product: Product) | StockUpdated(id: int, stock: int, delta: int)

  /** `nextId` is the serial of the table, `events` what was handed to the publisher. */
  datatype State = State(table: Table, nextId: int, cache: map<Key, Value>, events: seq<Event>)

  datatype CreateRequest = CreateRequest(sellerId: int, title: string, description: string, category: string,
                                         price: real, stock: int)

  /** Fields left out of a patch stay as they are. */
  datatype Patch = Patch(title: Option<string>, description: Option<string>, category: Option<string>,
                         price: Option<real>)

  datatype Invalid = SellerRequired | TitleRequired | NegativePrice | NegativeStock | ZeroDelta

  datatype Reply = Listing(items: seq<Product>) | Found(product: Product) | Deleted | NotFound | Rejected(why: Invalid)

  datatype Op =
    | List(page: int, size: int)
    | GetByID(id: int)
    | Create(req: CreateRequest)
    | Update(id: int, patch: Patch)
    | Delete(id: int)
    | UpdateStock(id: int, delta: int)
    | Expire(key: Key)  // the TTL of one entry runs out

  // ---- the table ----

  /** Position of the row with that id, or the size of the table. */
  function IndexOf(t: Table, id: int): (i: nat)
    ensures i <= |t| && (i < |t| ==> t[i].id == id)
    ensures forall k :: 0 <= k < i ==> t[k].id != id
  {
    if t == [] || t[0].id == id then 0 else 1 + IndexOf(t[1..], id)
  }

  predicate Knows(t: Table, id: int) {
    IndexOf(t, id) < |t|
  }

  function Row(t: Table, id: int): Product
    requires Knows(t, id)
  {
    t[IndexOf(t, id)]
  }

  function Replace(t: Table, p: Product): Table
    requires Knows(t, p.id)
  {
    t[IndexOf(t, p.id) := p]
  }

  function Without(t: Table, id: int): Table
    requires Knows(t, id)
  {
    t[..IndexOf(t, id)] + t[IndexOf(t, id) + 1..]
  }

  /** A patch replaces the fields it gives and keeps all others; it cannot give id, seller or stock. */
  function Patched(p: Product, patch: Patch): (r: Product)
    ensures r.id == p.id && r.sellerId == p.sellerId && r.stock == p.stock
    ensures patch.title == Some(r.title) || (patch.title.None? && r.title == p.title)
    ensures patch.description == Some(r.description) || (patch.description.None? && r.description == p.description)
    ensures patch.category == Some(r.category) || (patch.category.None? && r.category == p.category)
    ensures patch.price == Some(r.price) || (patch.price.None? && r.price == p.price)
  {
    p.(title := if patch.title.Some? then patch.title.value else p.title,
       description := if patch.description.Some? then patch.description.value else p.description,
       category := if patch.category.Some? then patch.category.value else p.category,
       price := if patch.price.Some? then patch.price.value else p.price)
  }

  function NewProduct(id: int, req: CreateRequest): Product {
    Product(id, req.sellerId, req.title, req.description, req.category, req.price, req.stock)
  }

  function ValidateCreate(req: CreateRequest): (r: Option<Invalid>)
    ensures r.None? <==> req.sellerId > 0 && |req.title| > 0 && req.price >= 0.0 && req.stock >= 0
    ensures r == Some(SellerRequired) <==> req.sellerId <= 0
    ensures r == Some(TitleRequired) <==> req.sellerId > 0 && |req.title| == 0
    ensures r == Some(NegativePrice) <==> req.sellerId > 0 && |req.title| > 0 && req.price < 0.0
  {
    if req.sellerId <= 0 then Some(SellerRequired)
    else if req.title == "" then Some(TitleRequired)
    else if req.price < 0.0 then Some(NegativePrice)
    else if req.stock < 0 then Some(NegativeStock)
    else None
  }

  // ---- the service ----

  const WATCHED: set<Key> := {ListKey(1, 20), ListKey(1, 50), ListKey(1, 100)}

  function Invalidate(cache: map<Key, Value>, id: int): map<Key, Value> {
    cache - (if id > 0 then WATCHED + {ItemKey(id)} else WATCHED)
  }

  function Do(s: State, op: Op): (State, Reply) {
    match op
    case List(page, size) =>
      if ListKey(page, size) in s.cache && s.cache[ListKey(page, size)].Items? then
        (s, Listing(s.cache[ListKey(page, size)].items))
      else
        var items := ListPage(s.table, page, size);
        (s.(cache := s.cache[ListKey(page, size) := Items(items)]), Listing(items))
    case GetByID(id) =>
      if ItemKey(id) in s.cache && s.cache[ItemKey(id)].Item? then (s, Found(s.cache[ItemKey(id)].product))
      else if !Knows(s.table, id) then (s, NotFound)
      else (s.(cache := s.cache[ItemKey(id) := Item(Row(s.table, id))]), Found(Row(s.table, id)))
    case Create(req) =>
      if ValidateCreate(req).Some? then (s, Rejected(ValidateCreate(req).value))
      else
        var p := NewProduct(s.nextId, req);
        (State([p] + s.table, s.nextId + 1, Invalidate(s.cache, 0), s.events + [ProductCreated(p)]), Found(p))
    case Update(id, patch) =>
      if !Knows(s.table, id) then (s, NotFound)
      else
        var p := Patched(Row(s.table, id), patch);
        (s.(table := Replace(s.table, p), cache := Invalidate(s.cache, id)), Found(p))
    case Delete(id) =>
      if !Knows(s.table, id) then (s, NotFound)
      else (s.(table := Without(s.table, id), cache := Invalidate(s.cache, id)), Deleted)
    case UpdateStock(id, delta) =>
      if delta == 0 then (s, Rejected(ZeroDelta))
      else if !Knows(s.table, id) || Row(s.table, id).stock + delta < 0 then (s, NotFound)
      else
        var p := Row(s.table, id);
        var p' := p.(stock := p.stock + delta);
        (s.(table := Replace(s.table, p'), cache := Invalidate(s.cache, id),
            events := s.events + [StockUpdated(id, p'.stock, delta)]),
         Found(p'))
    case Expire(key) => (s.(cache := s.cache - {key}), Deleted)
  }

  function Exec(s: State, ops: seq<Op>): State {
    if ops == [] then s else Do(Exec(s, ops[..|ops| - 1]), ops[|ops| - 1]).0
  }

  // ---- coherence ----

  ghost predicate GoodTable(t: Table, nextId: int) {
    Descending(t) && (forall i :: 0 <= i < |t| ==> 0 < t[i].id < nextId) && nextId > 0
  }

  ghost predicate WellFormed(s: State) {
    GoodTable(s.table, s.nextId)
  }

  ghost predicate ListFresh(s: State, page: int, size: int) {
    ListKey(page, size) in s.cache ==> s.cache[ListKey(page, size)] == Items(ListPage(s.table, page, size))
  }

  ghost predicate ItemFresh(s: State, id: int) {
    ItemKey(id) in s.cache ==> Knows(s.table, id) && s.cache[ItemKey(id)] == Item(Row(s.table, id))
  }

  ghost predicate Coherent(s: State) {
    && WellFormed(s)
    && (forall id :: ItemFresh(s, id))
    && (forall page, size :: ListKey(page, size) in WATCHED ==> ListFresh(s, page, size))
  }

  lemma RowIs(t: Table, i: nat)
    requires Descending(t) && i < |t|
    ensures IndexOf(t, t[i].id) == i
  {
  }

  /** The two tables agree on every row but that one. */
  ghost predicate SameButFor(t: Table, t': Table, id: int) {
    && Descending(t) && Descending(t')
    && (forall i :: 0 <= i < |t| && t[i].id != id ==> t[i] in t')
    && (forall i :: 0 <= i < |t'| && t'[i].id != id ==> t'[i] in t)
  }

  lemma SameRow(t: Table, t': Table, id: int, other: int)
    requires SameButFor(t, t', id) && other != id && Knows(t, other)
    ensures Knows(t', other) && Row(t', other) == Row(t, other)
  {
    var i :| 0 <= i < |t| && t[i].id == other;
    RowIs(t, i);
    var j :| 0 <= j < |t'| && t'[j] == t[i];
    RowIs(t', j);
  }

  /** A write to one row, with its invalidation, keeps the cache coherent. */
  lemma WriteCoherent(s: State, s': State, id: int)
    requires Coherent(s) && WellFormed(s') && SameButFor(s.table, s'.table, id)
    requires s'.cache == Invalidate(s.cache, id) || (ItemKey(id) !in s.cache && s'.cache == Invalidate(s.cache, 0))
    requires id > 0
    ensures Coherent(s')
  {
    forall other
      ensures ItemFresh(s', other)
    {
      if other != id && ItemKey(other) in s'.cache {
        assert ItemFresh(s, other);
        SameRow(s.table, s'.table, id, other);
      }
    }
  }

  lemma ReplaceCoherent(s: State, s': State, p: Product)
    requires Coherent(s) && Knows(s.table, p.id) && s'.nextId == s.nextId
    requires s'.table == Replace(s.table, p) && s'.cache == Invalidate(s.cache, p.id)
    ensures Coherent(s')
  {
    var i := IndexOf(s.table, p.id);
    assert SameButFor(s.table, s'.table, p.id) by {
      assert forall k :: 0 <= k < |s'.table| ==>
        s'.table[k].id == s.table[k].id && (k != i ==> s'.table[k] == s.table[k]);
    }
    WriteCoherent(s, s', p.id);
  }

  lemma CreateCoherent(s: State, req: CreateRequest)
    requires Coherent(s) && ValidateCreate(req).None?
    ensures Coherent(Do(s, Create(req)).0)
  {
    var s' := Do(s, Create(req)).0;
    assert ItemFresh(s, s.nextId);
    PushAgrees(s.table, NewProduct(s.nextId, req));
    WriteCoherent(s, s', s.nextId);
  }

  lemma PushAgrees(t: Table, p: Product)
    requires Descending(t) && forall i :: 0 <= i < |t| ==> t[i].id < p.id
    ensures SameButFor(t, [p] + t, p.id)
  {
    var t' := [p] + t;
    assert forall i :: 0 <= i < |t| ==> t'[i + 1] == t[i];
    assert forall i :: 0 < i < |t'| ==> t'[i] == t[i - 1];
  }

  lemma DeleteCoherent(s: State, id: int)
    requires Coherent(s) && Knows(s.table, id)
    ensures Coherent(Do(s, Delete(id)).0)
  {
    CutAgrees(s.table, IndexOf(s.table, id));
    WriteCoherent(s, Do(s, Delete(id)).0, id);
  }

  lemma CutAgrees(t: Table, i: nat)
    requires Descending(t) && i < |t|
    ensures SameButFor(t, t[..i] + t[i + 1..], t[i].id)
  {
    var t' := t[..i] + t[i + 1..];
    assert forall k :: 0 <= k < |t'| ==> t'[k] == t[if k < i then k else k + 1];
    forall k | 0 <= k < |t| && k != i
      ensures t[k] in t'
    {
      assert t'[if k < i then k else k - 1] == t[k];
    }
  }

  lemma DoCoherent(s: State, op: Op)
    requires Coherent(s)
    ensures Coherent(Do(s, op).0)
  {
    hide Coherent, Replace, Invalidate, Without, IndexOf;
    var s' := Do(s, op).0;
    match op {
      case Create(req) =>
        if ValidateCreate(req).None? {
          CreateCoherent(s, req);
        }
      case Update(id, patch) =>
        if Knows(s.table, id) {
          ReplaceCoherent(s, s', Patched(Row(s.table, id), patch));
        }
      case Delete(id) =>
        if Knows(s.table, id) {
          DeleteCoherent(s, id);
        }
      case UpdateStock(id, delta) =>
        if s'.events != s.events {
          ReplaceCoherent(s, s', Row(s.table, id).(stock := Row(s.table, id).stock + delta));
        }
      case _ => ReadCoherent(s, op);
    }
  }

  lemma ReadCoherent(s: State, op: Op)
    requires Coherent(s) && (op.List? || op.GetByID? || op.Expire?)
    ensures Coherent(Do(s, op).0)
  {
    var s' := Do(s, op).0;
    forall id
      ensures ItemFresh(s', id)
    {
      assert ItemFresh(s, id);
    }
    forall page, size | ListKey(page, size) in WATCHED
      ensures ListFresh(s', page, size)
    {
      assert ListFresh(s, page, size);
    }
  }

  /** After any sequence of operations every cached item, and the three watched listings, are current. */
  lemma {:induction false} AlwaysCoherent(s: State, ops: seq<Op>)
    requires Coherent(s)
    ensures Coherent(Exec(s, ops))
  {
    if ops == [] {
    } else {
      AlwaysCoherent(s, ops[..|ops| - 1]);
      DoCoherent(Exec(s, ops[..|ops| - 1]), ops[|ops| - 1]);
    }
  }

  lemma PushGood(t: Table, nextId: int, p: Product)
    requires GoodTable(t, nextId) && p.id == nextId
    ensures GoodTable([p] + t, nextId + 1)
  {
    assert forall i :: 0 < i < |[p] + t| ==> ([p] + t)[i] == t[i - 1];
  }

  lemma ReplaceGood(t: Table, nextId: int, p: Product)
    requires GoodTable(t, nextId) && Knows(t, p.id)
    ensures GoodTable(Replace(t, p), nextId)
  {
    assert forall i :: 0 <= i < |t| ==> Replace(t, p)[i].id == t[i].id;
  }

  lemma WithoutGood(t: Table, nextId: int, id: int)
    requires GoodTable(t, nextId) && Knows(t, id)
    ensures GoodTable(Without(t, id), nextId)
  {
    var i := IndexOf(t, id);
    assert forall k :: 0 <= k < |Without(t, id)| ==> Without(t, id)[k] == t[if k < i then k else k + 1];
  }

  lemma DoWellFormed(s: State, op: Op)
    requires WellFormed(s)
    ensures WellFormed(Do(s, op).0)
  {
    hide ListPage, Invalidate, ValidateCreate, IndexOf, Replace, Without;
    match op {
      case Create(req) => PushGood(s.table, s.nextId, NewProduct(s.nextId, req));
      case Update(id, patch) =>
        if Knows(s.table, id) {
          ReplaceGood(s.table, s.nextId, Patched(Row(s.table, id), patch));
        }
      case UpdateStock(id, delta) =>
        if Knows(s.table, id) {
          ReplaceGood(s.table, s.nextId, Row(s.table, id).(stock := Row(s.table, id).stock + delta));
        }
      case Delete(id) =>
        if Knows(s.table, id) {
          WithoutGood(s.table, s.nextId, id);
        }
      case _ =>
    }
  }

  // ---- which listings can go stale ----

  ghost predicate Initial(s: State) {
    WellFormed(s) && s.cache == map[]
  }

  ghost predicate NeverStale(page: int, size: int) {
    forall s: State, ops: seq<Op> :: Initial(s) ==> ListFresh(Exec(s, ops), page, size)
  }

  /** A table of n rows. */
  function Rows(n: nat): Table {
    seq(n, i requires 0 <= i < n => Product(n - i, 1, "p", "", "", 1.0, 1))
  }

  const BOOK := CreateRequest(1, "book", "", "", 1.0, 1)

  /** A table that ends where the page begins leaves it empty; one more row is alone on it. */
  lemma PageEdge(t: Table, t': Table, page: int, size: int)
    requires |t| == (NormalPage(page) - 1) * NormalSize(size) && |t'| == |t| + 1
    ensures ListPage(t, page, size) == [] && |ListPage(t', page, size)| == 1
  {
  }

  /** Filled when the page was just empty, an unwatched listing misses the row that the next create pushes onto it. */
  lemma UnwatchedGoesStale(page: int, size: int)
    requires ListKey(page, size) !in WATCHED
    ensures !NeverStale(page, size)
  {
    hide ListPage, Exec, ListFresh, Initial, Rows;
    var n := (NormalPage(page) - 1) * NormalSize(size);
    var s := State(Rows(n), n + 1, map[], []);
    RowsInitial(n);
    PageEdge(s.table, [NewProduct(n + 1, BOOK)] + s.table, page, size);
    StaleAfterCreate(s, page, size);
  }

  lemma RowsInitial(n: nat)
    ensures |Rows(n)| == n && Initial(State(Rows(n), n + 1, map[], []))
  {
  }

  lemma StaleAfterCreate(s: State, page: int, size: int)
    requires ListKey(page, size) !in WATCHED && s.cache == map[]
    requires ListPage(s.table, page, size) != ListPage([NewProduct(s.nextId, BOOK)] + s.table, page, size)
    ensures !ListFresh(Exec(s, [List(page, size), Create(BOOK)]), page, size)
  {
    hide ListPage;
    var ops := [List(page, size), Create(BOOK)];
    var s1 := Do(s, List(page, size)).0;
    assert ops[..1] == [List(page, size)] && ops[..1][..0] == [];
    assert Exec(s, ops[..1]) == s1;
    assert Exec(s, ops) == Do(s1, Create(BOOK)).0;
  }

  /**
   * Exactly the three watched listings are always current. Every other one can be stale until its
   * TTL runs out, among them the one served when the client asks for no page and size: (0, 0).
   */
  lemma OnlyWatchedNeverStale(page: int, size: int)
    ensures NeverStale(page, size) <==> page == 1 && size in {20, 50, 100}
  {
    if ListKey(page, size) in WATCHED {
      forall s: State, ops: seq<Op> | Initial(s)
        ensures ListFresh(Exec(s, ops), page, size)
      {
        AlwaysCoherent(s, ops);
      }
    } else {
      UnwatchedGoesStale(page, size);
    }
  }

  /**
   * Later pages are not watched, so a page walk through the service can lose a product: with the
   * empty second page of a 100-row catalog cached, one create pushes the last row off the first
   * page and onto a page that is served from the cache. The walk sees a new first page and an old
   * second one, and completes without it.
   */
  lemma CachedPageHidesProduct(s: State, req: CreateRequest)
    requires Initial(s) && |s.table| == MONITOR_PAGE && ValidateCreate(req).None?
    ensures
      var s' := Exec(s, [List(2, MONITOR_PAGE), Create(req)]);
      var first := Do(s', List(1, MONITOR_PAGE));
      var second := Do(first.0, List(2, MONITOR_PAGE));
      var seen := [Some(s'.table), Some(s.table)];
      var lost := s.table[MONITOR_PAGE - 1].id;
      && first.1 == Listing(ListPage(s'.table, 1, MONITOR_PAGE))
      && second.1 == Listing(ListPage(s.table, 2, MONITOR_PAGE))
      && Knows(s'.table, lost)
      && WalkFrom(seen, 0, MONITOR_PAGE).ok && !Has(WalkFrom(seen, 0, MONITOR_PAGE).items, lost)
  {
    hide ListPage, Has, WalkFrom, IndexOf, ValidateCreate;
    var ops := [List(2, MONITOR_PAGE), Create(req)];
    var s1 := Do(s, List(2, MONITOR_PAGE)).0;
    var s2 := Do(s1, Create(req)).0;
    assert ops[..1] == [List(2, MONITOR_PAGE)] && ops[..1][..0] == [];
    assert Exec(s, ops[..1]) == s1;
    assert Exec(s, ops) == s2;
    PushedOff(s.table, s2.table);
    assert s1.cache[ListKey(2, MONITOR_PAGE)] == Items(ListPage(s.table, 2, MONITOR_PAGE));
  }

  lemma PushedOff(t: Table, t': Table)
    requires Descending(t') && |t| == MONITOR_PAGE && |t'| == MONITOR_PAGE + 1 && t'[1..] == t
    ensures
      var seen := [Some(t'), Some(t)];
      var lost := t[MONITOR_PAGE - 1].id;
      && Knows(t', lost)
      && WalkFrom(seen, 0, MONITOR_PAGE).ok && !Has(WalkFrom(seen, 0, MONITOR_PAGE).items, lost)
  {
    var seen := [Some(t'), Some(t)];
    assert t'[MONITOR_PAGE] == t[MONITOR_PAGE - 1];
    assert ListPage(t', 1, MONITOR_PAGE) == t'[..MONITOR_PAGE];
    assert ListPage(t, 2, MONITOR_PAGE) == [];
    assert WalkFrom(seen, 1, MONITOR_PAGE) == Walk([], true);
    assert WalkFrom(seen, 0, MONITOR_PAGE) == Walk(t'[..MONITOR_PAGE], true);
  }

  // ---- the service object ----

  class ProductService {
    var table: Table
    var nextId: int
    var cache: map<Key, Value>
    var events: seq<Event>

    function View(): State
      reads this
    {
      State(table, nextId, cache, events)
    }

    constructor ()
      ensures View() == State([], 1, map[], []) && Coherent(View())
    {
      table, nextId, cache, events := [], 1, map[], [];
    }

    method InvalidateKeys(id: int)
      modifies this`cache
      ensures cache == Invalidate(old(cache), id)
    {
      var keys := {ListKey(1, 20), ListKey(1, 50), ListKey(1, 100)};
      if id > 0 {
        keys := keys + {ItemKey(id)};
      }
      cache := cache - keys;
    }

    method Find(id: int) returns (i: nat)
      ensures i == IndexOf(table, id)
    {
      i := 0;
      while i < |table| && table[i].id != id
        invariant i <= |table| && forall k :: 0 <= k < i ==> table[k].id != id
      {
        i := i + 1;
      }
    }

    method ListProducts(page: int, size: int) returns (r: Reply)
      modifies this
      ensures (View(), r) == Do(old(View()), List(page, size))
    {
      var key := ListKey(page, size);
      if key in cache && cache[key].Items? {
        return Listing(cache[key].items);
      }
      var items := ListPage(table, page, size);
      cache := cache[key := Items(items)];
      return Listing(items);
    }

    method GetProduct(id: int) returns (r: Reply)
      modifies this
      ensures (View(), r) == Do(old(View()), GetByID(id))
    {
      var key := ItemKey(id);
      if key in cache && cache[key].Item? {
        return Found(cache[key].product);
      }
      var i := Find(id);
      if i == |table| {
        return NotFound;
      }
      cache := cache[key := Item(table[i])];
      return Found(table[i]);
    }

    method CreateProduct(req: CreateRequest) returns (r: Reply)
      modifies this
      ensures (View(), r) == Do(old(View()), Create(req))
    {
      var invalid := ValidateCreate(req);
      if invalid.Some? {
        return Rejected(invalid.value);
      }
      var p := Product(nextId, req.sellerId, req.title, req.description, req.category, req.price, req.stock);
      table, nextId := [p] + table, nextId + 1;
      InvalidateKeys(0);
      events := events + [ProductCreated(p)];
      return Found(p);
    }

    method UpdateProduct(id: int, patch: Patch) returns (r: Reply)
      modifies this
      ensures (View(), r) == Do(old(View()), Update(id, patch))
    {
      var i := Find(id);
      if i == |table| {
        return NotFound;
      }
      var existing := table[i];
      if patch.title.Some? {
        existing := existing.(title := patch.title.value);
      }
      if patch.description.Some? {
        existing := existing.(description := patch.description.value);
      }
      if patch.category.Some? {
        existing := existing.(category := patch.category.value);
      }
      if patch.price.Some? {
        existing := existing.(price := patch.price.value);
      }
      table := table[i := existing];
      InvalidateKeys(id);
      return Found(existing);
    }

    method DeleteProduct(id: int) returns (r: Reply)
      modifies this
      ensures (View(), r) == Do(old(View()), Delete(id))
    {
      var i := Find(id);
      if i == |table| {
        return NotFound;
      }
      table := table[..i] + table[i + 1..];
      InvalidateKeys(id);
      return Deleted;
    }

    method ChangeStock(id: int, delta: int) returns (r: Reply)
      modifies this
      ensures (View(), r) == Do(old(View()), UpdateStock(id, delta))
    {
      if delta == 0 {
        return Rejected(ZeroDelta);
      }
      var i := Find(id);
      if i == |table| || table[i].stock + delta < 0 {
        return NotFound;
      }
      var p := table[i].(stock := table[i].stock + delta);
      table := table[i := p];
      InvalidateKeys(id);
      events := events + [StockUpdated(id, p.stock, delta)];
      return Found(p);
    }
  }
}
