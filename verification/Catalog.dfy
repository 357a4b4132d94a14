/**
 * The product table as the repository pages through it, and the two clients that walk its pages
 * while products keep being added.
 */
module Catalog {
  import opened Prelude

  datatype Product = Product(id: int, sellerId: int, title: string, description: string, category: string,
                             price: real, stock: int)

  /** The rows in the order of the listing query, newest id first. */
  type Table = seq<Product>

  predicate Descending(t: Table) {
    forall i, j :: 0 <= i < j < |t| ==> t[i].id > t[j].id
  }

  /** The largest page the repository honours; anything else outside 1.. falls back to 20. */
  const MAX_SIZE := 200

  function NormalPage(page: int): nat {
    if page < 1 then 1 else page
  }

  function NormalSize(size: int): nat {
    if size < 1 || size > MAX_SIZE then 20 else size
  }

  function Min(a: nat, b: nat): nat {
    if a < b then a else b
  }

  /** LIMIT size OFFSET (page - 1) * size. */
  function ListPage(t: Table, page: int, size: int): seq<Product> {
    var offset := (NormalPage(page) - 1) * NormalSize(size);
    t[Min(offset, |t|)..Min(offset + NormalSize(size), |t|)]
  }

  /** Pages below 1 mean the first, sizes out of 1..200 mean 20; a page holds its rows of the table. */
  lemma ListDefaults(t: Table, page: int, size: int)
    ensures page < 1 ==> ListPage(t, page, size) == ListPage(t, 1, size)
    ensures size < 1 || size > 200 ==> ListPage(t, page, size) == ListPage(t, page, 20)
    ensures
      var offset := (NormalPage(page) - 1) * NormalSize(size);
      && (page >= 1 && 1 <= size <= 200 ==> offset == (page - 1) * size)
      && |ListPage(t, page, size)| <= NormalSize(size)
      && (forall k :: 0 <= k < |ListPage(t, page, size)| ==>
            offset + k < |t| && ListPage(t, page, size)[k] == t[offset + k])
      && (|ListPage(t, page, size)| < NormalSize(size) ==> |t| <= offset + |ListPage(t, page, size)|)
  {
  }

  /** Reads of successive pages: the table each found, or a failed request. */
  type Visits = seq<Option<Table>>

  datatype Walk = Walk(items: seq<Product>, ok: bool)

  /** A client's walk from its k-th read on (counted from 0): it stops after a page that is not full. */
  function WalkFrom(visits: Visits, k: nat, size: nat): Walk
    decreases |visits| - k
  {
    if k >= |visits| || visits[k].None? then Walk([], false)
    else
      var items := ListPage(visits[k].value, k + 1, size);
      if |items| < size then Walk(items, true)
      else
        var rest := WalkFrom(visits, k + 1, size);
        Walk(items + rest.items, rest.ok)
  }

  /** Between two visits only larger ids were added; products keep their place from the end. */
  predicate GrewInto(t: Table, t': Table) {
    && |t| <= |t'|
    && forall i :: 0 <= i < |t| ==> t'[|t'| - |t| + i].id == t[i].id
  }

  ghost predicate OnlyInserts(visits: Visits) {
    forall a, b :: 0 <= a <= b < |visits| && visits[a].Some? && visits[b].Some? ==>
      GrewInto(visits[a].value, visits[b].value)
  }

  /** Inserting rows with larger ids is what GrewInto describes. */
  lemma InsertGrows(t: Table, added: Table)
    requires Descending(t) && Descending(added + t)
    ensures GrewInto(t, added + t)
    ensures forall i :: 0 <= i < |added| && t != [] ==> added[i].id > t[0].id
  {
    assert forall i :: 0 <= i < |added| ==> (added + t)[i] == added[i];
    assert forall i :: 0 <= i < |t| ==> (added + t)[|added| + i] == t[i];
  }

  predicate Has(items: seq<Product>, id: int) {
    exists j :: 0 <= j < |items| && items[j].id == id
  }

  /** The k-th page of a walk (counted from 0) starts at row `offset` = k * size. */
  lemma PageAt(t: Table, k: nat, size: nat, offset: nat)
    requires 1 <= size <= MAX_SIZE && offset == k * size
    ensures ListPage(t, k + 1, size) == t[Min(offset, |t|)..Min(offset + size, |t|)]
    ensures (k + 1) * size == offset + size
  {
  }

  lemma PageHas(t: Table, k: nat, size: nat, offset: nat, i: nat)
    requires 1 <= size <= MAX_SIZE && offset == k * size && offset <= i < |t|
    ensures i < offset + size ==> Has(ListPage(t, k + 1, size), t[i].id)
    ensures i >= offset + size ==> |ListPage(t, k + 1, size)| == size
  {
    hide ListPage;
    PageAt(t, k, size, offset);
    if i < offset + size {
      assert ListPage(t, k + 1, size)[i - offset] == t[i];
    }
  }

  lemma HasAppend(a: seq<Product>, b: seq<Product>, id: int)
    requires Has(a, id) || Has(b, id)
    ensures Has(a + b, id)
  {
    if Has(a, id) {
      var j :| 0 <= j < |a| && a[j].id == id;
      assert (a + b)[j].id == id;
    } else {
      var j :| 0 <= j < |b| && b[j].id == id;
      assert (a + b)[|a| + j].id == id;
    }
  }

  /** The row `fromEnd` places before the last one is still ahead of the walk, so the walk meets it. */
  lemma {:induction false} WalkMeets(visits: Visits, k: nat, size: nat, offset: nat, fromEnd: nat, id: int)
    requires 1 <= size <= MAX_SIZE && OnlyInserts(visits) && WalkFrom(visits, k, size).ok && offset == k * size
    requires k < |visits| && visits[k].Some? && fromEnd < |visits[k].value|
    requires var t := visits[k].value; t[|t| - 1 - fromEnd].id == id && |t| - 1 - fromEnd >= offset
    ensures Has(WalkFrom(visits, k, size).items, id)
    decreases |visits| - k
  {
    hide ListPage, Has;
    var t := visits[k].value;
    var i := |t| - 1 - fromEnd;
    var items := ListPage(t, k + 1, size);
    PageHas(t, k, size, offset, i);
    if |items| < size {
    } else {
      var rest := WalkFrom(visits, k + 1, size);
      if i >= offset + size {
        var t' := visits[k + 1].value;
        assert GrewInto(t, t');
        assert t'[|t'| - |t| + i].id == t[i].id;
        PageAt(t, k, size, offset);
        WalkMeets(visits, k + 1, size, offset + size, fromEnd, id);
      }
      HasAppend(items, rest.items, id);
    }
  }

  /**
   * A walk that completes while larger ids are being added has returned every product that
   * existed when it started.
   */
  lemma WalkMissesNothing(visits: Visits, size: nat, i: nat)
    requires 1 <= size <= MAX_SIZE && OnlyInserts(visits) && WalkFrom(visits, 0, size).ok
    requires visits != [] && visits[0].Some? && i < |visits[0].value|
    ensures Has(WalkFrom(visits, 0, size).items, visits[0].value[i].id)
  {
    var t := visits[0].value;
    WalkMeets(visits, 0, size, 0, |t| - 1 - i, t[i].id);
  }

  function Still(t: Table, n: nat): Visits {
    seq(n, i => Some(t))
  }

  lemma {:induction false} StillWalk(t: Table, n: nat, k: nat, size: nat, offset: nat, end: nat)
    requires 1 <= size <= MAX_SIZE && k <= n && offset == k * size <= |t| < end && end == n * size
    ensures WalkFrom(Still(t, n), k, size) == Walk(t[offset..], true)
    decreases n - k
  {
    hide ListPage;
    var items := ListPage(t, k + 1, size);
    PageAt(t, k, size, offset);
    assert k < n;
    if |items| == size {
      StillWalk(t, n, k + 1, size, offset + size, end);
      assert items + t[offset + size..] == t[offset..];
    } else {
      assert items == t[offset..];
    }
  }

  /**
   * On a table that does not change, a walk returns exactly the table, each product once and in
   * order, if and only if the repository honours its page size (or 20 rows are all there is).
   */
  lemma StillWalkIsTable(t: Table, n: nat, size: nat)
    requires size >= 1 && n >= 1 && n * size > |t|
    ensures WalkFrom(Still(t, n), 0, size) == Walk(t, true) <==> size <= 200 || |t| <= 20
  {
    if size <= MAX_SIZE {
      StillWalk(t, n, 0, size, 0, n * size);
    } else {
      var items := ListPage(t, 1, size);
      assert WalkFrom(Still(t, n), 0, size) == Walk(items, true);
      assert items == t[..Min(20, |t|)];
    }
  }

  /** stock-monitor's page size, and the search bootstrap's. */
  const MONITOR_PAGE := 100
  const BOOTSTRAP_PAGE := 200

  /** Replies to the successive page requests of a client; None is a request that failed. */
  type Replies = seq<Option<seq<Product>>>

  /** What a client makes of the replies: it stops after a page that is not full. */
  function Collect(replies: Replies, size: nat): Walk {
    if replies == [] || replies[0].None? then Walk([], false)
    else
      var items := replies[0].value;
      if |items| < size then Walk(items, true)
      else
        var rest := Collect(replies[1..], size);
        Walk(items + rest.items, rest.ok)
  }

  /** The replies of a service that reads each page from the table. */
  function Pages(visits: Visits, size: nat): Replies {
    seq(|visits|, k requires 0 <= k < |visits| =>
      if visits[k].None? then None else Some(ListPage(visits[k].value, k + 1, size)))
  }

  lemma {:induction false} CollectPages(visits: Visits, k: nat, size: nat)
    requires k <= |visits|
    ensures Collect(Pages(visits, size)[k..], size) == WalkFrom(visits, k, size)
    decreases |visits| - k
  {
    hide ListPage;
    if k == |visits| || visits[k].None? || |ListPage(visits[k].value, k + 1, size)| < size {
    } else {
      assert Pages(visits, size)[k..][1..] == Pages(visits, size)[k + 1..];
      CollectPages(visits, k + 1, size);
    }
  }

  /** Walks the pages and returns every product, or nothing at all after a failed page. */
  method FetchAll(replies: Replies) returns (r: Option<seq<Product>>)
    ensures
      var w := Collect(replies, 100);
      r == if w.ok then Some(w.items) else None
  {
    var all: seq<Product> := [];
    var page := 1;
    while true
      invariant 1 <= page <= |replies| + 1
      invariant
        var w, rest := Collect(replies, MONITOR_PAGE), Collect(replies[page - 1..], MONITOR_PAGE);
        w.ok == rest.ok && w.items == all + rest.items
      decreases |replies| - page
    {
      if page > |replies| || replies[page - 1].None? {
        return None;
      }
      var items := replies[page - 1].value;
      if |items| == 0 {
        assert all + items == all;
        break;
      }
      all := all + items;
      if |items| < MONITOR_PAGE {
        break;
      }
      assert replies[page - 1..][1..] == replies[page..];
      page := page + 1;
    }
    return Some(all);
  }

  // ---- the search bootstrap ----

  type Index = map<int, Product>

  /** Documents written for the first `n` items; a write the cluster refuses is only logged. */
  function IndexAll(index: Index, items: seq<Product>, up: nat -> bool, n: nat): Index
    requires n <= |items|
  {
    if n == 0 then index
    else
      var before := IndexAll(index, items, up, n - 1);
      if up(n - 1) then before[items[n - 1].id := items[n - 1]] else before
  }

  lemma {:induction false} IndexHolds(index: Index, items: seq<Product>, up: nat -> bool, n: nat)
    requires n <= |items| && forall i: nat :: i < n ==> up(i)
    ensures forall i :: 0 <= i < n ==> items[i].id in IndexAll(index, items, up, n)
    ensures forall id :: id in index ==> id in IndexAll(index, items, up, n)
    ensures forall id :: id in IndexAll(index, items, up, n) ==>
      var doc := IndexAll(index, items, up, n)[id]; (id in index && doc == index[id]) || (doc in items && doc.id == id)
  {
    if n == 0 {
    } else {
      IndexHolds(index, items, up, n - 1);
    }
  }

  /** A product's document is the last one written for it. */
  lemma {:induction false} IndexHasLatest(index: Index, items: seq<Product>, up: nat -> bool, n: nat, i: nat)
    requires i < n <= |items| && up(i) && forall k: nat :: i < k < n && up(k) ==> items[k].id != items[i].id
    ensures items[i].id in IndexAll(index, items, up, n) && IndexAll(index, items, up, n)[items[i].id] == items[i]
  {
    if n == i + 1 {
    } else {
      IndexHasLatest(index, items, up, n - 1, i);
    }
  }

  /** If pages and writes all succeed, the index ends up with every product that existed at the start. */
  lemma BootstrapMissesNothing(index: Index, visits: Visits, up: nat -> bool, i: nat)
    requires OnlyInserts(visits) && WalkFrom(visits, 0, BOOTSTRAP_PAGE).ok && forall n: nat :: up(n)
    requires visits != [] && visits[0].Some? && i < |visits[0].value|
    ensures
      var items := WalkFrom(visits, 0, BOOTSTRAP_PAGE).items;
      visits[0].value[i].id in IndexAll(index, items, up, |items|)
  {
    WalkMissesNothing(visits, BOOTSTRAP_PAGE, i);
    var items, id := WalkFrom(visits, 0, BOOTSTRAP_PAGE).items, visits[0].value[i].id;
    var j :| 0 <= j < |items| && items[j].id == id;
    IndexHolds(index, items, up, |items|);
  }

  class SearchService {
    var index: Index

    constructor ()
      ensures index == map[]
    {
      index := map[];
    }

    /** A refused write raises in strict mode and is only logged otherwise. */
    method IndexProduct(p: Product, up: bool, strict: bool) returns (raised: bool)
      modifies this
      ensures index == if up then old(index)[p.id := p] else old(index)
      ensures raised <==> strict && !up
    {
      if !up {
        return strict;
      }
      index := index[p.id := p];
      return false;
    }

    /** Pages through the catalog and upserts each product; a failed page ends it early. */
    method Bootstrap(replies: Replies, up: nat -> bool) returns (total: nat)
      modifies this
      ensures
        var items := Collect(replies, 200).items;
        total == |items| && index == IndexAll(old(index), items, up, |items|)
    {
      ghost var all := Collect(replies, BOOTSTRAP_PAGE).items;
      var page := 1;
      total := 0;
      while true
        invariant 1 <= page <= |replies| + 1 && total <= |all|
        invariant all[total..] == Collect(replies[page - 1..], BOOTSTRAP_PAGE).items
        invariant index == IndexAll(old(index), all, up, total)
        decreases |replies| - page
      {
        if page > |replies| || replies[page - 1].None? {
          return;
        }
        var items := replies[page - 1].value;
        ghost var start := total;
        assert replies[page - 1..][1..] == replies[page..];
        assert items <= all[start..];
        var i := 0;
        while i < |items|
          invariant i <= |items| && total == start + i
          invariant index == IndexAll(old(index), all, up, total)
        {
          assert all[start..][i] == all[start + i];
          var _ := IndexProduct(items[i], up(total), false);
          total := total + 1;
          i := i + 1;
        }
        if |items| < BOOTSTRAP_PAGE {
          break;
        }
        assert all[start..][|items|..] == all[total..];
        page := page + 1;
      }
    }
  }
}
