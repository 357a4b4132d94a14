/**
 * Page walks through the caching service: exactly when a client that walks the pages of a growing
 * catalog gets every product that was in it when the walk started.
 */
module CatalogWalk {
  import opened Prelude
  import opened Catalog
  import opened CacheAside

  // ---- one walk ----

  /** The cache answers that request. */
  predicate Shown(s: State, page: int, size: int) {
    ListKey(page, size) in s.cache && s.cache[ListKey(page, size)].Items?
  }

  function Answer(s: State, page: int, size: int): (items: seq<Product>)
    ensures items == if Shown(s, page, size) then s.cache[ListKey(page, size)].items else ListPage(s.table, page, size)
  {
    Do(s, List(page, size)).1.items
  }

  /** An operation; one whose deletion of keys fails or comes later; such a deletion. */
  datatype Step = Whole(op: Op) | StoreOnly(op: Op) | Drop(id: int)

  function Act(s: State, step: Step): State {
    match step
    case Whole(op) => Do(s, op).0
    case StoreOnly(op) => Do(s, op).0.(cache := s.cache)
    case Drop(id) => s.(cache := Invalidate(s.cache, id))
  }

  function ActAll(s: State, steps: seq<Step>): State {
    if steps == [] then s else Act(ActAll(s, steps[..|steps| - 1]), steps[|steps| - 1])
  }

  /** The replies to a walk from its k-th read on (counted from 0); gaps[i] happens before the next read but i. */
  function Serve(s: State, gaps: seq<seq<Step>>, k: nat, size: nat): Replies
    decreases |gaps|
  {
    if gaps == [] then []
    else
      var s' := ActAll(s, gaps[0]);
      [Some(Answer(s', k + 1, size))] + Serve(Do(s', List(k + 1, size)).0, gaps[1..], k + 1, size)
  }

  /** Nothing is deleted from the catalog. */
  predicate Keeps(step: Step) {
    step.Drop? || !step.op.Delete?
  }

  /** Besides, nobody else lists with this page size. */
  predicate Quiet(step: Step, size: int) {
    Keeps(step) && (step.Drop? || (step.op.List? ==> step.op.size != size))
  }

  predicate AllQuiet(steps: seq<Step>, size: int) {
    forall i :: 0 <= i < |steps| ==> Quiet(steps[i], size)
  }

  predicate QuietGaps(gaps: seq<seq<Step>>, size: int) {
    forall i :: 0 <= i < |gaps| ==> AllQuiet(gaps[i], size)
  }

  predicate HasAll(items: seq<Product>, t: Table) {
    forall i :: 0 <= i < |t| ==> Has(items, t[i].id)
  }

  /** Every walk that completes returns every product that was in the catalog before it. */
  ghost predicate Complete(s: State, size: nat) {
    forall gaps :: QuietGaps(gaps, size) && Collect(Serve(s, gaps, 0, size), size).ok ==>
      HasAll(Collect(Serve(s, gaps, 0, size), size).items, s.table)
  }

  // ---- what happens between two reads ----

  /** Entries of that page size are dropped at most. */
  ghost predicate ShowsNoMore(s: State, s': State, size: int) {
    forall page :: Shown(s', page, size) ==> Shown(s, page, size) && Answer(s', page, size) == Answer(s, page, size)
  }

  lemma GrewTwice(a: Table, b: Table, c: Table)
    requires GrewInto(a, b) && GrewInto(b, c)
    ensures GrewInto(a, c)
  {
    forall i | 0 <= i < |a|
      ensures c[|c| - |a| + i].id == a[i].id
    {
      assert b[|b| - |a| + i].id == a[i].id;
      assert c[|c| - |b| + (|b| - |a| + i)].id == b[|b| - |a| + i].id;
    }
  }

  lemma PushGrows(t: Table, p: Product)
    ensures GrewInto(t, [p] + t)
  {
    assert forall i :: 0 <= i < |t| ==> ([p] + t)[1 + i] == t[i];
  }

  lemma ReplaceGrows(t: Table, p: Product)
    requires Knows(t, p.id)
    ensures GrewInto(t, Replace(t, p))
  {
  }

  lemma OpGrows(s: State, op: Op)
    requires !op.Delete?
    ensures GrewInto(s.table, Do(s, op).0.table)
  {
    hide GrewInto, Invalidate, ListPage, ValidateCreate, NewProduct, Replace, IndexOf;
    GrowsNot(s.table);
    match op {
      case Create(req) => PushGrows(s.table, NewProduct(s.nextId, req));
      case Update(id, patch) =>
        if Knows(s.table, id) {
          ReplaceGrows(s.table, Patched(Row(s.table, id), patch));
        }
      case UpdateStock(id, delta) =>
        if Knows(s.table, id) {
          ReplaceGrows(s.table, Row(s.table, id).(stock := Row(s.table, id).stock + delta));
        }
      case _ =>
    }
  }

  lemma StepGrows(s: State, step: Step)
    requires Keeps(step)
    ensures GrewInto(s.table, Act(s, step).table)
  {
    hide Do, GrewInto;
    if step.Drop? {
      GrowsNot(s.table);
    } else {
      OpGrows(s, step.op);
    }
  }

  lemma QuietStep(s: State, step: Step, size: int)
    requires Quiet(step, size)
    ensures GrewInto(s.table, Act(s, step).table) && ShowsNoMore(s, Act(s, step), size)
  {
    hide GrewInto, ListPage;
    StepGrows(s, step);
  }

  lemma {:induction false} QuietAll(s: State, steps: seq<Step>, size: int)
    requires AllQuiet(steps, size)
    ensures GrewInto(s.table, ActAll(s, steps).table) && ShowsNoMore(s, ActAll(s, steps), size)
  {
    hide GrewInto, Act, Answer, Shown;
    if steps == [] {
      GrowsNot(s.table);
    } else {
      var front, step := steps[..|steps| - 1], steps[|steps| - 1];
      var mid := ActAll(s, front);
      QuietAll(s, front, size);
      QuietStep(mid, step, size);
      GrewTwice(s.table, mid.table, ActAll(s, steps).table);
    }
  }

  lemma GrowsNot(t: Table)
    ensures GrewInto(t, t)
  {
  }

  /** A listing of one page leaves the table and the other pages as they are. */
  lemma ReadPage(s: State, page: int, size: int)
    ensures var s' := Do(s, List(page, size)).0;
      && s'.table == s.table
      && forall other :: other != page ==>
           Shown(s', other, size) == Shown(s, other, size) && Answer(s', other, size) == Answer(s, other, size)
  {
    hide ListPage;
  }

  // ---- rows that are returned ----

  /** Pages from the k-th on (counted from 0) that come from the cache all show the product. */
  ghost predicate Guarded(s: State, k: nat, size: nat, id: int) {
    forall page :: page > k && Shown(s, page, size) ==> Has(Answer(s, page, size), id)
  }

  ghost predicate At(t: Table, i: nat, id: int) {
    i < |t| && t[i].id == id
  }

  /** One read: the row is on the page, or the page is full and the row is still ahead. */
  lemma ReadMeets(s: State, k: nat, size: nat, offset: nat, i: nat, id: int)
    requires 1 <= size <= MAX_SIZE && offset == k * size
    requires At(s.table, i, id) && i >= offset && Guarded(s, k, size, id)
    ensures Has(Answer(s, k + 1, size), id) || (|Answer(s, k + 1, size)| >= size && i >= offset + size)
  {
    hide ListPage, Has;
    if !Shown(s, k + 1, size) {
      PageHas(s.table, k, size, offset, i);
    }
  }

  lemma {:induction false} WalkReturns(s: State, gaps: seq<seq<Step>>, k: nat, size: nat, offset: nat, i: nat, id: int)
    requires 1 <= size <= MAX_SIZE && offset == k * size && QuietGaps(gaps, size)
    requires At(s.table, i, id) && i >= offset && Guarded(s, k, size, id)
    requires Collect(Serve(s, gaps, k, size), size).ok
    ensures Has(Collect(Serve(s, gaps, k, size), size).items, id)
    decreases |gaps|
  {
    hide Has, Answer, ActAll, Do, GrewInto, Shown;
    if gaps == [] {
    } else {
      var s1 := ActAll(s, gaps[0]);
      var i1 := Forward(s, gaps[0], k, size, i, id);
      var s2 := Do(s1, List(k + 1, size)).0;
      var items := Answer(s1, k + 1, size);
      ServeNext(s, gaps, k, size);
      ReadMeets(s1, k, size, offset, i1, id);
      if |items| >= size {
        var rest := Collect(Serve(s2, gaps[1..], k + 1, size), size);
        if !Has(items, id) {
          ReadPage(s1, k + 1, size);
          StillGuarded(s1, s2, k, size, id);
          assert (k + 1) * size == offset + size;
          WalkReturns(s2, gaps[1..], k + 1, size, offset + size, i1, id);
        }
        HasAppend(items, rest.items, id);
      }
    }
  }

  lemma ServeNext(s: State, gaps: seq<seq<Step>>, k: nat, size: nat)
    requires gaps != []
    ensures
      var s' := ActAll(s, gaps[0]);
      var replies, rest := Serve(s, gaps, k, size), Serve(Do(s', List(k + 1, size)).0, gaps[1..], k + 1, size);
      replies != [] && replies[0] == Some(Answer(s', k + 1, size)) && replies[1..] == rest
  {
    hide ActAll, Do, Answer;
  }

  /** Rows only move down between two reads, and pages only get fresher. */
  lemma Forward(s: State, steps: seq<Step>, k: nat, size: nat, i: nat, id: int) returns (i': nat)
    requires AllQuiet(steps, size) && At(s.table, i, id) && Guarded(s, k, size, id)
    ensures
      var s' := ActAll(s, steps);
      At(s'.table, i', id) && i' >= i && Guarded(s', k, size, id)
  {
    hide ActAll, Has, Answer, Shown;
    QuietAll(s, steps, size);
    var t' := ActAll(s, steps).table;
    i' := |t'| - |s.table| + i;
  }

  lemma StillGuarded(s: State, s': State, k: nat, size: nat, id: int)
    requires Guarded(s, k, size, id)
    requires forall other :: other != k + 1 ==>
      Shown(s', other, size) == Shown(s, other, size) && Answer(s', other, size) == Answer(s, other, size)
    ensures Guarded(s', k + 1, size, id)
  {
    hide Has, Answer, Shown;
  }

  // ---- pages of an older catalog ----

  predicate SameIds(a: seq<Product>, b: seq<Product>) {
    |a| == |b| && forall i :: 0 <= i < |a| ==> a[i].id == b[i].id
  }

  /** The items were that page when the catalog consisted of the rows from the a-th on. */
  predicate WasPage(t: Table, items: seq<Product>, page: int, size: int, a: nat) {
    a <= |t| && SameIds(items, ListPage(t[a..], page, size))
  }

  /** Every cached page of that size is a page of the catalog as it was earlier. */
  ghost predicate Grown(s: State, size: int) {
    forall page :: Shown(s, page, size) ==> exists a :: WasPage(s.table, Answer(s, page, size), page, size, a)
  }

  lemma StillWasPage(t: Table, t': Table, items: seq<Product>, page: int, size: int, a: nat) returns (b: nat)
    requires WasPage(t, items, page, size, a) && GrewInto(t, t')
    ensures WasPage(t', items, page, size, b)
  {
    b := |t'| - |t| + a;
    forall i | 0 <= i < |t[a..]|
      ensures t'[b..][i].id == t[a..][i].id
    {
      assert t'[|t'| - |t| + (a + i)].id == t[a + i].id;
    }
    SameIdsPage(t[a..], t'[b..], page, size);
  }

  lemma SameIdsPage(t: Table, t': Table, page: int, size: int)
    requires SameIds(t, t')
    ensures SameIds(ListPage(t, page, size), ListPage(t', page, size))
  {
    var offset := (NormalPage(page) - 1) * NormalSize(size);
  }

  lemma PageStaysGrown(s: State, op: Op, page: int, size: int)
    requires Grown(s, size) && !op.Delete? && Shown(Do(s, op).0, page, size)
    ensures var s' := Do(s, op).0; exists a :: WasPage(s'.table, Answer(s', page, size), page, size, a)
  {
    hide Do, Answer, Shown, WasPage, ListPage, GrewInto;
    var s' := Do(s, op).0;
    if op == List(page, size) && !Shown(s, page, size) {
      ListedNow(s, page, size);
    } else {
      KeptShown(s, op, page, size);
      OpGrows(s, op);
      var a :| WasPage(s.table, Answer(s, page, size), page, size, a);
      var b := StillWasPage(s.table, s'.table, Answer(s, page, size), page, size, a);
    }
  }

  /** That keeps while nothing is deleted, whoever lists. */
  lemma StaysGrown(s: State, op: Op, size: int)
    requires Grown(s, size) && !op.Delete?
    ensures Grown(Do(s, op).0, size)
  {
    hide Do, Answer, Shown, WasPage;
    forall page | Shown(Do(s, op).0, page, size)
      ensures var s' := Do(s, op).0; exists a :: WasPage(s'.table, Answer(s', page, size), page, size, a)
    {
      PageStaysGrown(s, op, page, size);
    }
  }

  lemma KeptShown(s: State, op: Op, page: int, size: int)
    requires Shown(Do(s, op).0, page, size) && (op == List(page, size) ==> Shown(s, page, size))
    ensures Shown(s, page, size) && Answer(Do(s, op).0, page, size) == Answer(s, page, size)
  {
    hide ListPage;
  }

  lemma ListedNow(s: State, page: int, size: int)
    requires !Shown(s, page, size)
    ensures var s' := Do(s, List(page, size)).0; WasPage(s'.table, Answer(s', page, size), page, size, 0)
  {
    assert s.table[0..] == s.table;
  }

  lemma GrowthStaysGrown(s: State, s': State, size: int)
    requires Grown(s, size) && GrewInto(s.table, s'.table) && ShowsNoMore(s, s', size)
    ensures Grown(s', size)
  {
    hide Answer, Shown, WasPage, GrewInto;
    forall page | Shown(s', page, size)
      ensures exists a :: WasPage(s'.table, Answer(s', page, size), page, size, a)
    {
      var a :| WasPage(s.table, Answer(s, page, size), page, size, a);
      var b := StillWasPage(s.table, s'.table, Answer(s, page, size), page, size, a);
    }
  }

  lemma StepKeeps(s: State, step: Step, size: int)
    requires WellFormed(s) && Grown(s, size) && Keeps(step)
    ensures WellFormed(Act(s, step)) && Grown(Act(s, step), size)
  {
    hide Do, Grown, ListPage, GrewInto;
    if !step.Drop? {
      DoWellFormed(s, step.op);
    }
    if step.Whole? {
      StaysGrown(s, step.op, size);
    } else {
      StepGrows(s, step);
      GrowthStaysGrown(s, Act(s, step), size);
    }
  }

  lemma {:induction false} StepsKeep(s: State, steps: seq<Step>, size: int)
    requires WellFormed(s) && Grown(s, size) && forall i :: 0 <= i < |steps| ==> Keeps(steps[i])
    ensures WellFormed(ActAll(s, steps)) && Grown(ActAll(s, steps), size)
  {
    hide WellFormed, Grown, Act;
    if steps == [] {
    } else {
      StepsKeep(s, steps[..|steps| - 1], size);
      StepKeeps(ActAll(s, steps[..|steps| - 1]), steps[|steps| - 1], size);
    }
  }

  // ---- requests that overlap ----

  /** A page read from the table and not yet written to the cache. */
  datatype Fetched = Fetched(page: int, size: int, items: seq<Product>)

  datatype Overlapped = Overlapped(s: State, fetched: map<nat, Fetched>)

  datatype Move = Alone(step: Step) | ReadList(reader: nat, page: int, size: int) | FillList(reader: nat)

  function Advance(o: Overlapped, m: Move): Overlapped {
    match m
    case Alone(step) => o.(s := Act(o.s, step))
    case ReadList(reader, page, size) =>
      o.(fetched := o.fetched[reader := Fetched(page, size, ListPage(o.s.table, page, size))])
    case FillList(reader) =>
      if reader !in o.fetched then o
      else
        var f := o.fetched[reader];
        Overlapped(o.s.(cache := o.s.cache[ListKey(f.page, f.size) := Items(f.items)]), o.fetched - {reader})
  }

  function AdvanceAll(o: Overlapped, moves: seq<Move>): Overlapped {
    if moves == [] then o else Advance(AdvanceAll(o, moves[..|moves| - 1]), moves[|moves| - 1])
  }

  predicate KeepsAll(moves: seq<Move>) {
    forall i :: 0 <= i < |moves| && moves[i].Alone? ==> Keeps(moves[i].step)
  }

  ghost predicate WasFetched(t: Table, f: Fetched) {
    exists a :: WasPage(t, f.items, f.page, f.size, a)
  }

  ghost predicate GrownOverlapped(o: Overlapped, size: int) {
    && WellFormed(o.s) && Grown(o.s, size)
    && forall reader :: reader in o.fetched ==> WasFetched(o.s.table, o.fetched[reader])
  }

  lemma FetchedStays(t: Table, t': Table, f: Fetched)
    requires WasFetched(t, f) && GrewInto(t, t')
    ensures WasFetched(t', f)
  {
    hide WasPage;
    var a :| WasPage(t, f.items, f.page, f.size, a);
    var b := StillWasPage(t, t', f.items, f.page, f.size, a);
  }

  lemma FillStaysGrown(s: State, f: Fetched, size: int)
    requires Grown(s, size) && WasFetched(s.table, f)
    ensures Grown(s.(cache := s.cache[ListKey(f.page, f.size) := Items(f.items)]), size)
  {
    hide WasPage, ListPage;
    var s' := s.(cache := s.cache[ListKey(f.page, f.size) := Items(f.items)]);
    forall page | Shown(s', page, size)
      ensures exists a :: WasPage(s'.table, Answer(s', page, size), page, size, a)
    {
      if ListKey(page, size) == ListKey(f.page, f.size) {
        var a :| WasPage(s.table, f.items, f.page, f.size, a);
        assert WasPage(s'.table, Answer(s', page, size), page, size, a);
      } else {
        assert Shown(s, page, size) && Answer(s', page, size) == Answer(s, page, size);
        var a :| WasPage(s.table, Answer(s, page, size), page, size, a);
        assert WasPage(s'.table, Answer(s', page, size), page, size, a);
      }
    }
  }

  lemma AdvanceGrown(o: Overlapped, m: Move, size: int)
    requires GrownOverlapped(o, size) && (m.Alone? ==> Keeps(m.step))
    ensures GrownOverlapped(Advance(o, m), size)
  {
    hide Grown, Act, ListPage, WasFetched, GrewInto;
    match m {
      case Alone(step) =>
        StepKeeps(o.s, step, size);
        StepGrows(o.s, step);
        forall reader | reader in o.fetched
          ensures WasFetched(Act(o.s, step).table, o.fetched[reader])
        {
          FetchedStays(o.s.table, Act(o.s, step).table, o.fetched[reader]);
        }
      case ReadList(reader, page, size') => NowFetched(o.s.table, page, size');
      case FillList(reader) =>
        if reader in o.fetched {
          FillStaysGrown(o.s, o.fetched[reader], size);
        }
    }
  }

  lemma NowFetched(t: Table, page: int, size: int)
    ensures WasFetched(t, Fetched(page, size, ListPage(t, page, size)))
  {
    CurrentIsPage(t, page, size);
  }

  /** So every state that a service without deletions can reach is grown, however its requests overlap. */
  lemma {:induction false} GrownAlways(o: Overlapped, moves: seq<Move>, size: int)
    requires GrownOverlapped(o, size) && KeepsAll(moves)
    ensures GrownOverlapped(AdvanceAll(o, moves), size)
  {
    hide GrownOverlapped, Advance;
    if moves == [] {
    } else {
      GrownAlways(o, moves[..|moves| - 1], size);
      AdvanceGrown(AdvanceAll(o, moves[..|moves| - 1]), moves[|moves| - 1], size);
    }
  }

  // ---- when a walk is complete ----

  /** No later page is cached, and the first one only as it is now (up to changes of its products). */
  ghost predicate Harmless(s: State, size: nat) {
    && (forall page :: page >= 2 ==> !Shown(s, page, size))
    && (Shown(s, 1, size) ==> SameIds(Answer(s, 1, size), ListPage(s.table, 1, size)))
  }

  /** A cached first page is passed before the row, or shows it. */
  lemma RowReturned(s: State, gaps: seq<seq<Step>>, size: nat, i: nat)
    requires Harmless(s, size) && 1 <= size <= MAX_SIZE && i < |s.table| && QuietGaps(gaps, size)
    requires Collect(Serve(s, gaps, 0, size), size).ok
    ensures Has(Collect(Serve(s, gaps, 0, size), size).items, s.table[i].id)
  {
    hide Has, ListPage, ActAll, Do, GrewInto, Serve, Shown, Answer;
    var id := s.table[i].id;
    FirstPage(s.table, size);
    if i < size || !Shown(s, 1, size) {
      if i < size && Shown(s, 1, size) {
        FirstPageHas(s, size, i);
      }
      WalkReturns(s, gaps, 0, size, 0, i, id);
    } else {
      PassFirstPage(s, gaps, size, i);
    }
  }

  lemma FirstPage(t: Table, size: nat)
    requires 1 <= size <= MAX_SIZE
    ensures ListPage(t, 1, size) == t[..Min(size, |t|)]
  {
    PageAt(t, 0, size, 0);
  }

  lemma FirstPageHas(s: State, size: nat, i: nat)
    requires SameIds(Answer(s, 1, size), ListPage(s.table, 1, size)) && i < |s.table|
    requires ListPage(s.table, 1, size) == s.table[..Min(size, |s.table|)] && i < size
    ensures Has(Answer(s, 1, size), s.table[i].id)
  {
    hide Answer, ListPage;
    assert Answer(s, 1, size)[i].id == s.table[i].id;
  }

  lemma PassFirstPage(s: State, gaps: seq<seq<Step>>, size: nat, i: nat)
    requires Harmless(s, size) && 1 <= size <= MAX_SIZE && size <= i < |s.table| && QuietGaps(gaps, size)
    requires Shown(s, 1, size) && Collect(Serve(s, gaps, 0, size), size).ok
    ensures Has(Collect(Serve(s, gaps, 0, size), size).items, s.table[i].id)
  {
    hide Has, ListPage, ActAll, Do, Shown, Answer;
    var id := s.table[i].id;
    if gaps == [] {
    } else {
      var s1 := ActAll(s, gaps[0]);
      var s2 := Do(s1, List(1, size)).0;
      QuietAll(s, gaps[0], size);
      var i1 := |s1.table| - |s.table| + i;
      assert At(s1.table, i1, id);
      ServeNext(s, gaps, 0, size);
      FirstPage(s.table, size);
      FirstPage(s1.table, size);
      assert |Answer(s1, 1, size)| == size by { ReplyOrPage(s1, 1, size); }
      ReadPage(s1, 1, size);
      WalkReturns(s2, gaps[1..], 1, size, size, i1, id);
      var rest := Collect(Serve(s2, gaps[1..], 1, size), size);
      assert Collect(Serve(s, gaps, 0, size), size).items == Answer(s1, 1, size) + rest.items;
      HasAppend(Answer(s1, 1, size), rest.items, id);
    }
  }

  lemma ReplyOrPage(s: State, page: int, size: int)
    ensures Shown(s, page, size) || Answer(s, page, size) == ListPage(s.table, page, size)
  {
  }

  lemma HarmlessIsEnough(s: State, size: nat)
    requires Harmless(s, size) && 1 <= size <= MAX_SIZE
    ensures Complete(s, size)
  {
    hide Has, Serve, Harmless;
    forall gaps | QuietGaps(gaps, size) && Collect(Serve(s, gaps, 0, size), size).ok
      ensures HasAll(Collect(Serve(s, gaps, 0, size), size).items, s.table)
    {
      forall i | 0 <= i < |s.table|
        ensures Has(Collect(Serve(s, gaps, 0, size), size).items, s.table[i].id)
      {
        RowReturned(s, gaps, size, i);
      }
    }
  }

  // ---- walks that lose the newest product ----

  function Nothing(n: nat): seq<seq<Step>> {
    seq(n, _ => [])
  }

  lemma HasEither(a: seq<Product>, b: seq<Product>, id: int)
    requires Has(a + b, id)
    ensures Has(a, id) || Has(b, id)
  {
    var j :| 0 <= j < |a + b| && (a + b)[j].id == id;
    if j < |a| {
      assert a[j].id == id;
    } else {
      assert b[j - |a|].id == id;
    }
  }

  /** A walk that is left alone ends at a short page, and misses what no page shows. */
  lemma {:induction false} StillMisses(s: State, size: nat, k: nat, n: nat, id: int)
    requires n >= 1 && |Answer(s, k + n, size)| < size
    requires forall page :: page > k ==> !Has(Answer(s, page, size), id)
    ensures var w := Collect(Serve(s, Nothing(n), k, size), size); w.ok && !Has(w.items, id)
    decreases n
  {
    hide Has, Answer, Do, Shown;
    var items := Answer(s, k + 1, size);
    var s' := Do(s, List(k + 1, size)).0;
    assert ActAll(s, []) == s;
    ServeNext(s, Nothing(n), k, size);
    if n == 1 || |items| < size {
    } else {
      assert Nothing(n)[1..] == Nothing(n - 1);
      ReadPage(s, k + 1, size);
      StillMisses(s', size, k + 1, n - 1, id);
      var rest := Collect(Serve(s', Nothing(n - 1), k + 1, size), size);
      if Has(items + rest.items, id) {
        HasEither(items, rest.items, id);
      }
    }
  }

  lemma FirstGap(s: State, ops: seq<Step>, n: nat, size: nat)
    requires n >= 1
    ensures Serve(s, [ops] + Nothing(n - 1), 0, size) == Serve(ActAll(s, ops), Nothing(n), 0, size)
  {
    hide Do, Answer;
    assert ([ops] + Nothing(n - 1))[1..] == Nothing(n - 1) == Nothing(n)[1..];
    assert ActAll(ActAll(s, ops), []) == ActAll(s, ops);
  }

  /** After `ops`, no page shows a product of the catalog, and pages are short from `end` on. */
  lemma Misses(s: State, ops: seq<Step>, size: nat, end: nat, i: nat)
    requires AllQuiet(ops, size) && i < |s.table| && end >= 1
    requires |Answer(ActAll(s, ops), end, size)| < size
    requires forall page :: page > 0 ==> !Has(Answer(ActAll(s, ops), page, size), s.table[i].id)
    ensures !Complete(s, size)
  {
    hide Has, Serve, Answer, AllQuiet, ActAll;
    var gaps := [ops] + Nothing(end - 1);
    StillMisses(ActAll(s, ops), size, 0, end, s.table[i].id);
    FirstGap(s, ops, end, size);
    assert QuietGaps(gaps, size) by { GapsQuiet(ops, end - 1, size); }
    var w := Collect(Serve(s, gaps, 0, size), size);
    assert w.ok && !HasAll(w.items, s.table);
  }

  lemma GapsQuiet(ops: seq<Step>, n: nat, size: nat)
    requires AllQuiet(ops, size)
    ensures QuietGaps([ops] + Nothing(n), size)
  {
  }

  lemma OnPage(t: Table, page: nat, size: nat, offset: nat, j: nat)
    requires Descending(t) && 1 <= size <= MAX_SIZE && page >= 1 && offset == (page - 1) * size && j < |t|
    ensures Has(ListPage(t, page, size), t[j].id) ==> offset <= j < offset + size
  {
    PageAt(t, page - 1, size, offset);
    var items := ListPage(t, page, size);
    if Has(items, t[j].id) {
      var x :| 0 <= x < |items| && items[x].id == t[j].id;
      assert items[x] == t[offset + x];
      assert offset + x == j;
    }
  }

  /** A page of an older catalog, or a later page, never shows the newest product. */
  lemma LacksNewest(t: Table, items: seq<Product>, page: nat, size: nat, a: nat)
    requires Descending(t) && t != [] && 1 <= size <= MAX_SIZE && page >= 1 && WasPage(t, items, page, size, a)
    requires page >= 2 || a >= 1
    ensures !Has(items, t[0].id)
  {
    hide ListPage;
    var offset := (page - 1) * size;
    Multiples(size, if page >= 2 then 1 else 0, page - 1);
    PageAt(t[a..], page - 1, size, offset);
    RowsBelow(t, items, a, offset, size);
  }

  lemma RowsBelow(t: Table, items: seq<Product>, a: nat, offset: nat, size: nat)
    requires Descending(t) && t != [] && a <= |t| && a + offset >= 1
    requires SameIds(items, t[a..][Min(offset, |t[a..]|)..Min(offset + size, |t[a..]|)])
    ensures !Has(items, t[0].id)
  {
    forall x | 0 <= x < |items|
      ensures items[x].id != t[0].id
    {
      assert items[x].id == t[a..][offset + x].id == t[a + offset + x].id;
    }
  }

  /** Pages beyond the last row are empty, now and earlier. */
  lemma BeyondEnd(t: Table, items: seq<Product>, page: nat, size: nat, a: nat)
    requires 1 <= size <= MAX_SIZE && page > |t| + 1 && WasPage(t, items, page, size, a)
    ensures items == []
  {
    hide ListPage;
    var offset := (page - 1) * size;
    AtLeast(page - 1, size);
    PageAt(t[a..], page - 1, size, offset);
  }

  lemma AtLeast(n: nat, size: nat)
    requires size >= 1
    ensures n * size >= n
  {
  }

  lemma ShortAtEnd(s: State, size: nat, page: nat)
    requires Grown(s, size) && 1 <= size <= MAX_SIZE && page > |s.table| + 1
    ensures |Answer(s, page, size)| < size
  {
    hide WasPage;
    if Shown(s, page, size) {
      var a :| WasPage(s.table, Answer(s, page, size), page, size, a);
      BeyondEnd(s.table, Answer(s, page, size), page, size, a);
    } else {
      assert WasPage(s.table, ListPage(s.table, page, size), page, size, 0) by { CurrentIsPage(s.table, page, size); }
      BeyondEnd(s.table, ListPage(s.table, page, size), page, size, 0);
    }
  }

  lemma CurrentIsPage(t: Table, page: int, size: int)
    ensures WasPage(t, ListPage(t, page, size), page, size, 0)
  {
    assert t[0..] == t;
  }

  /** A first page that is not the current one has lost the newest product for good. */
  lemma OldFirstMisses(s: State, size: nat)
    requires WellFormed(s) && Grown(s, size) && s.table != [] && 1 <= size <= MAX_SIZE
    requires Shown(s, 1, size) && !SameIds(Answer(s, 1, size), ListPage(s.table, 1, size))
    requires forall page :: page >= 2 ==> !Shown(s, page, size)
    ensures !Complete(s, size)
  {
    hide Has, Grown, Shown, Answer, ListPage;
    assert ActAll(s, []) == s;
    var id := s.table[0].id;
    forall page | page > 0
      ensures !Has(Answer(s, page, size), id)
    {
      if page == 1 {
        var a := PageWas(s, size, 1);
        assert a != 0 by { assert s.table[0..] == s.table; }
        LacksNewest(s.table, Answer(s, 1, size), 1, size, a);
      } else {
        ReplyOrPage(s, page, size);
        CurrentIsPage(s.table, page, size);
        LacksNewest(s.table, Answer(s, page, size), page, size, 0);
      }
    }
    ShortAtEnd(s, size, |s.table| + 2);
    Misses(s, [], size, |s.table| + 2, 0);
  }

  lemma PageWas(s: State, size: int, page: int) returns (a: nat)
    requires Grown(s, size) && Shown(s, page, size)
    ensures WasPage(s.table, Answer(s, page, size), page, size, a)
  {
    hide WasPage;
    a :| WasPage(s.table, Answer(s, page, size), page, size, a);
  }

  /** The first page runs out of its TTL, and m products are added. */
  function Bury(size: nat, m: nat): seq<Step> {
    [Whole(Expire(ListKey(1, size)))] + seq(m, _ => Whole(Create(BOOK)))
  }

  lemma BuryQuiet(size: nat, m: nat)
    ensures AllQuiet(Bury(size, m), size) && forall i :: 0 <= i < |Bury(size, m)| ==> Keeps(Bury(size, m)[i])
  {
  }

  lemma {:induction false} Buried(s: State, size: nat, m: nat)
    ensures
      var s' := ActAll(s, Bury(size, m));
      && |s'.table| == m + |s.table| && s'.table[m..] == s.table && !Shown(s', 1, size)
      && forall page :: page >= 2 ==> Shown(s', page, size) == Shown(s, page, size)
                                      && (Shown(s, page, size) ==> Answer(s', page, size) == Answer(s, page, size))
  {
    hide ListPage;
    var ops := Bury(size, m);
    if m == 0 {
      assert ops == [Whole(Expire(ListKey(1, size)))] && ops[..0] == [];
    } else {
      Buried(s, size, m - 1);
      assert ops[..|ops| - 1] == Bury(size, m - 1) && ops[|ops| - 1] == Whole(Create(BOOK));
      var mid, s' := ActAll(s, Bury(size, m - 1)), ActAll(s, ops);
      assert s'.table == [NewProduct(mid.nextId, BOOK)] + mid.table;
      assert s'.table[m..] == mid.table[m - 1..];
    }
  }

  lemma OtherPage(page: nat, first: nat, size: nat, offset: nat, m: nat)
    requires page >= 1 && first >= 1 && page != first && size >= 1
    requires offset == (page - 1) * size && m == (first - 1) * size
    ensures !(offset <= m < offset + size)
  {
    if page < first {
      Multiples(size, page, first - 1);
    } else {
      Multiples(size, first, page - 1);
    }
  }

  lemma Multiples(size: nat, x: nat, y: nat)
    requires x <= y
    ensures x * size <= y * size
  {
  }

  lemma NotOnPage(t: Table, page: nat, first: nat, size: nat, m: nat)
    requires Descending(t) && 1 <= size <= MAX_SIZE && page >= 1 && first >= 1 && page != first
    requires m == (first - 1) * size && m < |t|
    ensures !Has(ListPage(t, page, size), t[m].id)
  {
    hide Has, ListPage;
    OnPage(t, page, size, (page - 1) * size, m);
    OtherPage(page, first, size, (page - 1) * size, m);
  }

  /** Pushed onto the first of the later pages that the cache shows, the newest product is lost. */
  lemma LaterPageMisses(s: State, size: nat, first: nat)
    requires WellFormed(s) && Grown(s, size) && s.table != [] && 1 <= size <= MAX_SIZE
    requires first >= 2 && Shown(s, first, size) && forall page :: 2 <= page < first ==> !Shown(s, page, size)
    ensures !Complete(s, size)
  {
    hide Has, Grown, Shown, Answer, ListPage, ActAll, Bury;
    var m := (first - 1) * size;
    var ops := Bury(size, m);
    var s' := ActAll(s, ops);
    Buried(s, size, m);
    BuryQuiet(size, m);
    StepsKeep(s, ops, size);
    var id := s.table[0].id;
    assert s'.table[m].id == s'.table[m..][0].id == id;
    forall page | page > 0
      ensures !Has(Answer(s', page, size), id)
    {
      if page >= 2 && Shown(s, page, size) {
        var a := PageWas(s, size, page);
        LacksNewest(s.table, Answer(s, page, size), page, size, a);
      } else {
        ReplyOrPage(s', page, size);
        NotOnPage(s'.table, page, first, size, m);
      }
    }
    ShortAtEnd(s', size, |s'.table| + 2);
    Misses(s, ops, size, |s'.table| + 2, 0);
  }

  lemma {:induction false} FirstShown(s: State, size: int, page: nat) returns (first: nat)
    requires page >= 2 && Shown(s, page, size)
    ensures 2 <= first <= page && Shown(s, first, size)
    ensures forall other :: 2 <= other < first ==> !Shown(s, other, size)
  {
    hide Shown;
    if forall other :: 2 <= other < page ==> !Shown(s, other, size) {
      first := page;
    } else {
      var other: nat :| 2 <= other < page && Shown(s, other, size);
      first := FirstShown(s, size, other);
    }
  }

  /**
   * Walks through the service return every product of a nonempty catalog, however it grows
   * meanwhile, if and only if no later page is cached when they start, and the first page is not
   * cached from an older catalog.
   */
  lemma CompleteExactly(s: State, size: nat)
    requires WellFormed(s) && Grown(s, size) && s.table != [] && 1 <= size <= MAX_SIZE
    ensures Complete(s, size) <==> Harmless(s, size)
  {
    hide WellFormed, Grown, Complete, Shown, SameIds, Answer, ListPage;
    if Harmless(s, size) {
      HarmlessIsEnough(s, size);
    } else if page: nat :| page >= 2 && Shown(s, page, size) {
      var first := FirstShown(s, size, page);
      LaterPageMisses(s, size, first);
    } else {
      OldFirstMisses(s, size);
    }
  }

  // ---- other clients that list ----

  predicate KeepsGaps(gaps: seq<seq<Step>>) {
    forall i, j :: 0 <= i < |gaps| && 0 <= j < |gaps[i]| ==> Keeps(gaps[i][j])
  }

  /** Complete also when others list with the same page size between the reads. */
  ghost predicate CompleteAmidOthers(s: State, size: nat) {
    forall gaps :: KeepsGaps(gaps) && Collect(Serve(s, gaps, 0, size), size).ok ==>
      HasAll(Collect(Serve(s, gaps, 0, size), size).items, s.table)
  }

  lemma {:induction false} ActFirst(s: State, step: Step, steps: seq<Step>)
    ensures ActAll(s, [step] + steps) == ActAll(Act(s, step), steps)
  {
    hide Act;
    var all := [step] + steps;
    if steps == [] {
      assert all[..0] == [] && all[0] == step;
    } else {
      assert all[..|all| - 1] == [step] + steps[..|steps| - 1];
      ActFirst(s, step, steps[..|steps| - 1]);
    }
  }

  lemma ServeFirst(s: State, step: Step, gaps: seq<seq<Step>>, size: nat)
    requires gaps != []
    ensures Serve(s, [[step] + gaps[0]] + gaps[1..], 0, size) == Serve(Act(s, step), gaps, 0, size)
  {
    hide Act, Do, Answer;
    var all := [[step] + gaps[0]] + gaps[1..];
    assert all[0] == [step] + gaps[0] && all[1..] == gaps[1..];
    ActFirst(s, step, gaps[0]);
  }

  lemma FirstKeeps(step: Step, gaps: seq<seq<Step>>, size: nat)
    requires gaps != [] && QuietGaps(gaps, size) && Keeps(step)
    ensures KeepsGaps([[step] + gaps[0]] + gaps[1..])
  {
    var all := [[step] + gaps[0]] + gaps[1..];
    forall i, j | 0 <= i < |all| && 0 <= j < |all[i]|
      ensures Keeps(all[i][j])
    {
      assert AllQuiet(gaps[i], size);
      if i == 0 && j > 0 {
        assert all[0][j] == gaps[0][j - 1] && Quiet(gaps[0][j - 1], size);
      } else if i > 0 {
        assert all[i] == gaps[i] && Quiet(gaps[i][j], size);
      }
    }
  }

  /** One listing of a later page by somebody else, before the first read, makes a walk lose a product. */
  lemma OtherListerHarms(s: State, size: nat)
    requires WellFormed(s) && Grown(s, size) && s.table != [] && 1 <= size <= MAX_SIZE
    ensures !CompleteAmidOthers(s, size)
  {
    hide WellFormed, Grown, Serve, HasAll, KeepsGaps, QuietGaps, ListPage;
    var step := Whole(List(2, size));
    var s' := Act(s, step);
    StepKeeps(s, step, size);
    assert Shown(s', 2, size) && s'.table == s.table;
    CompleteExactly(s', size);
    var gaps :| QuietGaps(gaps, size) && Collect(Serve(s', gaps, 0, size), size).ok
                && !HasAll(Collect(Serve(s', gaps, 0, size), size).items, s'.table);
    assert gaps != [] by { NoReplies(s', size); }
    ServeFirst(s, step, gaps, size);
    FirstKeeps(step, gaps, size);
  }

  lemma NoReplies(s: State, size: nat)
    ensures !Collect(Serve(s, [], 0, size), size).ok
  {
  }

  /** So with others listing in between, walks of the empty catalog only are sure to be complete. */
  lemma OnlyEmptyAmidOthers(s: State, size: nat)
    requires WellFormed(s) && Grown(s, size) && 1 <= size <= MAX_SIZE
    ensures CompleteAmidOthers(s, size) <==> s.table == []
  {
    if s.table != [] {
      OtherListerHarms(s, size);
    }
  }

  /**
   * The stock monitor's first page is invalidated by every write. As long as that works, and no
   * request overlaps, it is never old, and only later pages matter.
   */
  lemma MonitorWalkExactly(s: State)
    requires Coherent(s) && Grown(s, MONITOR_PAGE) && s.table != []
    ensures Complete(s, MONITOR_PAGE) <==> forall page :: page >= 2 ==> !Shown(s, page, MONITOR_PAGE)
  {
    CompleteExactly(s, MONITOR_PAGE);
    assert ListFresh(s, 1, MONITOR_PAGE);
  }

  /**
   * A listing of the first page that overlaps a create: read before it, written to the cache after
   * its invalidation.
   */
  const LATE_FILL := [ReadList(0, 1, MONITOR_PAGE), Alone(Whole(Create(BOOK))), FillList(0)]

  /** Then no later page is cached, and still the new product is lost. */
  lemma LateFillLosesProduct(s: State)
    requires Initial(s) && 1 <= |s.table| < MONITOR_PAGE
    ensures
      var s' := AdvanceAll(Overlapped(s, map[]), LATE_FILL).s;
      && WellFormed(s') && Grown(s', MONITOR_PAGE)
      && (forall page :: page >= 2 ==> !Shown(s', page, MONITOR_PAGE))
      && !Complete(s', MONITOR_PAGE)
  {
    hide Complete, Grown, ListPage;
    var o, size := Overlapped(s, map[]), MONITOR_PAGE;
    var s' := AdvanceAll(o, LATE_FILL).s;
    InitialIsGrown(s, size);
    GrownAlways(o, LATE_FILL, size);
    assert LATE_FILL[..2][..1] == LATE_FILL[..1] && LATE_FILL[..1][..0] == [];
    assert AdvanceAll(o, LATE_FILL[..1]) == Advance(o, LATE_FILL[0]);
    assert AdvanceAll(o, LATE_FILL[..2]) == Advance(Advance(o, LATE_FILL[0]), LATE_FILL[1]);
    assert s' == Advance(AdvanceAll(o, LATE_FILL[..2]), LATE_FILL[2]).s;
    assert s'.table == [NewProduct(s.nextId, BOOK)] + s.table;
    assert Answer(s', 1, size) == ListPage(s.table, 1, size);
    FirstPage(s.table, size);
    FirstPage(s'.table, size);
    CompleteExactly(s', size);
  }

  // ---- the search bootstrap ----

  /** Every bootstrap that completes, with all writes accepted, indexes every product of the catalog. */
  ghost predicate IndexComplete(s: State) {
    forall gaps :: QuietGaps(gaps, BOOTSTRAP_PAGE) && Collect(Serve(s, gaps, 0, BOOTSTRAP_PAGE), BOOTSTRAP_PAGE).ok ==>
      Indexed(Collect(Serve(s, gaps, 0, BOOTSTRAP_PAGE), BOOTSTRAP_PAGE).items, s.table)
  }

  ghost predicate Indexed(items: seq<Product>, t: Table) {
    forall i :: 0 <= i < |t| ==> t[i].id in IndexAll(map[], items, _ => true, |items|)
  }

  lemma IndexedIsHad(items: seq<Product>, t: Table)
    ensures Indexed(items, t) <==> HasAll(items, t)
  {
    IndexHolds(map[], items, _ => true, |items|);
    var index := IndexAll(map[], items, _ => true, |items|);
    forall i | 0 <= i < |t|
      ensures t[i].id in index <==> Has(items, t[i].id)
    {
      if t[i].id in index {
        var j :| 0 <= j < |items| && items[j] == index[t[i].id];
        assert items[j].id == t[i].id;
      }
    }
  }

  /** The bootstrap's pages are never invalidated: it needs the first one uncached or current. */
  lemma BootstrapExactly(s: State)
    requires WellFormed(s) && Grown(s, BOOTSTRAP_PAGE) && s.table != []
    ensures IndexComplete(s) <==> Harmless(s, BOOTSTRAP_PAGE)
  {
    hide WellFormed, Grown, Harmless, Serve, HasAll, Indexed;
    CompleteExactly(s, BOOTSTRAP_PAGE);
    forall gaps
      ensures var items := Collect(Serve(s, gaps, 0, BOOTSTRAP_PAGE), BOOTSTRAP_PAGE).items;
              Indexed(items, s.table) <==> HasAll(items, s.table)
    {
      IndexedIsHad(Collect(Serve(s, gaps, 0, BOOTSTRAP_PAGE), BOOTSTRAP_PAGE).items, s.table);
    }
  }

  // ---- with deletions ----

  /**
   * Once products were deleted a cached later page can be older than the catalog's order suggests
   * and show all that is left: then no walk loses anything.
   */
  lemma SurvivorsReturned(s: State, size: nat)
    requires 1 <= size <= MAX_SIZE
    requires forall i :: 0 <= i < |s.table| ==> Guarded(s, 0, size, s.table[i].id)
    ensures Complete(s, size)
  {
    hide Guarded, Serve, Has;
    forall gaps | QuietGaps(gaps, size) && Collect(Serve(s, gaps, 0, size), size).ok
      ensures HasAll(Collect(Serve(s, gaps, 0, size), size).items, s.table)
    {
      forall i | 0 <= i < |s.table|
        ensures Has(Collect(Serve(s, gaps, 0, size), size).items, s.table[i].id)
      {
        WalkReturns(s, gaps, 0, size, 0, i, s.table[i].id);
      }
    }
  }

  function DeleteNewest(t: Table, n: nat): seq<Op>
    requires n <= |t|
  {
    seq(n, i requires 0 <= i < n => Delete(t[i].id))
  }

  lemma {:induction false} Deleted(s: State, n: nat)
    requires Initial(s) && n <= |s.table|
    ensures
      var s' := Exec(s, [List(2, MONITOR_PAGE)] + DeleteNewest(s.table, n));
      && Coherent(s') && s'.table == s.table[n..]
      && s'.cache == map[ListKey(2, MONITOR_PAGE) := Items(ListPage(s.table, 2, MONITOR_PAGE))]
  {
    hide ListPage, Coherent, Do, Invalidate;
    var ops := [List(2, MONITOR_PAGE)] + DeleteNewest(s.table, n);
    if n == 0 {
      assert ops == [List(2, MONITOR_PAGE)] && ops[..0] == [];
      InitialIsGrown(s, MONITOR_PAGE);
      DoCoherent(s, List(2, MONITOR_PAGE));
      FirstListing(s, 2, MONITOR_PAGE);
    } else {
      Deleted(s, n - 1);
      var front := [List(2, MONITOR_PAGE)] + DeleteNewest(s.table, n - 1);
      var mid, id := Exec(s, front), s.table[n - 1].id;
      assert ops[..|ops| - 1] == front && ops[|ops| - 1] == Delete(id);
      DeleteFirst(mid, id, s.table);
      DoCoherent(mid, Delete(id));
      assert s.table[n - 1..][1..] == s.table[n..];
    }
  }

  lemma DeleteFirst(s: State, id: int, t: Table)
    requires s.table != [] && s.table[0].id == id
    requires s.cache == map[ListKey(2, MONITOR_PAGE) := Items(ListPage(t, 2, MONITOR_PAGE))]
    ensures var s' := Do(s, Delete(id)).0; s'.table == s.table[1..] && s'.cache == s.cache
  {
    hide ListPage;
  }

  lemma FirstListing(s: State, page: int, size: int)
    requires s.cache == map[]
    ensures
      var s' := Do(s, List(page, size)).0;
      s'.table == s.table && s'.cache == map[ListKey(page, size) := Items(ListPage(s.table, page, size))]
  {
    hide ListPage;
  }

  /**
   * So without that premise a cached later page is not always harmful: with 101 products, page 2 is
   * listed and all products but the oldest, which is on it, are deleted.
   */
  lemma DeletionsCanHelp(s: State)
    requires Initial(s) && |s.table| == MONITOR_PAGE + 1
    ensures
      var s' := Exec(s, [List(2, MONITOR_PAGE)] + DeleteNewest(s.table, MONITOR_PAGE));
      Coherent(s') && s'.table != [] && Shown(s', 2, MONITOR_PAGE) && Complete(s', MONITOR_PAGE)
  {
    hide Coherent, Complete, Exec, ListPage;
    var s' := Exec(s, [List(2, MONITOR_PAGE)] + DeleteNewest(s.table, MONITOR_PAGE));
    Deleted(s, MONITOR_PAGE);
    PageAt(s.table, 1, MONITOR_PAGE, MONITOR_PAGE);
    assert ListPage(s.table, 2, MONITOR_PAGE)[0] == s.table[MONITOR_PAGE];
    SurvivorsReturned(s', MONITOR_PAGE);
  }

  /** A service with an empty cache is where such runs start. */
  lemma InitialIsGrown(s: State, size: int)
    requires Initial(s)
    ensures Coherent(s) && Grown(s, size)
  {
  }
}
