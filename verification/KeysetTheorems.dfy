/** Whole traversals: what a client that follows `next_cursor` to the end has seen. */
module KeysetTheorems {
  import opened Keyset
  import opened Prelude

  /** The two listings of the repository: the generic one, and the audit log's filtered one. */
  datatype Listing = Generic(order: Order) | AuditLog(filter: Filter)

  function OrderOf(listing: Listing): Order { if listing.Generic? then listing.order else Desc }

  function FilterOf(listing: Listing): Filter { if listing.Generic? then NO_FILTER else listing.filter }

  function Get(listing: Listing, table: seq<Row>, cursor: Option<Cursor>, limit: nat): Result<Page, PageError> {
    match listing
    case Generic(order) => GetCursorPage(table, cursor, limit, order)
    case AuditLog(filter) => GetCursorFilteredPage(table, filter, cursor, limit)
  }

  /** The pages received, and whether the last one said that there is no more. */
  datatype Traversal = Traversal(pages: seq<seq<Row>>, done: bool)

  /** Follows `next_cursor`; the k-th fetch sees `tables[k]`, whatever happened in between. */
  function Traverse(listing: Listing, tables: seq<seq<Row>>, cursor: Option<Cursor>, limit: nat): Traversal {
    if tables == [] then Traversal([], false)
    else
      match Get(listing, tables[0], cursor, limit)
      case Err(_) => Traversal([], false)
      case Ok(page) =>
        if page.next.None? then Traversal([page.items], true)
        else
          var rest := Traverse(listing, tables[1..], page.next, limit);
          Traversal([page.items] + rest.pages, rest.done)
  }

  function Concat(pages: seq<seq<Row>>): seq<Row> {
    if pages == [] then [] else pages[0] + Concat(pages[1..])
  }

  function Encode(after: Option<Key>): Option<Cursor> {
    if after.Some? then Some(EncodeCursor(after.value)) else None
  }

  /** The codec and the two entry points agree on what a page is. */
  lemma GetFetches(listing: Listing, table: seq<Row>, after: Option<Key>, limit: nat)
    ensures Get(listing, table, Encode(after), limit) ==
            Ok(FetchPage(OrderOf(listing), FilterOf(listing), after, limit, table))
  {
  }

  // ---- Exactly once, under interference ----

  predicate Beyond(order: Order, after: Option<Key>, key: Key) {
    after.Some? ==> Before(order, after.value, key)
  }

  /** The table holds a row with this key that the listing shows. */
  ghost predicate Present(f: Filter, table: seq<Row>, key: Key) {
    exists r :: r in table && r.key == key && Matches(f, r)
  }

  ghost predicate Holds(items: seq<Row>, key: Key) {
    exists i :: 0 <= i < |items| && items[i].key == key
  }

  /** What a traversal from `after` yields. */
  ghost predicate ExactFrom(listing: Listing, tables: seq<seq<Row>>, after: Option<Key>, t: Traversal) {
    var (order, f, items) := (OrderOf(listing), FilterOf(listing), Concat(t.pages));
    && |t.pages| <= |tables|
    && Ordered(order, items)
    && (forall x :: x in items ==> Beyond(order, after, x.key) && Matches(f, x))
    && (forall x :: x in items ==> exists k :: 0 <= k < |t.pages| && x in tables[k])
    && (t.done ==> forall key :: Beyond(order, after, key) && (forall k :: 0 <= k < |t.pages| ==>
       Present(f, tables[k], key)) ==>
                                 Holds(items, key))
  }

  lemma OrderedConcat(order: Order, a: seq<Row>, b: seq<Row>)
    requires Ordered(order, a) && Ordered(order, b)
    requires a != [] && forall x :: x in b ==> Before(order, a[|a| - 1].key, x.key)
    ensures Ordered(order, a + b)
  {
  }

  /** A page followed by an exact traversal from its last key is an exact traversal. */
  lemma ExactCons(listing: Listing, tables: seq<seq<Row>>, after: Option<Key>, all: seq<Row>, limit: nat,
                  rest: Traversal)
    requires tables != [] && UniqueIds(tables[0]) && 0 < limit < |all|
    requires all == Remaining(OrderOf(listing), FilterOf(listing), after, tables[0])
    requires ExactFrom(listing, tables[1..], Some(all[limit - 1].key), rest)
    ensures ExactFrom(listing, tables, after, Traversal([all[..limit]] + rest.pages, rest.done))
  {
    var (order, f) := (OrderOf(listing), FilterOf(listing));
    var t := Traversal([all[..limit]] + rest.pages, rest.done);
    var (head, tail) := (all[..limit], Concat(rest.pages));
    assert t.pages[1..] == rest.pages;
    assert Concat(t.pages) == head + tail;
    RemainingFacts(order, f, after, tables[0]);
    OrderedConcat(order, head, tail);
    var last := all[limit - 1];
    assert last in all;
    forall x: Row | x in head + tail
      ensures Beyond(order, after, x.key) && Matches(f, x) && exists k :: 0 <= k < |t.pages| && x in tables[k]
    {
      if x in head {
        assert x in all && x in tables[0];
      } else {
        var k :| 0 <= k < |rest.pages| && x in tables[1..][k];
        assert x in tables[k + 1];
      }
    }
    if t.done {
      forall key | Beyond(order, after, key) && forall k :: 0 <= k < |t.pages| ==> Present(f, tables[k], key)
        ensures Holds(head + tail, key)
      {
        if Before(order, last.key, key) { RestHolds(listing, tables, last.key, rest, key); }
        assert Present(f, tables[0], key);
        PageOrRest(order, f, tables[0], after, all, limit, tail, key);
      }
    }
  }

  lemma PageOrRest(order: Order, f: Filter, table: seq<Row>, after: Option<Key>, all: seq<Row>, limit: nat,
                   rest: seq<Row>, key: Key)
    requires UniqueIds(table) && 0 < limit < |all|
    requires all == Remaining(order, f, after, table)
    requires Beyond(order, after, key) && Present(f, table, key)
    requires Before(order, all[limit - 1].key, key) ==> Holds(rest, key)
    ensures Holds(all[..limit] + rest, key)
  {
    RemainingFacts(order, f, after, table);
    var r :| r in table && r.key == key && Matches(f, r);
    assert r in all;
    var i :| 0 <= i < |all| && all[i] == r;
    FrontOrRest(order, all, limit, rest, i);
  }

  lemma FrontOrRest(order: Order, all: seq<Row>, limit: nat, rest: seq<Row>, i: nat)
    requires Ordered(order, all) && 0 < limit <= |all| && i < |all|
    requires Before(order, all[limit - 1].key, all[i].key) ==> Holds(rest, all[i].key)
    ensures Holds(all[..limit] + rest, all[i].key)
  {
    if i < limit {
      HoldsInConcat(all[..limit], rest, i);
    } else {
      var j :| 0 <= j < |rest| && rest[j].key == all[i].key;
      HoldsInConcat(all[..limit], rest, limit + j);
    }
  }

  lemma HoldsInConcat(a: seq<Row>, b: seq<Row>, i: nat)
    requires i < |a| + |b|
    ensures Holds(a + b, if i < |a| then a[i].key else b[i - |a|].key)
  {
    assert (a + b)[i].key == if i < |a| then a[i].key else b[i - |a|].key;
  }

  lemma RestHolds(listing: Listing, tables: seq<seq<Row>>, after: Key, rest: Traversal, key: Key)
    requires tables != [] && ExactFrom(listing, tables[1..], Some(after), rest) && rest.done
    requires Before(OrderOf(listing), after, key)
    requires forall k :: 0 <= k < 1 + |rest.pages| ==> Present(FilterOf(listing), tables[k], key)
    ensures Holds(Concat(rest.pages), key)
  {
  }

  lemma ExactLast(listing: Listing, tables: seq<seq<Row>>, after: Option<Key>, all: seq<Row>)
    requires tables != [] && UniqueIds(tables[0])
    requires all == Remaining(OrderOf(listing), FilterOf(listing), after, tables[0])
    ensures ExactFrom(listing, tables, after, Traversal([all], true))
  {
    var f := FilterOf(listing);
    assert [all][1..] == [];
    assert Concat([all]) == all;
    RemainingFacts(OrderOf(listing), f, after, tables[0]);
    forall key | Beyond(OrderOf(listing), after, key) && forall k :: 0 <= k < 1 ==> Present(f, tables[k], key)
      ensures Holds(all, key)
    {
      assert Present(f, tables[0], key);
      var r :| r in tables[0] && r.key == key && Matches(f, r);
      assert r in all;
    }
  }

  lemma {:induction false} TraversalIsExact(listing: Listing, tables: seq<seq<Row>>, after: Option<Key>, limit: nat)
    requires limit > 0
    requires forall k :: 0 <= k < |tables| ==> UniqueIds(tables[k])
    ensures ExactFrom(listing, tables, after, Traverse(listing, tables, Encode(after), limit))
    decreases |tables|
  {
    if tables != [] {
      var (order, f) := (OrderOf(listing), FilterOf(listing));
      var page := FetchPage(order, f, after, limit, tables[0]);
      var all := Remaining(order, f, after, tables[0]);
      GetFetches(listing, tables[0], after, limit);
      PageSplitsRemaining(order, f, after, limit, tables[0], page, all);
      if page.next.None? {
        ExactLast(listing, tables, after, all);
      } else {
        var next := Some(all[limit - 1].key);
        TraversalIsExact(listing, tables[1..], next, limit);
        ExactCons(listing, tables, after, all, limit, Traverse(listing, tables[1..], Encode(next), limit));
      }
    }
  }

  /** A row keeps the creation time it was given, in whichever table it shows up. */
  ghost predicate KeysAreStable(tables: seq<seq<Row>>) {
    forall j, k, x, y ::
      0 <= j < |tables| && 0 <= k < |tables| && x in tables[j] && y in tables[k] && x.key.id == y.key.id ==>
      x.key == y.key
  }

  /** The row was made earlier; among rows made at the same instant ids decide. */
  predicate Older(a: Key, b: Key) { a.createdAt < b.createdAt || (a.createdAt == b.createdAt && a.id < b.id) }

  /** Newest first, unless the oldest are asked for first. */
  ghost predicate InOrder(listing: Listing, items: seq<Row>) {
    forall i, j :: 0 <= i < j < |items| ==>
      if listing == Generic(Asc) then Older(items[i].key, items[j].key) else Older(items[j].key, items[i].key)
  }

  /** The audit log's filters: who, what, where, and the first and the last instant, both included. */
  predicate Fits(listing: Listing, r: Row) {
    listing.AuditLog? ==>
      var f := listing.filter;
      && (f.user == None || r.user == f.user) && (f.action == None || Some(r.action) == f.action)
      && (f.ip == None || r.ip == f.ip)
      && !(f.dateFrom.Some? && r.key.createdAt < f.dateFrom.value)
      && !(f.dateTo.Some? && r.key.createdAt > f.dateTo.value)
  }

  ghost predicate Shows(listing: Listing, table: seq<Row>, key: Key) {
    exists r :: r in table && r.key == key && Fits(listing, r)
  }

  /** What a client has after following cursors: rows in strictly monotone (created_at, id) order,
      each matching and taken from some fetch's table, no id twice; and when the traversal is done,
      every row that was there at each fetch. */
  ghost predicate ExactlyOnce(listing: Listing, tables: seq<seq<Row>>, t: Traversal) {
    var items := Concat(t.pages);
    && |t.pages| <= |tables|
    && InOrder(listing, items)
    && (forall i, j :: 0 <= i < j < |items| ==> items[i].key.id != items[j].key.id)
    && (forall x :: x in items ==> Fits(listing, x) && exists k :: 0 <= k < |t.pages| && x in tables[k])
    && (t.done ==> forall key :: (forall k :: 0 <= k < |t.pages| ==> Shows(listing, tables[k], key)) ==>
       Holds(items, key))
  }

  lemma FitsIff(listing: Listing, r: Row)
    ensures Matches(FilterOf(listing), r) <==> Fits(listing, r)
  {
  }

  lemma ShowsIff(listing: Listing, table: seq<Row>, key: Key)
    ensures Present(FilterOf(listing), table, key) <==> Shows(listing, table, key)
  {
    forall r ensures Matches(FilterOf(listing), r) <==> Fits(listing, r) { FitsIff(listing, r); }
  }

  lemma OrderedIff(listing: Listing, items: seq<Row>)
    ensures Ordered(OrderOf(listing), items) <==> InOrder(listing, items)
  {
  }

  lemma ExactIsExactlyOnce(listing: Listing, tables: seq<seq<Row>>, t: Traversal)
    requires KeysAreStable(tables) && ExactFrom(listing, tables, None, t)
    ensures ExactlyOnce(listing, tables, t)
  {
    var items := Concat(t.pages);
    OrderedIff(listing, items);
    forall r ensures Matches(FilterOf(listing), r) <==> Fits(listing, r) { FitsIff(listing, r); }
    forall table, key ensures Present(FilterOf(listing), table, key) <==> Shows(listing, table, key) {
      ShowsIff(listing, table, key);
    }
    forall i, j | 0 <= i < j < |items| ensures items[i].key.id != items[j].key.id {
      assert Before(OrderOf(listing), items[i].key, items[j].key);
      assert items[i] in items && items[j] in items;
    }
  }

  /** Exactly once, whatever is inserted and deleted between the fetches (the cursor's own row
      included). */
  lemma ExactlyOnceUnderInterference(listing: Listing, tables: seq<seq<Row>>, limit: nat)
    requires limit > 0
    requires forall k :: 0 <= k < |tables| ==> UniqueIds(tables[k])
    requires KeysAreStable(tables)
    ensures ExactlyOnce(listing, tables, Traverse(listing, tables, None, limit))
  {
    TraversalIsExact(listing, tables, None, limit);
    ExactIsExactlyOnce(listing, tables, Traverse(listing, tables, None, limit));
  }

  /** Only the key of a cursor counts, however it is spelled; an empty cursor is none. */
  lemma CursorOutcome(listing: Listing, table: seq<Row>, key: Key, limit: nat)
    ensures Get(listing, table, Some(Empty), limit) == Get(listing, table, None, limit)
    ensures Get(listing, table, None, limit).Ok?
    ensures Get(listing, table, Some(Respelled(key)), limit) == Get(listing, table, Some(Encoded(key)), limit)
    ensures Get(listing, table, Some(Encoded(key)), limit).Ok?
    ensures Get(listing, table, Some(Garbage), limit) == Err(InvalidCursor)
  {
  }

  /** Whoever asks for no rows gets none, and no cursor. */
  lemma NoRowsAskedFor(listing: Listing, table: seq<Row>, cursor: Option<Cursor>)
    ensures Get(listing, table, cursor, 0) in {Ok(Page([], None)), Err(InvalidCursor)}
  {
  }

  // ---- On a fixed table: keyset refines offset ----

  /** The number of pages: they hold all rows, and one page less would not. */
  lemma PagesIff(total: nat, size: nat, pages: nat)
    requires size > 0
    ensures pages == CalculatePages(total, size) <==>
            size * pages >= total && (pages > 0 ==> size * (pages - 1) < total)
  {
    var p := CalculatePages(total, size);
    DivisionBounds(total + size - 1, size);
    Times(size, (total + size - 1) / size);
    if p > 0 { Times(size, p - 1); }
    if pages < p { Product(size, pages, p - 1); }
    if p < pages { Product(size, p, pages - 1); }
  }

  /** A bound below zero counts from the end. */
  function FromStart(n: nat, bound: int): int { if bound < 0 then n + bound else bound }

  predicate IsBetween(n: nat, start: int, end: int, i: int) { FromStart(n, start) <= i < FromStart(n, end) }

  /** A slice is a stretch of the list: the items whose position lies between the bounds. */
  ghost predicate Cuts(n: nat, start: int, end: int, lo: nat, hi: nat) {
    lo <= hi <= n && forall i :: 0 <= i < n ==> (lo <= i < hi <==> IsBetween(n, start, end, i))
  }

  lemma SliceIff(items: seq<Row>, start: int, end: int)
    ensures exists lo: nat, hi: nat :: Cuts(|items|, start, end, lo, hi) && Slice(items, start, end) == items[lo..hi]
  {
    var (lo, hi) := (SliceBound(|items|, start), SliceBound(|items|, end));
    var top := if lo <= hi then hi else lo;
    assert Cuts(|items|, start, end, lo, top);
    assert Slice(items, start, end) == items[lo..top];
  }

  lemma PaginateIff(items: seq<Row>, page: int, size: nat)
    ensures exists lo: nat, hi: nat ::
              Cuts(|items|, (page - 1) * size, page * size, lo, hi) && Paginate(items, page, size) == items[lo..hi]
  {
    assert (page - 1) * size + size == page * size;
    SliceIff(items, (page - 1) * size, page * size);
  }

  /** The list cut into pages of `limit`; an empty list is one empty page. */
  function Chunks(rows: seq<Row>, limit: nat): (r: seq<seq<Row>>)
    requires limit > 0
    ensures r != []
    decreases |rows|
  {
    if |rows| <= limit then [rows] else [rows[..limit]] + Chunks(rows[limit..], limit)
  }

  lemma {:induction false} ChunksConcat(rows: seq<Row>, limit: nat)
    requires limit > 0
    ensures Concat(Chunks(rows, limit)) == rows
    decreases |rows|
  {
    if |rows| > limit {
      ChunksConcat(rows[limit..], limit);
      assert Chunks(rows, limit)[1..] == Chunks(rows[limit..], limit);
      assert rows[..limit] + rows[limit..] == rows;
    } else {
      assert [rows][1..] == [];
    }
  }

  lemma Product(d: nat, a: int, b: int)
    requires a <= b
    ensures d * a <= d * b
  {
  }

  lemma Quotient(x: nat, d: nat, q: nat)
    requires 0 < d && d * q <= x < d * (q + 1)
    ensures x / d == q
  {
    var p := x / d;
    DivisionBounds(x, d);
    if p < q { Product(d, p + 1, q); }
    if q < p { Product(d, q + 1, p); }
  }

  lemma DivisionBounds(x: nat, d: nat)
    requires 0 < d
    ensures d * (x / d) <= x < d * (x / d + 1)
  {
  }

  lemma Times(d: nat, q: nat)
    ensures d * (q + 1) == d * q + d
  {
  }

  lemma PagesStep(n: nat, limit: nat)
    requires 0 < limit
    ensures 0 < n <= limit ==> CalculatePages(n, limit) == 1
    ensures n > limit ==> CalculatePages(n, limit) == 1 + CalculatePages(n - limit, limit)
  {
    if n > limit {
      var q := (n - 1) / limit;
      DivisionBounds(n - 1, limit);
      Times(limit, q);
      Times(limit, q + 1);
      Quotient(n + limit - 1, limit, q + 1);
    } else if n > 0 {
      Quotient(n + limit - 1, limit, 1);
    }
  }

  lemma {:induction false} ChunksAreOffsetPages(rows: seq<Row>, limit: nat)
    requires limit > 0
    ensures var chunks := Chunks(rows, limit);
            && |chunks| == (if rows == [] then 1 else CalculatePages(|rows|, limit))
            && forall k :: 0 <= k < |chunks| ==> chunks[k] == Paginate(rows, k + 1, limit)
    decreases |rows|
  {
    PagesStep(|rows|, limit);
    var chunks := Chunks(rows, limit);
    assert Paginate(rows, 1, limit) == Slice(rows, 0, limit);
    if |rows| > limit {
      ChunksAreOffsetPages(rows[limit..], limit);
      forall k | 0 < k < |chunks| ensures chunks[k] == Paginate(rows, k + 1, limit) {
        assert chunks[k] == Paginate(rows[limit..], k, limit);
        PaginateShift(rows, k, limit);
      }
    }
  }

  lemma PaginateShift(rows: seq<Row>, k: int, limit: nat)
    requires k > 0 && |rows| >= limit
    ensures Paginate(rows[limit..], k, limit) == Paginate(rows, k + 1, limit)
  {
    Product(limit, 0, k - 1);
    assert k * limit == (k - 1) * limit + limit;
    SliceShift(rows, limit, (k - 1) * limit);
  }

  lemma SliceShift(rows: seq<Row>, limit: nat, start: nat)
    requires |rows| >= limit
    ensures Slice(rows[limit..], start, start + limit) == Slice(rows, start + limit, start + limit + limit)
  {
  }

  lemma {:induction false} FixedTableChunks(listing: Listing, table: seq<Row>, tables: seq<seq<Row>>,
                                            after: Option<Key>, limit: nat)
    requires limit > 0 && UniqueIds(table)
    requires forall k :: 0 <= k < |tables| ==> tables[k] == table
    requires |Chunks(Remaining(OrderOf(listing), FilterOf(listing), after, table), limit)| <= |tables|
    ensures Traverse(listing, tables, Encode(after), limit) ==
            Traversal(Chunks(Remaining(OrderOf(listing), FilterOf(listing), after, table), limit), true)
    decreases |tables|
  {
    var (order, f) := (OrderOf(listing), FilterOf(listing));
    var page := FetchPage(order, f, after, limit, table);
    var all := Remaining(order, f, after, table);
    GetFetches(listing, table, after, limit);
    PageSplitsRemaining(order, f, after, limit, table, page, all);
    if page.next.Some? {
      FixedTableChunks(listing, table, tables[1..], Some(all[limit - 1].key), limit);
    }
  }

  /** On a table that does not change, following `next_cursor` from the start ends after
      max(1, pages) fetches; page k is the k-th offset page of the sorted, filtered rows, and the
      pages put together are all of them. */
  lemma KeysetRefinesOffset(listing: Listing, table: seq<Row>, tables: seq<seq<Row>>, limit: nat, sorted: seq<Row>)
    requires limit > 0 && UniqueIds(table)
    requires sorted == Sort(OrderOf(listing), Select(OrderOf(listing), FilterOf(listing), None, table))
    requires forall k :: 0 <= k < |tables| ==> tables[k] == table
    requires |tables| >= (if sorted == [] then 1 else CalculatePages(|sorted|, limit))
    ensures var t := Traverse(listing, tables, None, limit);
            && t.done
            && |t.pages| == (if sorted == [] then 1 else CalculatePages(|sorted|, limit))
            && (forall k :: 0 <= k < |t.pages| ==> t.pages[k] == Paginate(sorted, k + 1, limit))
            && Concat(t.pages) == sorted
  {
    ChunksAreOffsetPages(sorted, limit);
    FixedTableChunks(listing, table, tables, None, limit);
    ChunksConcat(sorted, limit);
  }

  // ---- Ascending is descending backwards ----

  function Reverse(rows: seq<Row>): (r: seq<Row>)
    ensures |r| == |rows|
    ensures forall i :: 0 <= i < |rows| ==> r[i] == rows[|rows| - 1 - i]
  {
    if rows == [] then [] else Reverse(rows[1..]) + [rows[0]]
  }

  lemma AscendingIsReversed(table: seq<Row>)
    requires UniqueIds(table)
    ensures Remaining(Asc, NO_FILTER, None, table) == Reverse(Remaining(Desc, NO_FILTER, None, table))
  {
    var (up, down) := (Remaining(Asc, NO_FILTER, None, table), Remaining(Desc, NO_FILTER, None, table));
    var back := Reverse(down);
    RemainingFacts(Asc, NO_FILTER, None, table);
    RemainingFacts(Desc, NO_FILTER, None, table);
    forall x ensures x in up <==> x in back {
      if x in down {
        var i :| 0 <= i < |down| && down[i] == x;
        assert back[|down| - 1 - i] == x;
      }
    }
    OrderedIsUnique(Asc, up, back);
  }

  /** The finished "asc" traversal of a fixed table is the finished "desc" one backwards. */
  lemma AscendingTraversalIsReversed(table: seq<Row>, tables: seq<seq<Row>>, limit: nat)
    requires limit > 0 && UniqueIds(table)
    requires forall k :: 0 <= k < |tables| ==> tables[k] == table
    requires |tables| >= (if table == [] then 1 else CalculatePages(|table|, limit))
    ensures var (up, down) := (Traverse(Generic(Asc), tables, None, limit),
            Traverse(Generic(Desc), tables, None, limit));
            && up.done && down.done
            && Concat(up.pages) == Reverse(Concat(down.pages))
  {
    SelectAll(Asc, table);
    SelectAll(Desc, table);
    KeysetRefinesOffset(Generic(Asc), table, tables, limit, Remaining(Asc, NO_FILTER, None, table));
    KeysetRefinesOffset(Generic(Desc), table, tables, limit, Remaining(Desc, NO_FILTER, None, table));
    AscendingIsReversed(table);
  }

  lemma {:induction false} SelectAll(order: Order, table: seq<Row>)
    ensures Select(order, NO_FILTER, None, table) == table
  {
    if table != [] { SelectAll(order, table[1..]); }
  }
}
