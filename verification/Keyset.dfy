/** Keyset pagination over (created_at, id), and the offset pagination it stands in for. */
module Keyset {
  import opened Prelude

  datatype Key = Key(createdAt: int, id: nat)

  /** A row of a paginated table: its key and the columns the audit filters look at. */
  datatype Row = Row(key: Key, user: Option<nat>, action: nat, ip: Option<string>)

  /** The audit-log filters; an absent one does not restrict. */
  datatype Filter = Filter(user: Option<nat>, action: Option<nat>, dateFrom: Option<int>, dateTo: Option<int>,
                           ip: Option<string>)

  datatype Order = Asc | Desc

  /** A cursor text: empty, what `encode_cursor` produces for a key, another spelling that decodes to
      a key (base64 with stray characters, JSON with other spacing), or one that does not decode. */
  datatype Cursor = Empty | Encoded(key: Key) | Respelled(key: Key) | Garbage

  datatype Page = Page(items: seq<Row>, next: Option<Cursor>)

  datatype PageError = InvalidCursor

  const NO_FILTER := Filter(None, None, None, None, None)

  predicate Matches(f: Filter, r: Row) {
    && (f.user.Some? ==> r.user == f.user)
    && (f.action.Some? ==> r.action == f.action.value)
    && (f.dateFrom.Some? ==> r.key.createdAt >= f.dateFrom.value)
    && (f.dateTo.Some? ==> r.key.createdAt <= f.dateTo.value)
    && (f.ip.Some? ==> r.ip == f.ip)
  }

  /** `a` comes strictly before `b` in a listing of the given order. */
  predicate Before(order: Order, a: Key, b: Key) {
    match order
    case Asc => a.createdAt < b.createdAt || (a.createdAt == b.createdAt && a.id < b.id)
    case Desc => a.createdAt > b.createdAt || (a.createdAt == b.createdAt && a.id > b.id)
  }

  // ---- The query ----

  /** The WHERE clause: the filter, and the keyset condition when there is a cursor. */
  function Select(order: Order, f: Filter, after: Option<Key>, table: seq<Row>): (r: seq<Row>)
    ensures forall row :: row in r <==>
            row in table && Matches(f, row) && (after.Some? ==> Before(order, after.value, row.key))
  {
    if table == [] then []
    else
      var rest := Select(order, f, after, table[1..]);
      if Matches(f, table[0]) && (after.Some? ==> Before(order, after.value, table[0].key)) then [table[0]] + rest
        else rest
  }

  function Insert(order: Order, row: Row, sorted: seq<Row>): (r: seq<Row>)
    ensures |r| == |sorted| + 1
    ensures forall x :: x in r <==> x == row || x in sorted
  {
    if sorted == [] || Before(order, row.key, sorted[0].key) then [row] + sorted
    else [sorted[0]] + Insert(order, row, sorted[1..])
  }

  /** The ORDER BY clause. */
  function Sort(order: Order, rows: seq<Row>): (r: seq<Row>)
    ensures |r| == |rows|
    ensures forall x :: x in r <==> x in rows
  {
    if rows == [] then [] else Insert(order, rows[0], Sort(order, rows[1..]))
  }

  function Take(rows: seq<Row>, n: nat): seq<Row> {
    if n <= |rows| then rows[..n] else rows
  }

  /** Fetches limit + 1 rows and keeps `limit` of them; the extra one says that there is more. */
  function FetchPage(order: Order, f: Filter, after: Option<Key>, limit: nat, table: seq<Row>): Page {
    var rows := Take(Sort(order, Select(order, f, after, table)), limit + 1);
    var items := Take(rows, limit);
    Page(items, if |rows| > limit && items != [] then Some(EncodeCursor(items[|items| - 1].key)) else None)
  }

  function EncodeCursor(key: Key): Cursor { Encoded(key) }

  function DecodeCursor(cursor: Cursor): Result<Key, PageError> {
    if cursor.Encoded? || cursor.Respelled? then Ok(cursor.key) else Err(InvalidCursor)
  }

  /** The key to start behind: none without a cursor, and none for an empty one. */
  function StartAfter(cursor: Option<Cursor>): Result<Option<Key>, PageError> {
    if cursor.None? || cursor.value.Empty? then Ok(None)
    else match DecodeCursor(cursor.value)
      case Err(e) => Err(e)
      case Ok(key) => Ok(Some(key))
  }

  function GetCursorPage(table: seq<Row>, cursor: Option<Cursor>, limit: nat, order: Order): Result<Page, PageError> {
    match StartAfter(cursor)
    case Err(e) => Err(e)
    case Ok(after) => Ok(FetchPage(order, NO_FILTER, after, limit, table))
  }

  function GetCursorFilteredPage(table: seq<Row>, f: Filter, cursor: Option<Cursor>,
                                 limit: nat): Result<Page, PageError>
  {
    match StartAfter(cursor)
    case Err(e) => Err(e)
    case Ok(after) => Ok(FetchPage(Desc, f, after, limit, table))
  }

  // ---- Offset pagination ----

  /** Python's `items[start:end]`. */
  function Slice<T>(items: seq<T>, start: int, end: int): seq<T> {
    var lo := SliceBound(|items|, start);
    var hi := SliceBound(|items|, end);
    if lo <= hi then items[lo..hi] else []
  }

  function SliceBound(n: nat, i: int): (b: nat)
    ensures b <= n
  {
    if i < 0 then (if n + i < 0 then 0 else n + i) else if i > n then n else i
  }

  function Paginate<T>(items: seq<T>, page: int, size: int): seq<T> {
    Slice(items, (page - 1) * size, (page - 1) * size + size)
  }

  function CalculatePages(total: nat, size: nat): nat
    requires size > 0
  {
    if total > 0 then (total + size - 1) / size else 0
  }

  const MAX_PAGE_SIZE: nat := 200

  /** `get_page`: rows in table order, the limit clamped; the count is read off the first row. */
  function GetPage(table: seq<Row>, offset: nat, limit: nat): (seq<Row>, nat) {
    var clamped := if limit < MAX_PAGE_SIZE then limit else MAX_PAGE_SIZE;
    var rows := Take(if offset <= |table| then table[offset..] else [], clamped);
    (rows, if rows != [] then |table| else 0)
  }

  /** The page is a stretch of the table; its total is the table's size iff the page has a row to read
      it from, or there is nothing to count. */
  lemma PageTotalIff(table: seq<Row>, offset: nat, limit: nat)
    ensures var (items, total) := GetPage(table, offset, limit);
            && items == Slice(table, offset, offset + (if limit < 200 then limit else 200))
            && (total == |table| <==> table == [] || (offset < |table| && limit > 0))
  {
  }

  // ---- Sorting facts ----

  predicate Ordered(order: Order, rows: seq<Row>) {
    forall i, j :: 0 <= i < j < |rows| ==> Before(order, rows[i].key, rows[j].key)
  }

  /** No two positions of the table hold the same id. */
  predicate UniqueIds(table: seq<Row>) {
    forall i, j :: 0 <= i < j < |table| ==> table[i].key.id != table[j].key.id
  }

  lemma {:induction false} SelectUnique(order: Order, f: Filter, after: Option<Key>, table: seq<Row>)
    requires UniqueIds(table)
    ensures UniqueIds(Select(order, f, after, table))
  {
    if table != [] {
      SelectUnique(order, f, after, table[1..]);
      var rest := Select(order, f, after, table[1..]);
      forall k | 0 <= k < |rest| ensures rest[k].key.id != table[0].key.id {
        assert rest[k] in table[1..];
      }
    }
  }

  lemma {:induction false} InsertOrdered(order: Order, row: Row, sorted: seq<Row>)
    requires Ordered(order, sorted)
    requires forall x :: x in sorted ==> x.key.id != row.key.id
    ensures Ordered(order, Insert(order, row, sorted))
  {
    if sorted == [] || Before(order, row.key, sorted[0].key) {
    } else {
      assert sorted[0] in sorted;
      InsertOrdered(order, row, sorted[1..]);
      var tail := Insert(order, row, sorted[1..]);
      forall k | 0 <= k < |tail| ensures Before(order, sorted[0].key, tail[k].key) {
        assert tail[k] in tail;
        if tail[k] != row {
          var i :| 0 <= i < |sorted[1..]| && sorted[1..][i] == tail[k];
          assert sorted[i + 1] == tail[k];
        }
      }
    }
  }

  lemma {:induction false} SortOrdered(order: Order, rows: seq<Row>)
    requires UniqueIds(rows)
    ensures Ordered(order, Sort(order, rows))
  {
    if rows != [] {
      SortOrdered(order, rows[1..]);
      forall x | x in Sort(order, rows[1..]) ensures x.key.id != rows[0].key.id {
        var i :| 0 <= i < |rows[1..]| && rows[1..][i] == x;
        assert rows[i + 1] == x;
      }
      InsertOrdered(order, rows[0], Sort(order, rows[1..]));
    }
  }

  /** A set of rows has at most one listing in a given order. */
  lemma {:induction false} OrderedIsUnique(order: Order, a: seq<Row>, b: seq<Row>)
    requires Ordered(order, a) && Ordered(order, b)
    requires forall x :: x in a <==> x in b
    ensures a == b
  {
    assert b != [] ==> b[0] in b;
    if a != [] {
      assert a[0] in b && b != [];
      assert b[0] in a;
      var i :| 0 <= i < |b| && b[i] == a[0];
      var j :| 0 <= j < |a| && a[j] == b[0];
      assert i == 0 || Before(order, b[0].key, b[i].key);
      assert j == 0 || Before(order, a[0].key, a[j].key);
      forall x ensures x in a[1..] <==> x in b[1..] {
        if x in a[1..] {
          var k :| 1 <= k < |a| && a[k] == x;
          assert x in b && x != b[0];
        }
        if x in b[1..] {
          var k :| 1 <= k < |b| && b[k] == x;
          assert x in a && x != a[0];
        }
      }
      OrderedIsUnique(order, a[1..], b[1..]);
    }
  }

  // ---- One page ----

  /** The rows a page and everything after it range over. */
  function Remaining(order: Order, f: Filter, after: Option<Key>, table: seq<Row>): seq<Row> {
    Sort(order, Select(order, f, after, table))
  }

  lemma RemainingFacts(order: Order, f: Filter, after: Option<Key>, table: seq<Row>)
    requires UniqueIds(table)
    ensures Ordered(order, Remaining(order, f, after, table))
    ensures forall x :: x in Remaining(order, f, after, table) <==>
                        x in table && Matches(f, x) && (after.Some? ==> Before(order, after.value, x.key))
  {
    SelectUnique(order, f, after, table);
    SortOrdered(order, Select(order, f, after, table));
  }

  /** In an ordered listing, the rows after position k - 1 are those whose key comes after its key. */
  lemma SuffixByKey(order: Order, all: seq<Row>, k: nat, x: Row)
    requires Ordered(order, all) && 0 < k <= |all|
    ensures x in all[k..] <==> x in all && Before(order, all[k - 1].key, x.key)
  {
  }

  lemma RemainingAfter(order: Order, f: Filter, after: Option<Key>, table: seq<Row>, all: seq<Row>, k: nat)
    requires UniqueIds(table)
    requires all == Remaining(order, f, after, table) && 0 < k <= |all|
    ensures Remaining(order, f, Some(all[k - 1].key), table) == all[k..]
  {
    var cursor := all[k - 1].key;
    RemainingFacts(order, f, after, table);
    RemainingFacts(order, f, Some(cursor), table);
    assert all[k - 1] in all;
    forall x ensures x in Remaining(order, f, Some(cursor), table) <==> x in all[k..] {
      SuffixByKey(order, all, k, x);
    }
    OrderedIsUnique(order, Remaining(order, f, Some(cursor), table), all[k..]);
  }

  /** A page is a prefix of what remains; without a next cursor it is all of it, otherwise what
      remains after its cursor is exactly the rest. */
  lemma PageSplitsRemaining(order: Order, f: Filter, after: Option<Key>, limit: nat, table: seq<Row>, page: Page,
                            all: seq<Row>)
    requires UniqueIds(table) && limit > 0
    requires page == FetchPage(order, f, after, limit, table) && all == Remaining(order, f, after, table)
    ensures page.next.None? ==> page.items == all && |all| <= limit
    ensures page.next.Some? ==>
            && limit < |all| && page.items == all[..limit]
            && page.next.value == Encoded(all[limit - 1].key)
            && Remaining(order, f, Some(all[limit - 1].key), table) == all[limit..]
  {
    if |all| > limit {
      assert Take(Take(all, limit + 1), limit) == all[..limit];
      RemainingAfter(order, f, after, table, all, limit);
    }
  }
}
