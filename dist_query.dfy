/**
 * The derived lists of the Distributions view: `filtered` (a date window,
 * the type and status filters, a sort by date, then the search box) and the
 * page of it the table shows.
 */
module DistQuery {
  import opened Text
  import opened Calendar
  import opened Sorting
  import opened DistRows

  // ------------------------------------------------------------------
  // The date window

  /** The first day shown: January 1 for "YTD", the month eleven months back for "12M", fifty years back otherwise. */
  function WindowStart(today: Date, timeframe: string): Date {
    if timeframe == "YTD" then Date(today.year, 1, 1)
    else if timeframe == "12M" then MonthStart(MonthIndex(today) - 11)
    else Date(today.year - 50, 1, 1)
  }

  /** The first day no longer shown: January 1 of next year. */
  function WindowEnd(today: Date): Date {
    Date(today.year + 1, 1, 1)
  }

  /** The row passes the window and both categorical filters. */
  predicate Passes(r: Row, start: Date, end: Date, rowType: string, status: string) {
    && !Before(r.date, start) && Before(r.date, end)
    && (rowType == "All" || r.rowType == rowType)
    && (status == "All" || r.status == status)
  }

  function InWindow(data: seq<Row>, start: Date, end: Date, rowType: string, status: string): (r: seq<Row>)
    ensures |r| <= |data|
    ensures multiset(r) <= multiset(data)
  {
    if data == [] then []
    else
      assert data == [data[0]] + data[1..];
      (if Passes(data[0], start, end, rowType, status) then [data[0]] else []) + InWindow(data[1..], start, end, rowType, status)
  }

  /** The sort comparator `new Date(a.date) - new Date(b.date)`, as "may stay before". */
  predicate DateAsc(a: Row, b: Row) {
    AtOrBefore(a.date, b.date)
  }

  /** `base`: the rows in the window, filtered, sorted by date. */
  function Base(data: seq<Row>, today: Date, timeframe: string, rowType: string, status: string): seq<Row> {
    StableSort(DateAsc, InWindow(data, WindowStart(today, timeframe), WindowEnd(today), rowType, status))
  }

  // ------------------------------------------------------------------
  // The search box

  /** A non-empty query matches a row through its type, its status, its date text or its amount text. */
  predicate RowMatches(r: Row, query: string) {
    || Contains(ToLower(r.rowType), query)
    || Contains(ToLower(r.status), query)
    || Contains(DateString(r.date), query)
    || Contains(r.amount.text, query)
  }

  function RowMatching(rows: seq<Row>, query: string): (r: seq<Row>)
    ensures |r| <= |rows|
    ensures multiset(r) <= multiset(rows)
  {
    if rows == [] then []
    else
      assert rows == [rows[0]] + rows[1..];
      (if RowMatches(rows[0], query) then [rows[0]] else []) + RowMatching(rows[1..], query)
  }

  /** The query filter keeps the order of what it keeps: it distributes over concatenation. */
  lemma {:induction false} RowMatchingAppend(a: seq<Row>, b: seq<Row>, query: string)
    ensures RowMatching(a + b, query) == RowMatching(a, query) + RowMatching(b, query)
  {
    if a == [] {
      assert a + b == b;
    } else {
      var head := if RowMatches(a[0], query) then [a[0]] else [];
      RowMatchingAppend(a[1..], b, query);
      var x, y := RowMatching(a[1..], query), RowMatching(b, query);
      assert RowMatching(a + b, query) == head + (x + y) by {
        AppendHeadTail(a, b);
      }
      assert RowMatching(a, query) == head + x;
      AppendAssoc(head, x, y);
    }
  }

  /** `filtered`. */
  function Filtered(data: seq<Row>, today: Date, timeframe: string, rowType: string, status: string, q: string): seq<Row> {
    var base := Base(data, today, timeframe, rowType, status);
    if Trim(q) == [] then base else RowMatching(base, ToLower(Trim(q)))
  }

  // ------------------------------------------------------------------
  // Paging

  const PageSize := 8

  /** `Math.max(1, Math.ceil(n / pageSize))`. */
  function PageCount(n: nat): int {
    if n == 0 then 1 else (n + PageSize - 1) / PageSize
  }

  /** The clamp effect: a page past the end is pulled back to the last page. */
  function ClampPage(page: int, n: nat): int {
    if page > PageCount(n) then PageCount(n) else page
  }

  /** The index `Array.prototype.slice` makes of a bound `i` on a list of length `n`. */
  function SliceIndex(i: int, n: nat): (k: nat)
    ensures k <= n
  {
    if i < 0 then (if n + i < 0 then 0 else n + i) else if i > n then n else i
  }

  /** `s.slice(start, end)`. */
  function Slice<T>(s: seq<T>, start: int, end: int): seq<T> {
    var lo := SliceIndex(start, |s|);
    var hi := SliceIndex(end, |s|);
    if lo < hi then s[lo..hi] else []
  }

  /** `visible`: `filtered.slice((page - 1) * pageSize, page * pageSize)`. */
  function Visible(rows: seq<Row>, page: int): seq<Row> {
    Slice(rows, (page - 1) * PageSize, page * PageSize)
  }

  // ------------------------------------------------------------------
  // What the window and the filters promise

  lemma {:induction false} InWindowMembers(data: seq<Row>, start: Date, end: Date, rowType: string, status: string, r: Row)
    ensures r in InWindow(data, start, end, rowType, status) <==> r in data && Passes(r, start, end, rowType, status)
  {
    if data != [] {
      InWindowMembers(data[1..], start, end, rowType, status, r);
      assert data == [data[0]] + data[1..];
    }
  }

  lemma {:induction false} RowMatchingMembers(rows: seq<Row>, query: string, r: Row)
    ensures r in RowMatching(rows, query) <==> r in rows && RowMatches(r, query)
  {
    if rows != [] {
      RowMatchingMembers(rows[1..], query, r);
      var head := if RowMatches(rows[0], query) then [rows[0]] else [];
      assert RowMatching(rows, query) == head + RowMatching(rows[1..], query);
      assert r in rows <==> r == rows[0] || r in rows[1..] by {
        assert rows == [rows[0]] + rows[1..];
      }
    }
  }

  /** Keeping some rows of an ordered list keeps it ordered. */
  lemma {:induction false} RowMatchingSorted(rows: seq<Row>, query: string)
    requires SortedBy(DateAsc, rows)
    ensures SortedBy(DateAsc, RowMatching(rows, query))
  {
    if rows != [] {
      RowMatchingSorted(rows[1..], query);
      var rest := RowMatching(rows[1..], query);
      forall k | 0 <= k < |rest| ensures DateAsc(rows[0], rest[k]) {
        assert rest[k] in multiset(rows[1..]);
        var j :| 0 <= j < |rows[1..]| && rows[1..][j] == rest[k];
        assert rows[j + 1] == rest[k];
      }
    }
  }

  lemma DateAscOrders()
    ensures TotalPreorder(DateAsc)
  {
  }

  /** A row is in the base list exactly when it is a row of `data` in the window that passes both filters. */
  lemma BaseMembers(data: seq<Row>, today: Date, timeframe: string, rowType: string, status: string, r: Row)
    ensures r in Base(data, today, timeframe, rowType, status) <==>
      && r in data
      && !Before(r.date, WindowStart(today, timeframe)) && Before(r.date, WindowEnd(today))
      && (rowType == "All" || r.rowType == rowType)
      && (status == "All" || r.status == status)
  {
    var start, end := WindowStart(today, timeframe), WindowEnd(today);
    var kept := InWindow(data, start, end, rowType, status);
    assert r in Base(data, today, timeframe, rowType, status) <==> r in multiset(kept);
    InWindowMembers(data, start, end, rowType, status, r);
  }

  /** The base list and the filtered list are in ascending date order. */
  lemma FilteredSorted(data: seq<Row>, today: Date, timeframe: string, rowType: string, status: string, q: string)
    ensures SortedBy(DateAsc, Base(data, today, timeframe, rowType, status))
    ensures SortedBy(DateAsc, Filtered(data, today, timeframe, rowType, status, q))
  {
    var start, end := WindowStart(today, timeframe), WindowEnd(today);
    StableSortSorted(DateAsc, InWindow(data, start, end, rowType, status));
    RowMatchingSorted(Base(data, today, timeframe, rowType, status), ToLower(Trim(q)));
  }

  /** A search box holding only white space leaves the base list as it is. */
  lemma BlankQueryKeepsBase(data: seq<Row>, today: Date, timeframe: string, rowType: string, status: string, q: string)
    requires AllSpace(q)
    ensures Filtered(data, today, timeframe, rowType, status, q) == Base(data, today, timeframe, rowType, status)
  {
    TrimEmpty(q);
  }

  /**
   * Otherwise a base row stays exactly when the trimmed, lower-cased query occurs in
   * its lower-cased type or status, its date text or its amount text; the rows kept
   * are a sub-multiset of the base and keep its order.
   */
  lemma QueryKeepsMatches(data: seq<Row>, today: Date, timeframe: string, rowType: string, status: string, q: string, r: Row)
    requires !AllSpace(q)
    ensures r in Filtered(data, today, timeframe, rowType, status, q) <==>
      r in Base(data, today, timeframe, rowType, status) && RowMatches(r, ToLower(Trim(q)))
    ensures Filtered(data, today, timeframe, rowType, status, q) == RowMatching(Base(data, today, timeframe, rowType, status), ToLower(Trim(q)))
    ensures multiset(Filtered(data, today, timeframe, rowType, status, q)) <= multiset(Base(data, today, timeframe, rowType, status))
    ensures |ToLower(Trim(q))| > 0
  {
    TrimEmpty(q);
    assert |ToLower(Trim(q))| == |Trim(q)|;
    RowMatchingMembers(Base(data, today, timeframe, rowType, status), ToLower(Trim(q)), r);
  }

  /** Every filtered row lies in the window and passes both filters. */
  lemma FilteredRowsPass(data: seq<Row>, today: Date, timeframe: string, rowType: string, status: string, q: string, r: Row)
    requires r in Filtered(data, today, timeframe, rowType, status, q)
    ensures r in data
    ensures !Before(r.date, WindowStart(today, timeframe)) && Before(r.date, WindowEnd(today))
    ensures rowType == "All" || r.rowType == rowType
    ensures status == "All" || r.status == status
  {
    var base := Base(data, today, timeframe, rowType, status);
    if Trim(q) != [] {
      RowMatchingMembers(base, ToLower(Trim(q)), r);
    }
    BaseMembers(data, today, timeframe, rowType, status, r);
  }

  /** The "12M" window opens on the first day of the month eleven months before the current one. */
  lemma TwelveMonthWindow(today: Date)
    requires 1 <= today.month <= 12
    ensures var s := WindowStart(today, "12M");
      && s.day == 1
      && (today.month == 12 ==> s == Date(today.year, 1, 1))
      && (today.month < 12 ==> s == Date(today.year - 1, today.month + 1, 1))
  {
  }

  // ------------------------------------------------------------------
  // What paging promises

  /** The page count is the least number of pages of eight that hold `n` rows, and never below one. */
  lemma PageCountIsCeiling(n: nat)
    ensures PageCount(n) >= 1
    ensures n <= PageCount(n) * PageSize
    ensures n > 0 ==> (PageCount(n) - 1) * PageSize < n
  {
  }

  /** For example 25 rows make four pages and the last one holds one row. */
  lemma PageCountExample(rows: seq<Row>)
    requires |rows| == 25
    ensures PageCount(|rows|) == 4
    ensures Visible(rows, 4) == [rows[24]]
  {
  }

  /** The clamped page is at most the page count, and a page already in range is kept. */
  lemma ClampPageInRange(page: int, n: nat)
    ensures ClampPage(page, n) <= PageCount(n)
    ensures page >= 1 ==> ClampPage(page, n) >= 1
    ensures page <= PageCount(n) ==> ClampPage(page, n) == page
  {
  }

  /** A page from one on is the run of rows from `(page - 1) * 8`, at most eight of them. */
  lemma VisibleIsPage(rows: seq<Row>, page: int)
    requires page >= 1
    ensures |Visible(rows, page)| <= PageSize
    ensures (page - 1) * PageSize <= |rows| ==>
      Visible(rows, page) == rows[(page - 1) * PageSize..if page * PageSize <= |rows| then page * PageSize else |rows|]
    ensures (page - 1) * PageSize >= |rows| ==> Visible(rows, page) == []
  {
  }

  /** Any page shows at most eight rows. */
  lemma VisibleAtMostPageSize(rows: seq<Row>, page: int)
    ensures |Visible(rows, page)| <= PageSize
  {
    if page < 1 {
      assert page * PageSize <= 0;
    }
  }

  /** Every page in range shows at least one row when there are rows. */
  lemma VisibleNonEmpty(rows: seq<Row>, page: int)
    requires |rows| > 0 && 1 <= page <= PageCount(|rows|)
    ensures |Visible(rows, page)| >= 1
  {
    PageCountIsCeiling(|rows|);
  }

  /** Row `k` shows on page `k / 8 + 1`, at position `k % 8`. */
  lemma RowOnItsPage(rows: seq<Row>, k: nat)
    requires k < |rows|
    ensures 1 <= k / PageSize + 1 <= PageCount(|rows|)
    ensures k % PageSize < |Visible(rows, k / PageSize + 1)|
    ensures Visible(rows, k / PageSize + 1)[k % PageSize] == rows[k]
  {
    var p := k / PageSize + 1;
    assert (p - 1) * PageSize <= k < p * PageSize;
    VisibleIsPage(rows, p);
  }
}
