/**
 * The read side of the log: `Custom_URM_Logs_Table::get_logs` (search,
 * newest first, one page at an offset, the total and the page count) and
 * `prepare_items`, which stores the page and the column headers on the
 * list-table object without touching the log table.
 */
module LogsTable {
  import opened Php
  import opened LogStore

  /**
   * The request parameters `get_logs` works from, as WordPress hands them
   * over: the sanitized search text (empty when absent), the page number
   * (`get_pagenum()`, never below 1), the page size (`get_items_per_page`,
   * 10 unless configured) and the sort parameters a click on a sortable
   * column header adds to the request.
   */
  datatype ListRequest = ListRequest(
    search: string,
    page: nat,
    perPage: nat,
    orderby: Option<string>,
    order: Option<string>)

  /** `url LIKE '%search%' OR user_agent LIKE '%search%'`. */
  predicate MatchesSearch(row: Row, search: string) {
    Contains(row.url, search) || Contains(row.userAgent, search)
  }

  /** The rows that satisfy the search clause: exactly the matching rows, each as often as in the table. */
  function Search(rows: seq<Row>, search: string): (r: seq<Row>)
    ensures |r| <= |rows|
    ensures forall k :: 0 <= k < |r| ==> MatchesSearch(r[k], search)
    ensures forall x :: MatchesSearch(x, search) ==> multiset(r)[x] == multiset(rows)[x]
    ensures forall x :: !MatchesSearch(x, search) ==> multiset(r)[x] == 0
    decreases |rows|
  {
    if rows == [] then []
    else
      var rest := Search(rows[1..], search);
      assert rows == [rows[0]] + rows[1..];
      if MatchesSearch(rows[0], search) then [rows[0]] + rest else rest
  }

  /** The rows the query selects: all of them when the search text is empty in PHP's sense. */
  function Selected(rows: seq<Row>, search: string): seq<Row> {
    if EmptyString(search) then rows else Search(rows, search)
  }

  /** Newest first: `ORDER BY time DESC`. */
  predicate TimeDescending(s: seq<Row>) {
    forall j, k :: 0 <= j < k < |s| ==> s[j].time >= s[k].time
  }

  /** A row no older than the head of a newest-first sequence can go in front of it. */
  lemma ConsDescending(a: Row, t: seq<Row>)
    requires TimeDescending(t)
    requires t == [] || a.time >= t[0].time
    ensures TimeDescending([a] + t)
  {
    var r := [a] + t;
    forall j, k | 0 <= j < k < |r| ensures r[j].time >= r[k].time {
      if j == 0 && k > 1 { assert t[0].time >= t[k - 1].time; }
    }
  }

  function InsertByTime(x: Row, s: seq<Row>): (r: seq<Row>)
    requires TimeDescending(s)
    ensures TimeDescending(r)
    ensures multiset(r) == multiset(s) + multiset{x}
    ensures |r| == |s| + 1
    ensures r[0] == x || (s != [] && r[0] == s[0])
    decreases |s|
  {
    if s == [] || x.time >= s[0].time then
      ConsDescending(x, s);
      [x] + s
    else
      var rest := InsertByTime(x, s[1..]);
      assert s == [s[0]] + s[1..];
      ConsDescending(s[0], rest);
      [s[0]] + rest
  }

  /**
   * One order `ORDER BY time DESC` may return: newest first and a
   * rearrangement of its input. Rows with equal times keep their table
   * order here; the query itself leaves that order open.
   */
  function ByTimeDesc(rows: seq<Row>): (r: seq<Row>)
    ensures TimeDescending(r)
    ensures multiset(r) == multiset(rows)
    ensures |r| == |rows|
    decreases |rows|
  {
    if rows == [] then []
    else
      assert rows == [rows[0]] + rows[1..];
      InsertByTime(rows[0], ByTimeDesc(rows[1..]))
  }

  /** `LIMIT limit OFFSET offset`: at most `limit` rows, from position `offset` on. */
  function Window(s: seq<Row>, offset: nat, limit: nat): (r: seq<Row>)
    ensures |r| <= limit
    ensures offset >= |s| ==> r == []
    ensures forall k :: 0 <= k < |r| ==> offset + k < |s| && r[k] == s[offset + k]
    ensures offset + limit <= |s| ==> |r| == limit
    ensures offset < |s| < offset + limit ==> |r| == |s| - offset
  {
    var lo := if offset < |s| then offset else |s|;
    var hi := if offset + limit < |s| then offset + limit else |s|;
    s[lo..hi]
  }

  /** `ceil($total / $per_page)`: the fewest pages of `perPage` rows that hold `total` rows. */
  function CeilDiv(total: nat, perPage: nat): (pages: nat)
    requires perPage >= 1
    ensures pages * perPage >= total
    ensures pages == 0 || (pages - 1) * perPage < total
  {
    var q := (total + perPage - 1) / perPage;
    assert q * perPage <= total + perPage - 1 < (q + 1) * perPage;
    q
  }

  /** The arguments `get_logs` passes to `set_pagination_args`. */
  datatype Pagination = Pagination(totalItems: nat, perPage: nat, totalPages: nat)

  /** What `get_logs` produces: the rows of the page and the pagination. */
  datatype LogsPage = LogsPage(logs: seq<Row>, pagination: Pagination)

  /** The offset of a page: `($current_page - 1) * $per_page`. */
  function Offset(page: nat, perPage: nat): nat
    requires page >= 1
  {
    (page - 1) * perPage
  }

  /**
   * The query of `get_logs`: the selected rows newest first, the page at
   * `Offset(page, perPage)`, at most `perPage` of them, with the number of
   * selected rows and the page count.
   */
  function LogsQuery(rows: seq<Row>, req: ListRequest): (r: LogsPage)
    requires req.page >= 1 && req.perPage >= 1
    ensures |r.logs| <= req.perPage
    ensures TimeDescending(r.logs)
    ensures forall x :: x in r.logs ==> x in rows
    ensures !EmptyString(req.search) ==> forall x :: x in r.logs ==> MatchesSearch(x, req.search)
    ensures EmptyString(req.search) ==> r.pagination.totalItems == |rows|
    ensures r.pagination.totalItems == |Selected(rows, req.search)|
    ensures r.pagination.perPage == req.perPage
    ensures r.pagination.totalPages * req.perPage >= r.pagination.totalItems
    ensures r.pagination.totalPages == 0 || (r.pagination.totalPages - 1) * req.perPage < r.pagination.totalItems
    ensures forall k :: 0 <= k < |r.logs| ==>
      Offset(req.page, req.perPage) + k < |Selected(rows, req.search)| &&
      r.logs[k] == ByTimeDesc(Selected(rows, req.search))[Offset(req.page, req.perPage) + k]
  {
    var selected := Selected(rows, req.search);
    var sorted := ByTimeDesc(selected);
    var logs := Window(sorted, Offset(req.page, req.perPage), req.perPage);
    WindowKeepsOrder(sorted, Offset(req.page, req.perPage), req.perPage);
    WindowRowsFromTable(rows, req.search, Offset(req.page, req.perPage), req.perPage);
    var total := |selected|;
    LogsPage(logs, Pagination(total, req.perPage, CeilDiv(total, req.perPage)))
  }

  lemma WindowKeepsOrder(s: seq<Row>, offset: nat, limit: nat)
    requires TimeDescending(s)
    ensures TimeDescending(Window(s, offset, limit))
  {
    var w := Window(s, offset, limit);
    forall j, k | 0 <= j < k < |w| ensures w[j].time >= w[k].time {
      assert w[j] == s[offset + j] && w[k] == s[offset + k];
    }
  }

  lemma WindowRowsFromTable(rows: seq<Row>, search: string, offset: nat, limit: nat)
    ensures forall x :: x in Window(ByTimeDesc(Selected(rows, search)), offset, limit) ==>
      x in rows && (!EmptyString(search) ==> MatchesSearch(x, search))
  {
    var selected := Selected(rows, search);
    var sorted := ByTimeDesc(selected);
    var w := Window(sorted, offset, limit);
    forall x | x in w ensures x in rows && (!EmptyString(search) ==> MatchesSearch(x, search)) {
      var k :| 0 <= k < |w| && w[k] == x;
      assert x == sorted[offset + k];
      assert x in multiset(sorted);
      assert x in multiset(selected);
      if !EmptyString(search) {
        assert multiset(selected)[x] > 0;
      } else {
        assert x in selected;
      }
    }
  }

  /** The sort parameters of the request have no effect on the result. */
  lemma SortParametersIgnored(rows: seq<Row>, req: ListRequest, orderby: Option<string>, order: Option<string>)
    requires req.page >= 1 && req.perPage >= 1
    ensures LogsQuery(rows, req.(orderby := orderby, order := order)) == LogsQuery(rows, req)
  {
  }

  /**
   * The pages partition the selected rows: the row at position `p` of the
   * newest-first order is row `p % perPage` of page `p / perPage + 1`.
   */
  lemma {:induction false} EveryRowOnItsPage(rows: seq<Row>, req: ListRequest, p: nat)
    requires req.page >= 1 && req.perPage >= 1
    requires p < |Selected(rows, req.search)|
    ensures var page := req.(page := p / req.perPage + 1);
      var r := LogsQuery(rows, page);
      p % req.perPage < |r.logs| &&
      r.logs[p % req.perPage] == ByTimeDesc(Selected(rows, req.search))[p]
  {
    var n := req.perPage;
    var sorted := ByTimeDesc(Selected(rows, req.search));
    var offset := Offset(p / n + 1, n);
    PageArithmetic(p, n);
    var w := Window(sorted, offset, n);
    assert w == sorted[offset..if offset + n < |sorted| then offset + n else |sorted|];
    assert w[p % n] == sorted[p];
  }

  lemma PageArithmetic(p: nat, n: nat)
    requires n >= 1
    ensures Offset(p / n + 1, n) + p % n == p
    ensures p % n < n
  {
  }

  /**
   * A column key and its label, in display order (`get_columns`). The labels
   * are the English text before `esc_html__` translates it for the site.
   */
  const Columns: seq<(string, string)> := [
    ("time", "Time"),
    ("url", "URL"),
    ("user_agent", "User Agent"),
    ("request_headers", "Request Headers"),
    ("request_body", "Request Body"),
    ("response_code", "Response Code")]

  /** A sortable column: its key, the orderby value, and whether it starts descending (`get_sortable_columns`). */
  const SortableColumns: seq<(string, string, bool)> := [
    ("time", "time", true),
    ("url", "url", false),
    ("user_agent", "user_agent", false),
    ("response_code", "response_code", false)]

  /** `$this->_column_headers`: columns, hidden columns, sortable columns. */
  datatype ColumnHeaders = ColumnHeaders(
    columns: seq<(string, string)>,
    hidden: seq<string>,
    sortable: seq<(string, string, bool)>)

  /** The list-table object the logs tab renders. */
  class LogsListTable {
    var items: seq<Row>
    var columnHeaders: Option<ColumnHeaders>
    var pagination: Option<Pagination>

    constructor ()
      ensures items == [] && columnHeaders == None && pagination == None
    {
      items := [];
      columnHeaders := None;
      pagination := None;
    }

    /**
     * `get_logs`: returns the page of rows and records the pagination on
     * the object; it only reads the log table.
     */
    method GetLogs(table: LogTable, req: ListRequest) returns (logs: seq<Row>)
      requires req.page >= 1 && req.perPage >= 1
      modifies this`pagination
      ensures logs == LogsQuery(table.rows, req).logs
      ensures pagination == Some(LogsQuery(table.rows, req).pagination)
      ensures unchanged(table)
    {
      var perPage := req.perPage;
      var offset := (req.page - 1) * perPage;
      var selected;
      if !EmptyString(req.search) {
        selected := Search(table.rows, req.search);
      } else {
        selected := table.rows;
      }
      assert selected == Selected(table.rows, req.search);
      assert offset == Offset(req.page, req.perPage);
      var total := |selected|;
      logs := Window(ByTimeDesc(selected), offset, perPage);
      pagination := Some(Pagination(total, perPage, CeilDiv(total, perPage)));
    }

    /**
     * `prepare_items`: sets the column headers and the items of the page;
     * the log table is left as it was.
     */
    method PrepareItems(table: LogTable, req: ListRequest)
      requires req.page >= 1 && req.perPage >= 1
      modifies this
      ensures columnHeaders == Some(ColumnHeaders(Columns, [], SortableColumns))
      ensures items == LogsQuery(table.rows, req).logs
      ensures pagination == Some(LogsQuery(table.rows, req).pagination)
      ensures unchanged(table)
    {
      columnHeaders := Some(ColumnHeaders(Columns, [], SortableColumns));
      items := GetLogs(table, req);
    }
  }
}
