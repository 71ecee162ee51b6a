/**
 * The `custom_urm_logs` table and the three functions that write it: the
 * request logger that inserts a "Pending" row, the response logger that
 * finalizes the latest pending row for the same URL, and the bulk clear.
 */
module LogStore {
  import opened Php
  import opened WordPress
  import opened Endpoints

  /** The status of a row whose response has not been seen yet. */
  const Pending := "Pending"

  /** The status of a response that carries no HTTP code. */
  const Unknown := "Unknown"

  /** One row: (id, time, url, user_agent, request_headers, request_body, response_code). */
  datatype Row = Row(
    id: nat,
    time: int,
    url: string,
    userAgent: string,
    requestHeaders: string,
    requestBody: string,
    responseCode: string)

  /**
   * What the HTTP API hands the response logger: an error object with its
   * error code, or a response array whose `['response']['code']` may be
   * missing (`code` is that value after `intval`).
   */
  datatype Response = WpError(errorCode: string) | HttpResponse(code: Option<int>)

  /**
   * The status written into the row: the error code of an error, the HTTP
   * code in decimal if there is one, otherwise "Unknown". An HTTP response
   * never leaves its row "Pending", a numeric code is never taken for
   * "Unknown", and the stored digits denote the code.
   */
  function ResponseCode(response: Response): (code: string)
    ensures response.WpError? ==> code == response.errorCode
    ensures response.HttpResponse? ==> code != Pending
    ensures response.HttpResponse? ==> (code == Unknown <==> response.code.None?)
    ensures response.HttpResponse? && response.code.Some? ==> code == Decimal(response.code.value)
    ensures response.HttpResponse? && response.code.Some? && response.code.value >= 0 ==>
      DecimalValue(code) == response.code.value
  {
    match response
    case WpError(e) => e
    case HttpResponse(None) => Unknown
    case HttpResponse(Some(c)) =>
      var s := Decimal(c);
      assert s[0] != 'P' && s[0] != 'U';
      s
  }

  /** A row still waiting for the response to a request to `url`. */
  predicate IsPendingFor(row: Row, url: string) {
    row.url == url && row.responseCode == Pending
  }

  predicate HasPending(rows: seq<Row>, url: string) {
    exists k :: 0 <= k < |rows| && IsPendingFor(rows[k], url)
  }

  /**
   * Row `i` is an answer to `... WHERE url = $url AND response_code =
   * 'Pending' ORDER BY time DESC LIMIT 1`: pending for `url` and no other
   * such row is later. Rows with the same time are all answers.
   */
  predicate IsLatestPending(rows: seq<Row>, url: string, i: int) {
    && 0 <= i < |rows|
    && IsPendingFor(rows[i], url)
    && forall k :: 0 <= k < |rows| && IsPendingFor(rows[k], url) ==> rows[k].time <= rows[i].time
  }

  /** Whenever a pending row for the URL exists, the query has an answer. */
  lemma {:induction false} LatestPendingExists(rows: seq<Row>, url: string)
    requires HasPending(rows, url)
    ensures exists i :: 0 <= i < |rows| && IsLatestPending(rows, url, i)
    decreases |rows|
  {
    var last := |rows| - 1;
    var init := rows[..last];
    if HasPending(init, url) {
      LatestPendingExists(init, url);
      var i :| 0 <= i < |init| && IsLatestPending(init, url, i);
      if IsPendingFor(rows[last], url) && rows[last].time > rows[i].time {
        assert IsLatestPending(rows, url, last);
      } else {
        assert IsLatestPending(rows, url, i);
      }
    } else {
      assert IsPendingFor(rows[last], url);
      assert IsLatestPending(rows, url, last);
    }
  }

  /** `UPDATE ... SET response_code = $code WHERE id = $id`. */
  function SetResponseCode(rows: seq<Row>, id: nat, code: string): (r: seq<Row>)
    ensures |r| == |rows|
  {
    seq(|rows|, k requires 0 <= k < |rows| =>
      if rows[k].id == id then rows[k].(responseCode := code) else rows[k])
  }

  /** Ids grow with insertion order, as AUTO_INCREMENT hands them out. */
  predicate IdsIncreasing(rows: seq<Row>) {
    forall j, k :: 0 <= j < k < |rows| ==> rows[j].id < rows[k].id
  }

  /**
   * Updating by the id of row `i` changes that row's response code and
   * nothing else in the table.
   */
  lemma UpdateByIdChangesOneRow(rows: seq<Row>, i: int, code: string)
    requires IdsIncreasing(rows)
    requires 0 <= i < |rows|
    ensures SetResponseCode(rows, rows[i].id, code) == rows[i := rows[i].(responseCode := code)]
  {
    var r := SetResponseCode(rows, rows[i].id, code);
    forall k | 0 <= k < |rows| && k != i ensures r[k] == rows[k] {
      assert rows[k].id != rows[i].id by {
        if k < i { assert rows[k].id < rows[i].id; } else { assert rows[i].id < rows[k].id; }
      }
    }
  }

  /** The number of rows still waiting for a response to `url`. */
  function PendingCount(rows: seq<Row>, url: string): nat
    decreases |rows|
  {
    if rows == [] then 0
    else (if IsPendingFor(rows[0], url) then 1 else 0) + PendingCount(rows[1..], url)
  }

  /**
   * Finalizing a pending row with a terminal status takes exactly that one
   * request out of the pending set: the count of pending rows for the URL
   * drops by one.
   */
  lemma {:induction false} FinalizingRemovesOnePending(rows: seq<Row>, i: int, url: string, code: string)
    requires 0 <= i < |rows|
    requires IsPendingFor(rows[i], url)
    requires code != Pending
    ensures PendingCount(rows[i := rows[i].(responseCode := code)], url) == PendingCount(rows, url) - 1
    decreases |rows|
  {
    var rs := rows[i := rows[i].(responseCode := code)];
    if i == 0 {
      assert rs[1..] == rows[1..];
    } else {
      FinalizingRemovesOnePending(rows[1..], i - 1, url, code);
      assert rs[1..] == rows[1..][i - 1 := rows[i].(responseCode := code)];
    }
  }

  /**
   * Correlation of a request with its response: when the request's row is
   * stored under the very URL the response is looked up by, and every other
   * pending row for that URL is older, the response finalizes exactly that
   * row.
   */
  lemma {:induction false} NewestRequestIsCorrelated(rows: seq<Row>, row: Row, url: string)
    requires IsPendingFor(row, url)
    requires forall k :: 0 <= k < |rows| && IsPendingFor(rows[k], url) ==> rows[k].time < row.time
    ensures IsLatestPending(rows + [row], url, |rows|)
    ensures forall i :: IsLatestPending(rows + [row], url, i) ==> i == |rows|
  {
    var rs := rows + [row];
    forall k | 0 <= k < |rs| && IsPendingFor(rs[k], url) ensures rs[k].time <= row.time {
      if k < |rows| { assert rs[k] == rows[k]; }
    }
    forall i | 0 <= i < |rows| ensures !IsLatestPending(rs, url, i) {
      assert rs[i] == rows[i];
      assert rs[|rows|] == row;
    }
  }

  /**
   * The request logger stores `esc_url_raw($url)` while the response logger
   * looks rows up by the raw `$url`: where the two differ and no other
   * pending row carries the raw URL, the response finds nothing to update.
   */
  lemma {:induction false} EscapedUrlIsNotCorrelated(rows: seq<Row>, row: Row, url: string, escUrlRaw: string -> string)
    requires row.url == escUrlRaw(url) && escUrlRaw(url) != url
    requires !HasPending(rows, url)
    ensures !HasPending(rows + [row], url)
  {
    var rs := rows + [row];
    forall k | 0 <= k < |rs| ensures !IsPendingFor(rs[k], url) {
      if k < |rows| { assert rs[k] == rows[k]; }
    }
  }

  /**
   * The `custom_urm_logs` table: its rows in insertion order and the next
   * AUTO_INCREMENT id.
   */
  class LogTable {
    var rows: seq<Row>
    var nextId: nat

    ghost predicate Valid()
      reads this
    {
      && nextId >= 1
      && IdsIncreasing(rows)
      && forall k :: 0 <= k < |rows| ==> 1 <= rows[k].id < nextId
    }

    constructor ()
      ensures Valid()
      ensures rows == [] && nextId == 1
    {
      rows := [];
      nextId := 1;
    }

    /**
     * `custom_urm_log_request`: inserts one "Pending" row stamped `now`,
     * with the escaped URL and the sanitized user-agent; the rows already
     * there are untouched.
     */
    method LogRequest(host: Host, url: string, userAgent: string, requestHeaders: string, requestBody: string, now: int)
      requires Valid()
      modifies this
      ensures Valid()
      ensures rows == old(rows) + [Row(old(nextId), now, host.escUrlRaw(url), host.sanitizeTextField(userAgent),
                                       requestHeaders, requestBody, Pending)]
      ensures nextId == old(nextId) + 1
    {
      var row := Row(nextId, now, host.escUrlRaw(url), host.sanitizeTextField(userAgent),
                     requestHeaders, requestBody, Pending);
      rows := rows + [row];
      nextId := nextId + 1;
    }

    /**
     * `custom_urm_log_response`: for a monitored URL with a pending row,
     * writes the response's status into one latest pending row for that
     * URL, addressed by its id; otherwise the table is left as it was.
     */
    method LogResponse(endpoints: seq<string>, url: string, response: Response)
      requires Valid()
      modifies this
      ensures Valid()
      ensures nextId == old(nextId)
      ensures !IsMonitored(endpoints, url) ==> rows == old(rows)
      ensures !HasPending(old(rows), url) ==> rows == old(rows)
      ensures IsMonitored(endpoints, url) && HasPending(old(rows), url) ==>
        exists i :: 0 <= i < |old(rows)| && IsLatestPending(old(rows), url, i) &&
          rows == old(rows)[i := old(rows)[i].(responseCode := ResponseCode(response))]
    {
      var monitored := FindMonitored(endpoints, url);
      if !monitored {
        return;
      }
      var code := ResponseCode(response);
      if exists k :: 0 <= k < |rows| && IsPendingFor(rows[k], url) {
        LatestPendingExists(rows, url);
        var i :| 0 <= i < |rows| && IsLatestPending(rows, url, i);
        UpdateByIdChangesOneRow(rows, i, code);
        rows := SetResponseCode(rows, rows[i].id, code);
      }
    }

    /**
     * `custom_urm_clear_logs`: TRUNCATE empties the table and restarts the
     * id counter. The new state does not depend on the old one, so clearing
     * twice is the same as clearing once.
     */
    method ClearLogs()
      modifies this
      ensures Valid()
      ensures rows == [] && nextId == 1
    {
      rows := [];
      nextId := 1;
    }
  }
}
