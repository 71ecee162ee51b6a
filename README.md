# Custom Update Request Modifier: a Dafny model of its request filter and log

The WordPress plugin "Custom Update Request Modifier" hooks outgoing HTTP
requests. When a request goes to one of the configured API endpoints, the
plugin does three things:

- It replaces the site's home URL in the user-agent with a configurable string (default `wordpress.org`).
- It removes plugins and themes that declare their own update source (`UpdateURI`) from the body of WordPress.org update checks.
- It records the request in the `custom_urm_logs` table with the status "Pending".

When the response arrives, the plugin writes the status into the latest pending row for that URL. An admin screen lists the rows with search and pagination, and the table can be cleared.

This project models that core and proves its contracts:

| file | module | models |
|---|---|---|
| `php.dfy` | `Php` | decoded JSON values, `empty()`, `isset`, the `(string)` cast, `strpos`, `str_replace`, `untrailingslashit`, `array_diff` |
| `wordpress.dfy` | `WordPress` | the WordPress functions whose code is not modelled, as opaque functions held in a `Host` value |
| `endpoints.dfy` | `Endpoints` | `custom_urm_sanitize_urls` and the endpoint prefix test |
| `logstore.dfy` | `LogStore` | the log table as a class: `custom_urm_log_request`, `custom_urm_log_response`, `custom_urm_clear_logs` |
| `rewriter.dfy` | `Rewriter` | `custom_modify_user_agent` and its loops |
| `logstable.dfy` | `LogsTable` | `Custom_URM_Logs_Table::get_logs`, `prepare_items`, the column definitions |

How the model is built:

- **Pure code.** The pure parts of the plugin are functions: the sanitizer, the response-code derivation, the body rewrite and the log query.
- **State and loops.** Code that changes state step by step is methods:
  - The log table is a class `LogTable` with its rows in insertion order and the next AUTO_INCREMENT id.
  - The list table is a class `LogsListTable` with the fields `prepare_items` assigns.
  - The loops of the filter (endpoint scan with `break`, collecting the excluded files, unsetting them) are `while` loops.
  - Each loop method is proved to compute the function or set that specifies it. `ModifyUserAgent` is proved to return the rewritten arguments that `Rewrite` specifies.
  - The table methods state the whole new table directly. `LogResponse` may pick any one of several latest pending rows that have the same time.
- **Opaque helpers.** JSON text, `esc_url_raw`, `sanitize_text_field`, `get_home_url` and the user-agent filter are fields of `WordPress.Host`. The clock value of `current_time('mysql')` is the `now` parameter.

Behaviour of the code that the model keeps as written:

- **No URL normalisation.** The request logger stores `esc_url_raw($url)` (`custom-update-request-modifier.php:479`). The response logger looks rows up by the raw `$url` (`:440-441`). `LogStore.EscapedUrlIsNotCorrelated` states what happens under the model's exact string comparison when the two differ. If no other pending row already carries the raw URL, the response finds nothing to update. Under a case-insensitive collation, a URL that `esc_url_raw` changes only in letter case would still be found (see "Left out").
- **Where `active` lives.** `active` is read from inside the decoded `plugins` JSON (`:363`), not from another field of the request body.
- **URL tests.** Only plugin and theme update checks are rewritten. The theme test needs the `api.wordpress.org` host (`:338`). The field is `plugins` whenever the URL contains `plugins/update-check/` (`:339`).
- **Clearing resets ids.** `TRUNCATE TABLE` also restarts the AUTO_INCREMENT counter, so `ClearLogs` resets the next id to 1.
- **Sort columns are ignored.** The table declares sortable columns, but the query always orders by time, newest first (`classes/class-custom-urm-logs-table.php:56, 72`).
- **`array_diff` keeps indices.** `active` keeps the original indices of the entries that survive, so a gap can appear in the list. `RemoveExcluded` states this.
- **Empty endpoint.** An endpoint that is only slashes strips to the empty string, and `strpos($url, '') === 0` holds in PHP 8, so such an endpoint matches every URL. The model keeps this behaviour.

## Model

| member | source | states |
|---|---|---|
| `Php.Untrailingslashit` | custom-update-request-modifier.php:322 | the endpoint with trailing slashes removed: a prefix of it, not ending in `/` or `\`, and everything cut off is a slash |
| `Php.ArrayDiff` | custom-update-request-modifier.php:365 | `array_diff` keeps exactly the entries whose string form is not in the removal set, each under its original key with its original value |
| `Php.StrReplaceByPieces` | custom-update-request-modifier.php:328-332 | `str_replace` cuts the subject at the occurrences of the search string: the subject is the pieces joined by the search string, the result the same pieces joined by the replacement, and no piece contains the search string |
| `Php.StrReplaceAbsent` | custom-update-request-modifier.php:328-332 | a subject without the search string is returned unchanged |
| `Endpoints.KeepCleaned` | custom-update-request-modifier.php:306 | `array_filter(array_map(...))`: every kept entry is the cleaned form of an input entry with its key and is non-empty in PHP's sense; every input whose cleaned URL is non-empty is kept (order and multiplicity are stated by `SanitizeKeepsOrder`) |
| `Endpoints.SanitizeUrls` | custom-update-request-modifier.php:301-307 | a non-array gives the empty list; otherwise every kept entry is a non-empty cleaned input under its original key, and every input whose cleaned URL is non-empty is kept; together with `SanitizeKeepsOrder`, each survives once and in input order |
| `Endpoints.SanitizeKeepsOrder` | custom-update-request-modifier.php:306 | the kept entries come from strictly increasing input positions, so keys and relative order are preserved |
| `Endpoints.MatchIgnoresTrailingSlash` | custom-update-request-modifier.php:322-324 | an endpoint with or without a trailing `/` or `\` matches the same URLs |
| `Endpoints.MatchesBelowEndpoint` | custom-update-request-modifier.php:322-324 | every URL that starts with the configured endpoint is matched by it |
| `Endpoints.FindMonitored` | custom-update-request-modifier.php:413-426 | the endpoint loop with `break` reports a match iff some endpoint, with its trailing slashes stripped, is a prefix of the URL |
| `LogStore.ResponseCode` | custom-update-request-modifier.php:428-435 | an error gives its error code; an HTTP response gives its code written in decimal (`intval` then `%s`), whose digits denote the code when it is not negative, or "Unknown" exactly when it has none; an HTTP response never gives "Pending" |
| `LogStore.LatestPendingExists` | custom-update-request-modifier.php:437-444 | whenever a pending row for the URL exists, the `ORDER BY time DESC LIMIT 1` query has an answer: a pending row for the URL with no later one |
| `LogStore.UpdateByIdChangesOneRow` | custom-update-request-modifier.php:446-456 | the update addressed by a row's id changes that row's `response_code` and nothing else in the table |
| `LogStore.FinalizingRemovesOnePending` | custom-update-request-modifier.php:446-457 | writing a terminal status into a pending row lowers the number of pending rows for that URL by exactly one |
| `LogStore.NewestRequestIsCorrelated` | custom-update-request-modifier.php:437-444 | when a new pending row for the URL is later than every other pending row for it, the lookup selects that row and no other |
| `LogStore.EscapedUrlIsNotCorrelated` | custom-update-request-modifier.php:479 | under exact string comparison, when no pending row carries the raw `$url`, appending a row stored under an `esc_url_raw($url)` that differs from `$url` still leaves the lookup on the raw `$url` with no row to find |
| `LogStore.LogTable.LogRequest` | custom-update-request-modifier.php:471-487 | appends exactly one "Pending" row with the next id, the escaped URL and the sanitized user-agent; existing rows are unchanged |
| `LogStore.LogTable.LogResponse` | custom-update-request-modifier.php:409-458 | nothing changes for an unmonitored URL or when no pending row has that exact URL; otherwise exactly one latest pending row gets the derived status and nothing else changes |
| `LogStore.LogTable.ClearLogs` | custom-update-request-modifier.php:495-499 | the table is empty and the id counter restarts, whatever the state before, so clearing twice equals clearing once |
| `Rewriter.UpdateCheckFieldCases` | custom-update-request-modifier.php:337-339 | plugin update-check URLs rewrite the `plugins` field; `themes` is chosen exactly for theme update-check URLs that do not mention the plugins path; all other URLs are not update checks |
| `Rewriter.RewriteUserAgentReplacesHomeUrl` | custom-update-request-modifier.php:326-335 | in a non-empty user-agent every occurrence of the home URL becomes the filtered replacement string and nothing else changes |
| `Rewriter.RewriteUserAgentWithoutHomeUrl` | custom-update-request-modifier.php:326-335 | a missing or empty user-agent, or one without the home URL, is left as it was |
| `Rewriter.RemoveExcluded` | custom-update-request-modifier.php:347-370 | exactly the items with a set, non-empty `UpdateURI` are removed and the rest keep their values; for `plugins` an `active` array loses exactly the entries naming a removed file and the rest keep their indices; themes never touch `active`, and neither does a plugins check whose `active` is not an array; all other top-level keys are unchanged |
| `Rewriter.ExcludedPluginLeavesActive` | custom-update-request-modifier.php:362-370 | a single plugin with an `UpdateURI` leaves both the item set and `active` empty |
| `Rewriter.RewriteBody` | custom-update-request-modifier.php:337-381 | the body is unchanged unless the URL is an update check whose body field is set and decodes to a structure holding that key; in that case the field becomes the JSON encoding of `RemoveExcluded` of the decoded structure, and the other body fields are unchanged |
| `Rewriter.CollectExcluded` | custom-update-request-modifier.php:347-354 | the loop collects exactly the files whose item declares an update source |
| `Rewriter.UnsetFiles` | custom-update-request-modifier.php:356-360 | the loop removes exactly the collected keys and leaves the other items as they were |
| `Rewriter.FilterDecoded` | custom-update-request-modifier.php:347-370 | the collect, unset and `array_diff` steps compute `RemoveExcluded` |
| `Rewriter.FilterUpdateCheckBody` | custom-update-request-modifier.php:337-381 | the update-check branch, with its missing-field and decode failures, computes `RewriteBody` |
| `Rewriter.ModifyUserAgent` | custom-update-request-modifier.php:318-394 | a request no endpoint matches is returned unchanged and logs nothing; a matched one is rewritten once (user-agent and body) and logged as exactly one "Pending" row carrying the rewritten user-agent and body |
| `Rewriter.RequestThenResponse` | custom-update-request-modifier.php:318-458 | a monitored request whose URL `esc_url_raw` leaves alone, answered with HTTP 200, leaves its row with the status "200" |
| `LogsTable.Search` | classes/class-custom-urm-logs-table.php:53-69 | the search keeps exactly the rows whose URL or user-agent contains the text, each as often as in the table |
| `LogsTable.ByTimeDesc` | classes/class-custom-urm-logs-table.php:56 | the rows rearranged newest first (a permutation, non-increasing in time) |
| `LogsTable.Window` | classes/class-custom-urm-logs-table.php:56 | `LIMIT/OFFSET` returns the rows from the offset on: exactly `limit` of them when that many remain, all the remaining ones on a partial last page, and none past the end |
| `LogsTable.CeilDiv` | classes/class-custom-urm-logs-table.php:86 | the page count is the least number of pages of `per_page` rows that hold the total |
| `LogsTable.LogsQuery` | classes/class-custom-urm-logs-table.php:40-90 | at most `per_page` rows, newest first, taken from the table; with a non-empty search every row matches it; the total counts all matching rows (all rows when the search is empty) and the page count is its ceiling; the page starts at `(page-1)*per_page` |
| `LogsTable.SortParametersIgnored` | classes/class-custom-urm-logs-table.php:117-126 | the sort parameters the sortable headers add to the request do not change the result |
| `LogsTable.EveryRowOnItsPage` | classes/class-custom-urm-logs-table.php:48-50 | the pages partition the result: the row at position `p` is row `p mod per_page` of page `p div per_page + 1` |
| `LogsTable.LogsListTable.GetLogs` | classes/class-custom-urm-logs-table.php:40-90 | returns the page of `LogsQuery`, records its pagination on the object, and leaves the log table unchanged |
| `LogsTable.LogsListTable.PrepareItems` | classes/class-custom-urm-logs-table.php:144-152 | sets the column headers and the items of the page and leaves the log table unchanged |

## Left out

- The settings page: its HTML, nonce check, redirect, tabs and inline add/remove-row script (`custom-update-request-modifier.php:156-291`). This is user interface.
- Host-framework lifecycle code:
  - activation, deactivation and uninstall hooks;
  - the `CREATE TABLE` statement;
  - the daily cron schedule, whose only effect is to call `ClearLogs`.
- The bootstrap of the third-party plugin-update-checker. It is a foreign library.
- The `error_log` diagnostics. They have no effect on state.
- The code behind JSON parsing and printing, `esc_url_raw`, `sanitize_text_field`, `get_home_url`, `apply_filters` and `intval`. They are opaque functions of `WordPress.Host`, or `Response` holds the value after `intval`.
- The member order of decoded JSON objects. PHP arrays are modelled as maps, so the order in which `json_encode` writes members is not captured. JSON floats are not modelled either.
- PHP details of the inputs:
  - values of the submitted endpoint array that are not strings;
  - a user-agent that is not a string.
- SQL behaviour that is plain substring search and integer time in the model:
  - the case-insensitivity of `LIKE` under the table's collation, and the escaping done by `esc_like`;
  - the one-second resolution of `time`.
- `IsPendingFor` and `LogResponse` compare URLs and statuses with exact string equality. The lookup at `custom-update-request-modifier.php:440` compares under the table's collation (`$charset_collate`, `:132`). That is usually case-insensitive and ignores trailing spaces, so the database may find rows the model does not.
- `LogRequest` always appends its row and `LogResponse` always applies its update. The code ignores a failed `$wpdb->insert` or `$wpdb->update` (`:448`, `:475`), so a database error leaves the table unchanged there.
- `RewriteBody` hands any set body field to the opaque JSON decoder. The plugin file does not declare strict types, so a scalar field is converted to a string and reaches the decoder, as in the model. Only a field that is an array or object makes `json_decode` (`:342`) throw a `TypeError`, which aborts the request filter. The model does not represent that abort.
- Tie order. `ByTimeDesc` keeps table order for rows with equal times, which is one of the orders `ORDER BY time DESC` allows. `LogResponse` may pick any of several latest pending rows with equal times.
- The width of the `response_code` column (`VARCHAR(10)`). A longer error code may be rejected or truncated by the database.
- Concurrent access to the table.
- How `get_pagenum` and `get_items_per_page` compute the page number and page size. They are inputs of at least 1.
- The translation of the column labels by `esc_html__` (`classes/class-custom-urm-logs-table.php:100-105`). `Columns` holds the English labels.
- Column rendering, the modals, `display()` and `assets/js/custom-urm-scripts.js`. These are presentation only.
