/**
 * The `http_request_args` filter `custom_modify_user_agent`: for a request
 * to a monitored endpoint it rewrites the user-agent, strips the plugins or
 * themes that declare their own update source from an update-check body,
 * and logs the request as "Pending".
 */
module Rewriter {
  import opened Php
  import opened WordPress
  import opened Endpoints
  import opened LogStore

  const PluginsUpdateCheck := "wordpress.org/plugins/update-check/"
  const ThemesUpdateCheck := "api.wordpress.org/themes/update-check/"

  /** The substring that picks the `plugins` body field over `themes`. */
  const PluginsMarker := "plugins/update-check/"

  /**
   * The request arguments the filter reads and writes (`$args['user-agent']`,
   * `$args['headers']`, `$args['body']`; Null is "not set") and the others,
   * which it passes on untouched.
   */
  datatype Args = Args(userAgent: Option<string>, headers: Json, body: Json, others: map<string, Json>)

  /** The body field an update-check URL carries, if the URL is one. */
  function UpdateCheckField(url: string): Option<string> {
    if Contains(url, PluginsUpdateCheck) || Contains(url, ThemesUpdateCheck) then
      Some(if Contains(url, PluginsMarker) then "plugins" else "themes")
    else
      None
  }

  /**
   * Plugin update checks rewrite the `plugins` field; a URL is treated as a
   * theme update check only when it is one and does not also mention the
   * plugins path; every other URL has its body left alone.
   */
  lemma UpdateCheckFieldCases(url: string)
    ensures Contains(url, PluginsUpdateCheck) ==> UpdateCheckField(url) == Some("plugins")
    ensures UpdateCheckField(url) == Some("themes") <==>
      Contains(url, ThemesUpdateCheck) && !Contains(url, PluginsMarker)
    ensures UpdateCheckField(url) == None <==>
      !Contains(url, PluginsUpdateCheck) && !Contains(url, ThemesUpdateCheck)
  {
    assert OccursAt(PluginsUpdateCheck, PluginsMarker, 14);
    assert Contains(PluginsUpdateCheck, PluginsMarker);
    if Contains(url, PluginsUpdateCheck) {
      ContainsTransitive(url, PluginsUpdateCheck, PluginsMarker);
    }
  }

  /** A non-empty user-agent has the home URL replaced; an empty or missing one is kept. */
  function RewriteUserAgent(host: Host, userAgent: Option<string>): Option<string> {
    if userAgent.Some? && !EmptyString(userAgent.value) then
      Some(StrReplace(userAgent.value, host.homeUrl, host.UserAgentReplacement()))
    else
      userAgent
  }

  /**
   * Every occurrence of the home URL in a non-empty user-agent is replaced:
   * the old and the new user-agent are the same pieces, none of which holds
   * the home URL, glued with the home URL and with the replacement string.
   */
  lemma RewriteUserAgentReplacesHomeUrl(host: Host, userAgent: string)
    requires !EmptyString(userAgent)
    requires |host.homeUrl| > 0
    ensures Join(Pieces(userAgent, host.homeUrl), host.homeUrl) == userAgent
    ensures RewriteUserAgent(host, Some(userAgent)) ==
      Some(Join(Pieces(userAgent, host.homeUrl), host.UserAgentReplacement()))
    ensures forall k :: 0 <= k < |Pieces(userAgent, host.homeUrl)| ==>
      !Contains(Pieces(userAgent, host.homeUrl)[k], host.homeUrl)
  {
    StrReplaceByPieces(userAgent, host.homeUrl, host.UserAgentReplacement());
  }

  /** A user-agent that does not mention the home URL passes through unchanged. */
  lemma RewriteUserAgentWithoutHomeUrl(host: Host, userAgent: Option<string>)
    requires |host.homeUrl| > 0
    requires userAgent.Some? ==> !Contains(userAgent.value, host.homeUrl)
    ensures RewriteUserAgent(host, userAgent) == userAgent
  {
    if userAgent.Some? {
      StrReplaceAbsent(userAgent.value, host.homeUrl, host.UserAgentReplacement());
    }
  }

  /** An item that declares its own update source: `UpdateURI` set and not empty. */
  predicate HasUpdateUri(item: Json) {
    IsSetIn(item, "UpdateURI") && !Empty(item.entries["UpdateURI"])
  }

  /** The files whose item declares an update source. */
  function ExcludedFiles(items: Json): set<string> {
    if items.Arr? then set f | f in items.entries && HasUpdateUri(items.entries[f]) else {}
  }

  /**
   * The decoded update-check structure after the exclusion: the items that
   * declare an update source are gone and the others are kept as they were;
   * for `plugins`, an `active` array loses exactly the entries naming a
   * removed file and every other entry keeps its index, while an `active`
   * that is not an array is left alone; every other top-level key is
   * unchanged.
   */
  function RemoveExcluded(decoded: Json, field: string): (r: Json)
    requires field == "plugins" || field == "themes"
    requires IsSetIn(decoded, field)
    ensures r.Arr? && r.entries.Keys == decoded.entries.Keys
    ensures forall k :: k in decoded.entries && k != field && !(field == "plugins" && k == "active") ==>
      r.entries[k] == decoded.entries[k]
    ensures !decoded.entries[field].Arr? ==> r.entries[field] == decoded.entries[field]
    ensures decoded.entries[field].Arr? ==>
      var items := decoded.entries[field].entries;
      && r.entries[field].Arr?
      && (forall f :: f in items ==> (f in r.entries[field].entries <==> !HasUpdateUri(items[f])))
      && (forall f :: f in r.entries[field].entries ==> f in items && r.entries[field].entries[f] == items[f])
    ensures field == "plugins" && "active" in decoded.entries && decoded.entries["active"].Arr? ==>
      var active := decoded.entries["active"].entries;
      && r.entries["active"].Arr?
      && (forall i :: i in active ==>
            (i in r.entries["active"].entries <==> StrVal(active[i]) !in ExcludedFiles(decoded.entries[field])))
      && (forall i :: i in r.entries["active"].entries ==> i in active && r.entries["active"].entries[i] == active[i])
    ensures field == "themes" && "active" in decoded.entries ==>
      r.entries["active"] == decoded.entries["active"]
    ensures field == "plugins" && "active" in decoded.entries && !decoded.entries["active"].Arr? ==>
      r.entries["active"] == decoded.entries["active"]
  {
    var items := decoded.entries[field];
    var excluded := ExcludedFiles(items);
    var kept := if items.Arr? then Arr(items.entries - excluded) else items;
    var withItems := decoded.entries[field := kept];
    if field == "plugins" && "active" in withItems && withItems["active"].Arr? then
      Arr(withItems["active" := Arr(ArrayDiff(withItems["active"].entries, excluded))])
    else
      Arr(withItems)
  }

  /**
   * The body after the update-check rewrite. Only plugin and theme update
   * checks are touched, and only when the body field is set and decodes to
   * a structure holding the same key; then the field is replaced by the
   * re-encoded structure and the other body fields stay as they were.
   */
  function RewriteBody(host: Host, body: Json, url: string): (r: Json)
    ensures UpdateCheckField(url).None? ==> r == body
    ensures UpdateCheckField(url).Some? && !IsSetIn(body, UpdateCheckField(url).value) ==> r == body
    ensures UpdateCheckField(url).Some? && IsSetIn(body, UpdateCheckField(url).value) ==>
      var field := UpdateCheckField(url).value;
      !IsSetIn(host.jsonDecode(body.entries[field]), field) ==> r == body
    ensures UpdateCheckField(url).Some? && IsSetIn(body, UpdateCheckField(url).value) ==>
      var field := UpdateCheckField(url).value;
      var decoded := host.jsonDecode(body.entries[field]);
      IsSetIn(decoded, field) ==>
        r == Arr(body.entries[field := Str(host.jsonEncode(RemoveExcluded(decoded, field)))])
    ensures r != body ==>
      var field := UpdateCheckField(url).value;
      && r.Arr? && body.Arr? && r.entries.Keys == body.entries.Keys
      && (forall k :: k in body.entries && k != field ==> r.entries[k] == body.entries[k])
  {
    match UpdateCheckField(url)
    case None => body
    case Some(field) =>
      if IsSetIn(body, field) then
        var decoded := host.jsonDecode(body.entries[field]);
        if IsSetIn(decoded, field) then
          Arr(body.entries[field := Str(host.jsonEncode(RemoveExcluded(decoded, field)))])
        else
          body
      else
        body
  }

  /**
   * A plugin update check whose one plugin declares an update source: the
   * plugin leaves the item set and its entry leaves `active`, which becomes
   * an empty array.
   */
  lemma ExcludedPluginLeavesActive()
    ensures
      var item := Arr(map["UpdateURI" := Str("https://x")]);
      var decoded := Arr(map["plugins" := Arr(map["a/a.php" := item]), "active" := Arr(map["0" := Str("a/a.php")])]);
      RemoveExcluded(decoded, "plugins") == Arr(map["plugins" := Arr(map[]), "active" := Arr(map[])])
  {
    var item := Arr(map["UpdateURI" := Str("https://x")]);
    var items := Arr(map["a/a.php" := item]);
    var active := Arr(map["0" := Str("a/a.php")]);
    var decoded := Arr(map["plugins" := items, "active" := active]);
    assert HasUpdateUri(item);
    assert ExcludedFiles(items) == {"a/a.php"};
    assert items.entries - {"a/a.php"} == map[];
    assert ArrayDiff(active.entries, {"a/a.php"}) == map[];
  }

  /** The arguments the filter returns for a monitored request. */
  function Rewrite(host: Host, args: Args, url: string): Args {
    args.(userAgent := RewriteUserAgent(host, args.userAgent), body := RewriteBody(host, args.body, url))
  }

  /** The user-agent handed to the request logger (an unset one arrives as null). */
  function LoggedUserAgent(args: Args): string {
    match args.userAgent
    case None => ""
    case Some(u) => u
  }

  /** The serialized headers handed to the request logger. */
  function LoggedHeaders(host: Host, args: Args): string {
    if args.headers.Arr? then host.jsonEncodePretty(args.headers) else "{}"
  }

  /** The serialized body handed to the request logger. */
  function LoggedBody(host: Host, args: Args): string {
    if args.body != Null then host.jsonEncodePretty(args.body) else "{}"
  }

  /** The first loop over the decoded items: the files to exclude. */
  method CollectExcluded(items: map<string, Json>) returns (toRemove: seq<string>)
    ensures forall f :: f in toRemove <==> f in ExcludedFiles(Arr(items))
  {
    toRemove := [];
    var todo := items.Keys;
    while todo != {}
      invariant todo <= items.Keys
      invariant forall f :: f in toRemove <==> f in items && f !in todo && HasUpdateUri(items[f])
      decreases todo
    {
      var file :| file in todo;
      if HasUpdateUri(items[file]) {
        toRemove := toRemove + [file];
      }
      todo := todo - {file};
    }
  }

  /** The second loop: `unset` each collected file. */
  method UnsetFiles(items: map<string, Json>, toRemove: seq<string>) returns (r: map<string, Json>)
    ensures r.Keys == items.Keys - (set f | f in toRemove)
    ensures forall f :: f in r ==> r[f] == items[f]
  {
    r := items;
    var i := 0;
    while i < |toRemove|
      invariant 0 <= i <= |toRemove|
      invariant r.Keys == items.Keys - (set f | f in toRemove[..i])
      invariant forall f :: f in r ==> r[f] == items[f]
    {
      r := r - {toRemove[i]};
      i := i + 1;
    }
    assert toRemove[..i] == toRemove;
  }

  /** The exclusion as the filter runs it: collect, unset, then `array_diff` on `active`. */
  method FilterDecoded(decoded: Json, field: string) returns (r: Json)
    requires field == "plugins" || field == "themes"
    requires IsSetIn(decoded, field)
    ensures r == RemoveExcluded(decoded, field)
  {
    var entries := decoded.entries;
    var toRemove: seq<string> := [];
    var items := entries[field];
    if items.Arr? {
      toRemove := CollectExcluded(items.entries);
      var kept := UnsetFiles(items.entries, toRemove);
      assert kept == items.entries - ExcludedFiles(items);
      entries := entries[field := Arr(kept)];
    }
    var removed := set f | f in toRemove;
    assert removed == ExcludedFiles(items);
    if field == "plugins" && "active" in entries && entries["active"].Arr? {
      entries := entries["active" := Arr(ArrayDiff(entries["active"].entries, removed))];
    }
    r := Arr(entries);
  }

  /** The update-check branch of the filter, with its two recoverable failures. */
  method FilterUpdateCheckBody(host: Host, body: Json, url: string) returns (r: Json)
    ensures r == RewriteBody(host, body, url)
  {
    r := body;
    if Contains(url, PluginsUpdateCheck) || Contains(url, ThemesUpdateCheck) {
      var field := if Contains(url, PluginsMarker) then "plugins" else "themes";
      if IsSetIn(body, field) {
        var decoded := host.jsonDecode(body.entries[field]);
        if IsSetIn(decoded, field) {
          var filtered := FilterDecoded(decoded, field);
          r := Arr(body.entries[field := Str(host.jsonEncode(filtered))]);
        }
      }
    }
  }

  /**
   * `custom_modify_user_agent`: the endpoints are tried in order; on the
   * first match the request is rewritten, exactly one "Pending" row is
   * logged, and the loop stops. A request no endpoint matches comes back
   * unchanged and logs nothing.
   */
  method ModifyUserAgent(store: LogTable, host: Host, endpoints: seq<string>, args: Args, url: string, now: int)
    returns (result: Args)
    requires store.Valid()
    modifies store
    ensures store.Valid()
    ensures !IsMonitored(endpoints, url) ==>
      result == args && store.rows == old(store.rows) && store.nextId == old(store.nextId)
    ensures IsMonitored(endpoints, url) ==>
      && result == Rewrite(host, args, url)
      && store.rows == old(store.rows) + [Row(old(store.nextId), now, host.escUrlRaw(url),
                                              host.sanitizeTextField(LoggedUserAgent(result)),
                                              LoggedHeaders(host, result), LoggedBody(host, result), Pending)]
      && store.nextId == old(store.nextId) + 1
  {
    result := args;
    var i := 0;
    while i < |endpoints|
      invariant 0 <= i <= |endpoints|
      invariant forall j :: 0 <= j < i ==> !Matches(url, endpoints[j])
      invariant result == args && store.rows == old(store.rows) && store.nextId == old(store.nextId)
    {
      var normalized := Untrailingslashit(endpoints[i]);
      if StartsWith(url, normalized) {
        if result.userAgent.Some? && !EmptyString(result.userAgent.value) {
          var modified := StrReplace(result.userAgent.value, host.homeUrl, host.UserAgentReplacement());
          result := result.(userAgent := Some(modified));
        }
        var body := FilterUpdateCheckBody(host, result.body, url);
        result := result.(body := body);
        var requestHeaders := if result.headers.Arr? then host.jsonEncodePretty(result.headers) else "{}";
        var requestBody := if result.body != Null then host.jsonEncodePretty(result.body) else "{}";
        store.LogRequest(host, url, LoggedUserAgent(result), requestHeaders, requestBody, now);
        break;
      }
      i := i + 1;
    }
  }

  /**
   * A monitored request whose URL `esc_url_raw` leaves alone, sent against
   * an empty log and answered with HTTP 200: the one row the filter logs
   * ends with the status "200".
   */
  method RequestThenResponse(host: Host, endpoints: seq<string>, args: Args, url: string, now: int)
    returns (status: string)
    requires IsMonitored(endpoints, url)
    requires host.escUrlRaw(url) == url
    ensures status == "200"
  {
    var store := new LogTable();
    var sent := ModifyUserAgent(store, host, endpoints, args, url, now);
    assert |store.rows| == 1 && IsPendingFor(store.rows[0], url);
    assert IsLatestPending(store.rows, url, 0);
    store.LogResponse(endpoints, url, HttpResponse(Some(200)));
    assert DecimalNat(200) == "200" by {
      assert DecimalNat(2) == "2";
      assert DecimalNat(20) == "2" + [Digit(0)];
    }
    status := store.rows[0].responseCode;
  }
}
