/**
 * The monitored-endpoint list: the sanitize callback of the
 * `custom_urm_api_urls` setting and the prefix test that decides whether an
 * outgoing request is monitored.
 */
module Endpoints {
  import opened Php

  /** One element of the submitted `custom_urm_api_urls` array: its key and its URL. */
  datatype Entry = Entry(key: string, url: string)

  /** What the settings API hands to the sanitize callback. */
  datatype Submitted = NotAnArray | AnArray(entries: seq<Entry>)

  /** `array_map('esc_url_raw', ...)` on one element: same key, cleaned URL. */
  function Cleaned(clean: string -> string, e: Entry): Entry {
    Entry(e.key, clean(e.url))
  }

  /**
   * `array_filter(array_map($clean, $es))`: each URL cleaned, the results
   * PHP counts as empty dropped, keys and order kept.
   */
  function KeepCleaned(clean: string -> string, es: seq<Entry>): (r: seq<Entry>)
    ensures |r| <= |es|
    ensures forall k :: 0 <= k < |r| ==> !EmptyString(r[k].url)
    ensures forall k :: 0 <= k < |r| ==> exists i :: 0 <= i < |es| && r[k] == Cleaned(clean, es[i])
    ensures forall i :: 0 <= i < |es| && !EmptyString(clean(es[i].url)) ==> Cleaned(clean, es[i]) in r
    decreases |es|
  {
    if es == [] then []
    else
      var e := Cleaned(clean, es[0]);
      var rest := KeepCleaned(clean, es[1..]);
      assert forall i :: 1 <= i < |es| ==> es[i] == es[1..][i - 1];
      if EmptyString(e.url) then rest else [e] + rest
  }

  /** `custom_urm_sanitize_urls`: a non-array becomes the empty list. */
  function SanitizeUrls(escUrlRaw: string -> string, urls: Submitted): (r: seq<Entry>)
    ensures urls.NotAnArray? ==> r == []
    ensures urls.AnArray? ==> |r| <= |urls.entries|
    ensures forall k :: 0 <= k < |r| ==> !EmptyString(r[k].url)
    ensures urls.AnArray? ==>
      forall k :: 0 <= k < |r| ==>
        exists i :: 0 <= i < |urls.entries| && r[k] == Cleaned(escUrlRaw, urls.entries[i])
    ensures urls.AnArray? ==>
      forall i :: 0 <= i < |urls.entries| && !EmptyString(escUrlRaw(urls.entries[i].url)) ==>
        Cleaned(escUrlRaw, urls.entries[i]) in r
  {
    match urls
    case NotAnArray => []
    case AnArray(es) => KeepCleaned(escUrlRaw, es)
  }

  /** Every position moved one place on. */
  ghost function Shifted(ps: seq<nat>): (r: seq<nat>)
    ensures |r| == |ps|
    ensures forall k :: 0 <= k < |ps| ==> r[k] == ps[k] + 1
  {
    seq(|ps|, k requires 0 <= k < |ps| => ps[k] + 1)
  }

  /** The positions of the input whose cleaned form `KeepCleaned` keeps. */
  ghost function KeptPositions(clean: string -> string, es: seq<Entry>): seq<nat>
    decreases |es|
  {
    if es == [] then []
    else
      var rest := Shifted(KeptPositions(clean, es[1..]));
      if EmptyString(clean(es[0].url)) then rest else [0] + rest
  }

  /** The order-keeping relation between the input and what sanitizing keeps. */
  ghost predicate KeptInOrder(es: seq<Entry>, r: seq<Entry>, ps: seq<nat>, clean: string -> string) {
    && |ps| == |r|
    && (forall k :: 0 <= k < |ps| ==> ps[k] < |es| && r[k] == Cleaned(clean, es[ps[k]]))
    && (forall j, k :: 0 <= j < k < |ps| ==> ps[j] < ps[k])
  }

  lemma ShiftKeptInOrder(es: seq<Entry>, r: seq<Entry>, tail: seq<nat>, clean: string -> string)
    requires es != []
    requires KeptInOrder(es[1..], r, tail, clean)
    ensures KeptInOrder(es, r, Shifted(tail), clean)
    ensures forall k :: 0 <= k < |tail| ==> Shifted(tail)[k] >= 1
  {
    var sh := Shifted(tail);
    forall k | 0 <= k < |sh| ensures sh[k] < |es| && r[k] == Cleaned(clean, es[sh[k]]) {
      assert es[sh[k]] == es[1..][tail[k]];
    }
  }

  lemma ConsKeptInOrder(es: seq<Entry>, r: seq<Entry>, sh: seq<nat>, clean: string -> string)
    requires es != []
    requires KeptInOrder(es, r, sh, clean)
    requires forall k :: 0 <= k < |sh| ==> sh[k] >= 1
    ensures KeptInOrder(es, [Cleaned(clean, es[0])] + r, [0] + sh, clean)
  {
    var ps := [0] + sh;
    var r' := [Cleaned(clean, es[0])] + r;
    forall k | 0 < k < |ps| ensures ps[k] < |es| && r'[k] == Cleaned(clean, es[ps[k]]) {
      assert ps[k] == sh[k - 1] && r'[k] == r[k - 1];
    }
    forall j, k | 0 <= j < k < |ps| ensures ps[j] < ps[k] {
      assert ps[k] == sh[k - 1];
      if j > 0 {
        assert ps[j] == sh[j - 1];
      }
    }
  }

  /**
   * Sanitizing keeps order: the kept entries are the cleaned forms of input
   * entries at strictly increasing positions, so each keeps its original key
   * and the survivors keep their relative order.
   */
  lemma {:induction false} SanitizeKeepsOrder(clean: string -> string, es: seq<Entry>)
    ensures KeptInOrder(es, KeepCleaned(clean, es), KeptPositions(clean, es), clean)
    decreases |es|
  {
    if es != [] {
      SanitizeKeepsOrder(clean, es[1..]);
      var tail := KeptPositions(clean, es[1..]);
      var r := KeepCleaned(clean, es[1..]);
      ShiftKeptInOrder(es, r, tail, clean);
      if !EmptyString(clean(es[0].url)) {
        ConsKeptInOrder(es, r, Shifted(tail), clean);
      }
    }
  }

  /** The test at the head of the rewrite and of the response logger. */
  predicate Matches(url: string, endpoint: string) {
    StartsWith(url, Untrailingslashit(endpoint))
  }

  /** Some configured endpoint matches the URL. */
  predicate IsMonitored(endpoints: seq<string>, url: string) {
    exists i :: 0 <= i < |endpoints| && Matches(url, endpoints[i])
  }

  /** Trailing slashes on a configured endpoint make no difference. */
  lemma {:induction false} MatchIgnoresTrailingSlash(url: string, endpoint: string)
    ensures Matches(url, endpoint + "/") <==> Matches(url, endpoint)
    ensures Matches(url, endpoint + "\\") <==> Matches(url, endpoint)
  {
    assert (endpoint + "/")[..|endpoint|] == endpoint;
    assert (endpoint + "\\")[..|endpoint|] == endpoint;
  }

  /** A monitored endpoint matches every URL below it, with or without its trailing slash. */
  lemma {:induction false} MatchesBelowEndpoint(endpoint: string, rest: string)
    ensures Matches(endpoint + rest, endpoint)
  {
    var e := Untrailingslashit(endpoint);
    assert e <= endpoint;
    assert (endpoint + rest)[..|e|] == endpoint[..|e|];
  }

  /** The monitored test of the response logger: a loop that stops at the first match. */
  method FindMonitored(endpoints: seq<string>, url: string) returns (monitored: bool)
    ensures monitored <==> IsMonitored(endpoints, url)
  {
    monitored := false;
    var i := 0;
    while i < |endpoints|
      invariant 0 <= i <= |endpoints|
      invariant forall j :: 0 <= j < i ==> !Matches(url, endpoints[j])
    {
      var normalized := Untrailingslashit(endpoints[i]);
      if StartsWith(url, normalized) {
        monitored := true;
        break;
      }
      i := i + 1;
    }
  }
}
