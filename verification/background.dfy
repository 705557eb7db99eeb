/** The decision logic of the background service worker (background.ts):
    the URL check and its scheme filter, the notification text, the
    notify-once list kept in session storage, the tab-update and
    tab-activation handlers, the injection filter run at install time, and
    the message router. The backend calls are parameters: `fetch` answers
    the single-URL endpoint and `fetchBatch` the batch endpoint, each with
    `None` for a non-OK status or a network error. */
module Background {
  import opened JsText
  import opened Wrappers
  import opened Types
  import opened UrlCache

  // ---------------------------------------------------------------------
  // checkUrl
  // ---------------------------------------------------------------------

  /** The internal schemes the second guard of `checkUrl` rejects. */
  predicate IsBrowserScheme(url: string) {
    StartsWith(url, "chrome://") || StartsWith(url, "chrome-extension://")
    || StartsWith(url, "edge://") || StartsWith(url, "moz-extension://")
  }

  /** What `checkUrl` returns and whether it reached the backend. */
  datatype CheckRun = CheckRun(result: Option<CheckResult>, fetched: bool)

  /** `checkUrl` (lines 47-76), with both guards as written. */
  function CheckUrl(url: string, fetch: string -> Option<CheckResult>): (r: CheckRun)
  {
    if !IsHttpUrl(url) then CheckRun(None, false)
    else if IsBrowserScheme(url) then CheckRun(None, false)
    else CheckRun(fetch(url), true)
  }

  /** A URL that passed the first guard starts with `h`, so none of the
      internal schemes can match it: the second guard never fires. */
  lemma BrowserSchemeGuardIsDead(url: string)
    requires IsHttpUrl(url)
    ensures !IsBrowserScheme(url)
  {
    assert url[0] == 'h';
    assert !StartsWith(url, "chrome://") by { assert "chrome://"[0] == 'c'; }
    assert !StartsWith(url, "chrome-extension://") by { assert "chrome-extension://"[0] == 'c'; }
    assert !StartsWith(url, "edge://") by { assert "edge://"[0] == 'e'; }
    assert !StartsWith(url, "moz-extension://") by { assert "moz-extension://"[0] == 'm'; }
  }

  /** The backend is asked exactly for `http(s)` URLs, and then its answer is
      the result; every other URL gives null without a request. */
  lemma CheckUrlSpec(url: string, fetch: string -> Option<CheckResult>)
    ensures CheckUrl(url, fetch).fetched <==> IsHttpUrl(url)
    ensures CheckUrl(url, fetch).fetched ==> CheckUrl(url, fetch).result == fetch(url)
    ensures !IsHttpUrl(url) ==> CheckUrl(url, fetch).result == None
  {
    if IsHttpUrl(url) {
      BrowserSchemeGuardIsDead(url);
    }
  }

  // ---------------------------------------------------------------------
  // Notifications
  // ---------------------------------------------------------------------

  datatype Notification = Notification(url: string, title: string, message: string)

  const PhishingTitle: string := "\U{26A0}\U{FE0F} Phishing Detected"
  const SafeTitle: string := "\U{2705} Safe Website"

  /** `showNotification` (lines 78-91): the title and message it builds. */
  function ShowNotification(url: string, r: CheckResult): Notification {
    if IsUnsafe(r) then
      Notification(url, PhishingTitle, "Warning: " + url + " appears to be " + r.finalVerdict + "! (" + r.confidence + " confidence)")
    else
      Notification(url, SafeTitle, url + " appears to be safe.")
  }

  /** The phishing title goes with exactly the unsafe results, the safe
      title with the others; an unsafe message names the URL and the
      verdict, a safe one starts with the URL. */
  lemma ShowNotificationText(url: string, r: CheckResult)
    ensures ShowNotification(url, r).url == url
    ensures ShowNotification(url, r).title == PhishingTitle <==> IsUnsafe(r)
    ensures ShowNotification(url, r).title == SafeTitle <==> !IsUnsafe(r)
    ensures IsUnsafe(r) ==> StartsWith(ShowNotification(url, r).message, "Warning: " + url + " appears to be " + r.finalVerdict)
    ensures !IsUnsafe(r) ==> StartsWith(ShowNotification(url, r).message, url)
  {
    var m := ShowNotification(url, r).message;
    if IsUnsafe(r) {
      var p := "Warning: " + url + " appears to be " + r.finalVerdict;
      assert m == p + ("! (" + r.confidence + " confidence)");
      assert m[..|p|] == p;
    } else {
      assert m[..|url|] == url;
    }
  }

  /** The `notifiedUrls` entry of session storage: absent until the first
      write. */
  type Notified = Option<seq<string>>

  function NotifiedList(n: Notified): seq<string> {
    n.GetOr([])
  }

  /** `hasNotified`. */
  predicate HasNotified(n: Notified, url: string) {
    url in NotifiedList(n)
  }

  predicate Distinct(xs: seq<string>) {
    forall j, k :: 0 <= j < k < |xs| ==> xs[j] != xs[k]
  }

  /** `addNotified`: append the URL unless it is listed already, in which
      case nothing is written. */
  function AddNotified(n: Notified, url: string): (r: Notified)
    ensures HasNotified(r, url)
    ensures forall v :: HasNotified(r, v) <==> HasNotified(n, v) || v == url
    ensures HasNotified(n, url) ==> r == n
    ensures Distinct(NotifiedList(n)) ==> Distinct(NotifiedList(r))
  {
    var list := NotifiedList(n);
    if url in list then n else Some(list + [url])
  }

  // ---------------------------------------------------------------------
  // Tab handlers
  // ---------------------------------------------------------------------

  /** The state the tab handlers read and write: local storage (the URL
      cache) and the session's notified list. */
  datatype WorkerState = WorkerState(store: map<string, CheckResult>, notified: Notified)

  /** What one handler run did besides changing the state. */
  datatype TabEffects = TabEffects(state: WorkerState, fetched: bool,
                                   notification: Option<Notification>, warning: Option<CheckResult>)

  /** The shared body of `onUpdated` (lines 146-170) and `onActivated`
      (lines 181-198) once a URL is known: check it, store a non-null
      result, notify if unsafe and not yet notified, and send the warning
      to the tab whenever it is unsafe. */
  function HandleUrl(url: string, fetch: string -> Option<CheckResult>, s: WorkerState): TabEffects {
    var run := CheckUrl(url, fetch);
    match run.result
    case None => TabEffects(s, run.fetched, None, None)
    case Some(r) =>
      var store := SetCachedResult(s.store, url, r);
      if !IsUnsafe(r) then TabEffects(WorkerState(store, s.notified), run.fetched, None, None)
      else if HasNotified(s.notified, url) then TabEffects(WorkerState(store, s.notified), run.fetched, None, Some(r))
      else TabEffects(WorkerState(store, AddNotified(s.notified, url)), run.fetched, Some(ShowNotification(url, r)), Some(r))
  }

  /** A browser event the background listens to: a tab update with its
      status and the tab's URL (empty when the tab has none), or the
      activation of a tab with its URL. */
  datatype TabEvent = Updated(status: string, url: string) | Activated(url: string)

  /** `onUpdated` and `onActivated`. */
  function OnTabEvent(e: TabEvent, fetch: string -> Option<CheckResult>, s: WorkerState): (t: TabEffects)
  {
    match e
    case Updated(status, url) =>
      if status != "complete" || url == [] then TabEffects(s, false, None, None) else HandleUrl(url, fetch, s)
    case Activated(url) =>
      if url == [] then TabEffects(s, false, None, None) else HandleUrl(url, fetch, s)
  }

  /** One tab event: an update that is not `complete`, or has no URL, does
      nothing; otherwise a non-null result is cached under `url_<url>`
      before anything else, a notification goes out exactly when the result
      is unsafe and the URL was not notified yet, and the warning goes to
      the tab whenever the result is unsafe. */
  lemma OnTabEventSpec(e: TabEvent, fetch: string -> Option<CheckResult>, s: WorkerState)
    ensures e.Updated? && (e.status != "complete" || e.url == []) ==> OnTabEvent(e, fetch, s) == TabEffects(s, false, None, None)
    ensures e.url == [] ==> OnTabEvent(e, fetch, s) == TabEffects(s, false, None, None)
    ensures OnTabEvent(e, fetch, s).fetched ==> IsHttpUrl(e.url)
    ensures var t := OnTabEvent(e, fetch, s);
            t.fetched && CheckUrl(e.url, fetch).result.Some? ==>
              t.state.store == SetCachedResult(s.store, e.url, CheckUrl(e.url, fetch).result.value)
    ensures var t := OnTabEvent(e, fetch, s);
            t.notification.Some? <==>
              t.fetched && CheckUrl(e.url, fetch).result.Some? && IsUnsafe(CheckUrl(e.url, fetch).result.value)
              && !HasNotified(s.notified, e.url)
    ensures var t := OnTabEvent(e, fetch, s);
            t.warning.Some? <==>
              t.fetched && CheckUrl(e.url, fetch).result.Some? && IsUnsafe(CheckUrl(e.url, fetch).result.value)
    ensures var t := OnTabEvent(e, fetch, s);
            t.notification.Some? ==> t.notification.value == ShowNotification(e.url, CheckUrl(e.url, fetch).result.value)
    ensures var t := OnTabEvent(e, fetch, s);
            forall v :: HasNotified(t.state.notified, v) <==> HasNotified(s.notified, v) || (t.notification.Some? && v == e.url)
  {
    CheckUrlSpec(e.url, fetch);
  }

  /** The URLs a sequence of tab events raises notifications for, in
      order, and the state afterwards; `fetches[i]` is the backend as the
      `i`-th event sees it. */
  function RunEvents(es: seq<TabEvent>, fetches: seq<string -> Option<CheckResult>>, s: WorkerState): (WorkerState, seq<string>)
    requires |fetches| == |es|
  {
    if |es| == 0 then (s, [])
    else
      var t := OnTabEvent(es[0], fetches[0], s);
      var rest := RunEvents(es[1..], fetches[1..], t.state);
      (rest.0, (if t.notification.Some? then [es[0].url] else []) + rest.1)
  }

  /** At most one notification per URL for the whole session: over any run
      of tab events the notified URLs are distinct, none was notified before
      the run, and all are in the notified list afterwards. */
  lemma {:induction false} AtMostOneNotificationPerUrl(es: seq<TabEvent>, fetches: seq<string -> Option<CheckResult>>, s: WorkerState)
    requires |fetches| == |es|
    ensures Distinct(RunEvents(es, fetches, s).1)
    ensures forall u :: u in RunEvents(es, fetches, s).1 ==>
              !HasNotified(s.notified, u) && HasNotified(RunEvents(es, fetches, s).0.notified, u)
  {
    if |es| > 0 {
      var t := OnTabEvent(es[0], fetches[0], s);
      OnTabEventSpec(es[0], fetches[0], s);
      AtMostOneNotificationPerUrl(es[1..], fetches[1..], t.state);
      NotifiedStays(es[1..], fetches[1..], t.state);
      var rest := RunEvents(es[1..], fetches[1..], t.state);
      var first: seq<string> := if t.notification.Some? then [es[0].url] else [];
      var us := first + rest.1;
      assert RunEvents(es, fetches, s) == (rest.0, us);
      if t.notification.Some? {
        assert HasNotified(t.state.notified, es[0].url);
        assert es[0].url !in rest.1;
        DistinctCons(es[0].url, rest.1);
      } else {
        assert us == rest.1;
      }
    }
  }

  lemma DistinctCons(x: string, xs: seq<string>)
    requires Distinct(xs) && x !in xs
    ensures Distinct([x] + xs)
  {
    var ys := [x] + xs;
    forall j, k | 0 <= j < k < |ys| ensures ys[j] != ys[k] {
      assert ys[k] == xs[k - 1];
      if j > 0 {
        assert ys[j] == xs[j - 1];
      }
    }
  }

  /** Once listed, a URL stays listed. */
  lemma {:induction false} NotifiedStays(es: seq<TabEvent>, fetches: seq<string -> Option<CheckResult>>, s: WorkerState)
    requires |fetches| == |es|
    ensures forall u :: HasNotified(s.notified, u) ==> HasNotified(RunEvents(es, fetches, s).0.notified, u)
  {
    if |es| > 0 {
      var t := OnTabEvent(es[0], fetches[0], s);
      OnTabEventSpec(es[0], fetches[0], s);
      NotifiedStays(es[1..], fetches[1..], t.state);
    }
  }

  // ---------------------------------------------------------------------
  // Overlapping handlers
  // ---------------------------------------------------------------------

  /** `RunEvents` runs each handler to completion before the next starts.
      The handlers as written await between reading the notified list
      (`hasNotified`) and writing it (`addNotified`), and `addNotified`
      awaits between its own read and its write, so two handlers can
      overlap. `OverlappedPair` is one schedule the browser allows: handlers
      with unsafe results for `u1` and `u2` both read the list, in
      `hasNotified` and again in `addNotified`, before either writes it.
      Returns the URLs notified, in order, and the list left in session
      storage: the second write replaces the first. */
  function OverlappedPair(u1: string, u2: string, n: Notified): (seq<string>, Notified) {
    var first: seq<string> := if HasNotified(n, u1) then [] else [u1];
    var second: seq<string> := if HasNotified(n, u2) then [] else [u2];
    var after :=
      if !HasNotified(n, u2) then AddNotified(n, u2)
      else if !HasNotified(n, u1) then AddNotified(n, u1)
      else n;
    (first + second, after)
  }

  /** Overlapping handlers for one URL not yet notified both notify: the
      notified URLs are not distinct, which `AtMostOneNotificationPerUrl`
      rules out for handlers that do not overlap. */
  lemma OverlappedPairNotifiesTwice(u: string, n: Notified)
    requires !HasNotified(n, u)
    ensures OverlappedPair(u, u, n).0 == [u, u]
    ensures !Distinct(OverlappedPair(u, u, n).0)
  {
    assert OverlappedPair(u, u, n).0[0] == OverlappedPair(u, u, n).0[1];
  }

  /** Overlapping handlers for two different new URLs both notify, but the
      first URL is missing from the list afterwards, so a later unsafe
      result for it notifies a second time. */
  lemma OverlappedPairLosesUrl(u1: string, u2: string, n: Notified, fetch: string -> Option<CheckResult>, store: map<string, CheckResult>)
    requires u1 != u2 && !HasNotified(n, u1) && !HasNotified(n, u2)
    requires IsHttpUrl(u1) && fetch(u1).Some? && IsUnsafe(fetch(u1).value)
    ensures OverlappedPair(u1, u2, n).0 == [u1, u2]
    ensures !HasNotified(OverlappedPair(u1, u2, n).1, u1)
    ensures HandleUrl(u1, fetch, WorkerState(store, OverlappedPair(u1, u2, n).1)).notification
              == Some(ShowNotification(u1, fetch(u1).value))
  {
    CheckUrlSpec(u1, fetch);
  }

  // ---------------------------------------------------------------------
  // onInstalled
  // ---------------------------------------------------------------------

  /** A tab as `chrome.tabs.query` reports it; a missing URL is empty. */
  datatype Tab = Tab(id: Option<int>, url: string)

  /** The guard of line 212: no id (or id 0, which is falsy), no URL, or a
      URL under one of the internal schemes. */
  predicate SkipTab(t: Tab) {
    t.id.None? || t.id.value == 0 || t.url == []
    || StartsWith(t.url, "chrome://") || StartsWith(t.url, "edge://") || StartsWith(t.url, "about:")
    || StartsWith(t.url, "moz-extension://") || StartsWith(t.url, "chrome-extension://")
  }

  /** The tabs the install handler tries to inject the content script into,
      in query order. */
  function InjectionTargets(tabs: seq<Tab>): (ts: seq<Tab>)
    ensures forall t :: t in ts <==> t in tabs && !SkipTab(t)
    ensures |ts| <= |tabs|
  {
    if |tabs| == 0 then []
    else
      var rest := InjectionTargets(tabs[1..]);
      assert forall t :: t in tabs <==> t == tabs[0] || t in tabs[1..];
      if SkipTab(tabs[0]) then rest else [tabs[0]] + rest
  }

  /** Every injected tab has a nonzero id and a URL that is not internal;
      in particular any `http(s)` tab with an id is injected. */
  lemma InjectionTargetsSound(tabs: seq<Tab>, t: Tab)
    requires t in tabs && t.id.Some? && t.id.value != 0 && IsHttpUrl(t.url)
    ensures t in InjectionTargets(tabs)
  {
    assert t.url[0] == 'h';
    assert !StartsWith(t.url, "chrome://") by { assert "chrome://"[0] == 'c'; }
    assert !StartsWith(t.url, "chrome-extension://") by { assert "chrome-extension://"[0] == 'c'; }
    assert !StartsWith(t.url, "edge://") by { assert "edge://"[0] == 'e'; }
    assert !StartsWith(t.url, "moz-extension://") by { assert "moz-extension://"[0] == 'm'; }
    assert !StartsWith(t.url, "about:") by { assert "about:"[0] == 'a'; }
  }

  // ---------------------------------------------------------------------
  // The message router
  // ---------------------------------------------------------------------

  /** A message from a content script, by its `type`. */
  datatype Message = KeepAlivePing | BatchCheck(urls: seq<string>) | CheckCurrentPage(url: string) | OtherType(kind: string)

  /** The batch endpoint's reply body. */
  datatype BatchBody = BatchBody(results: seq<CheckResult>, totalChecked: int, safeCount: int, unsafeCount: int)

  datatype Response =
    | Alive(ok: bool, timestamp: int)
    | Batch(body: BatchBody)
    | Page(result: Option<CheckResult>)
    | Error(error: string)

  /** The background's `batchCheckUrls` (lines 291-308): the reply, or the
      empty fallback on any failure. */
  function BackgroundBatch(urls: seq<string>, fetchBatch: seq<string> -> Option<BatchBody>): (b: BatchBody)
    ensures fetchBatch(urls).None? ==> b == BatchBody([], 0, 0, 0)
    ensures fetchBatch(urls).Some? ==> b == fetchBatch(urls).value
  {
    match fetchBatch(urls)
    case Some(body) => body
    case None => BatchBody([], 0, 0, 0)
  }

  /** The `onMessage` listener (lines 234-289): the response and the local
      storage afterwards. `now` is `Date.now()`. */
  function Route(msg: Message, now: int, fetch: string -> Option<CheckResult>,
                 fetchBatch: seq<string> -> Option<BatchBody>, store: map<string, CheckResult>)
    : (r: (Response, map<string, CheckResult>))
  {
    match msg
    case KeepAlivePing => (Alive(true, now), store)
    case BatchCheck(urls) => (Batch(BackgroundBatch(urls, fetchBatch)), store)
    case CheckCurrentPage(url) =>
      var run := CheckUrl(url, fetch);
      if run.result.Some? then (Page(run.result), SetCachedResult(store, url, run.result.value))
      else (Page(None), store)
    case OtherType(_) => (Error("Unknown message type"), store)
  }

  /** The router answers a keep-alive with `ok: true` and the time, a batch
      with the backend's reply or the empty fallback (never with an error:
      the batch helper catches everything), a page check with the result,
      caching it only when it is not null, and anything else with the
      unknown-type error; only a page check with a result writes storage. */
  lemma RouteSpec(msg: Message, now: int, fetch: string -> Option<CheckResult>,
                  fetchBatch: seq<string> -> Option<BatchBody>, store: map<string, CheckResult>)
    ensures var (resp, st) := Route(msg, now, fetch, fetchBatch, store);
            msg.KeepAlivePing? ==> resp == Alive(true, now) && st == store
    ensures var (resp, st) := Route(msg, now, fetch, fetchBatch, store);
            msg.BatchCheck? ==> resp.Batch? && st == store
    ensures var (resp, st) := Route(msg, now, fetch, fetchBatch, store);
            msg.BatchCheck? && fetchBatch(msg.urls).None? ==>
              resp.body == BatchBody([], 0, 0, 0)
    ensures var (resp, st) := Route(msg, now, fetch, fetchBatch, store);
            msg.CheckCurrentPage? ==> resp.Page?
    ensures var (resp, st) := Route(msg, now, fetch, fetchBatch, store);
            msg.CheckCurrentPage? && resp.result.Some? ==>
              IsHttpUrl(msg.url) && resp.result == fetch(msg.url) && st == SetCachedResult(store, msg.url, resp.result.value)
    ensures var (resp, st) := Route(msg, now, fetch, fetchBatch, store);
            msg.CheckCurrentPage? && resp.result.None? ==> st == store
    ensures var (resp, st) := Route(msg, now, fetch, fetchBatch, store);
            msg.OtherType? ==> resp == Error("Unknown message type") && st == store
  {
    if msg.CheckCurrentPage? {
      CheckUrlSpec(msg.url, fetch);
    }
  }
}
