# Phishing-detector extension: a Dafny model of its decision logic

The extension checks every link on a page against a phishing-detection
backend and colours the dangerous ones. It also checks each page the user
opens, notifies once per unsafe URL, keeps a URL result cache in
extension storage, and keeps chat sessions in IndexedDB. This project
models the parts of the extension that decide things. Browser APIs,
timers, the backend and the chat service are parameters (oracles): every
wait is a returned duration and every network or storage reply is an
input. Over that model it proves what the code promises.

Modules, one per component:

- `Wrappers`: `Option` and `Result`.
- `JsText`: `startsWith`, JavaScript whitespace and `trim`, ASCII case
  mapping, powers of two, the code-unit string order, decimal printing.
- `Types`: the `CheckResult` fields the model reads, and the "unsafe"
  predicate.
- `Retry`: the three bounded retry loops.
  - `ensureServiceWorkerReady` makes 10 pings, waiting `min(100·2^k, 2000)` ms after ping k fails.
  - `sendMessageWithRetry` makes 3 warm-up pings, then sends with exponential backoff.
  - `sendMessageToTab` retries with a fixed delay and re-injects the content script.
- `TextUrls`: a matcher for the page's URL pattern `https?://[^\s<>"{}|\\^`[\]]+`,
  case-insensitive. Built on it are the split of a text node into plain and link pieces,
  the guard of `findAndWrapTextUrls`, and a corrected recursive wrapper over a tree.
- `LinkScan`: the link-scanning pipeline of the content script.
  - Normalise anchor and span URLs.
  - Group the elements by URL in first-seen order.
  - Split the URLs into cached and unchecked.
  - Send the unchecked ones in batches of 100 and map each batch reply.
  - Merge the results and build the cache updates.
  - Map each verdict to a highlight.
- `UrlCache`: the `url_`-prefixed result cache of `StorageManager`.
- `Background`: the service worker.
  - The scheme filter of `checkUrl`.
  - The notification text, and deduplication against `notifiedUrls`.
  - The `onUpdated`/`onActivated` handling.
  - The tab filter of `onInstalled`, and the message router.
- `SessionStore`: `IndexedDBManager`. The object store is a list of
  sessions sorted by id, which is IndexedDB's key order. Listing applies a
  stable sort by `updated_at`, newest first.
- `ResultCard`: the verdict gate, verdict styles and icons, risk bands,
  the signal-label formatter, and the reputation and subdomain lines.
- `ChatScreen`: the state transitions of `sendMessage`,
  `createNewSession` and `deleteSession`.

The model follows the code. Once its retries are exhausted,
`sendMessageWithRetry` throws the last attempt's error
(extension/src/content.ts:138-141). Only `sendMessageToTab` and
`ensureServiceWorkerReady` report failure by returning false.
`final_verdict` is any string. A verdict other than `safe`, `suspicious`
or `unsafe` highlights links red. Most such verdicts render no result
card. The exceptions are names every JavaScript object inherits
(`constructor`, `toString`, …). For those, the configuration lookup at
extension/src/components/ResultCard.tsx:12 finds the inherited member, and
the card renders with the default style, no icon and no badge text.

## Model

| member | source | states |
|---|---|---|
| JsText.Trim | extension/src/components/ChatScreen.tsx:64-66 | the trimmed string is a contiguous slice of the input with no whitespace at either end, and it is empty exactly when the input is all whitespace |
| JsText.LexLessTransitive | extension/src/utils/indexeddb.ts:70 | the string order IndexedDB lists keys in is transitive (with LexLessIrreflexive and LexLessTotal: a strict total order) |
| JsText.Decimal | extension/src/components/ChatScreen.tsx:76 | a timestamp prints as a nonempty string of decimal digits, with no leading zero unless it is 0 |
| JsText.DecimalValue | extension/src/components/ChatScreen.tsx:76 | the printed digits read back as the number printed |
| JsText.DecimalInjective | extension/src/components/ChatScreen.tsx:90 | two timestamps print the same iff they are equal, so ids built from different times differ |
| Retry.WakeFrom | extension/src/content.ts:66-77 | from ping k on, the loop stops at the first successful ping or after ping 10. Every skipped ping failed, and the wait after each failure is that attempt's backoff |
| Retry.EnsureServiceWorkerReady | extension/src/content.ts:63-78 | at most 10 pings; the result is true iff one of the 10 pings succeeds, and then the first such ping ends the loop; one wait per failed ping, the k-th being min(100·2^k, 2000) ≤ 2000 ms |
| Retry.WakeBackoffSchedule | extension/src/content.ts:72 | the backoff doubles from 100 ms for attempts 0-4 and is capped at 2000 ms from attempt 5 on |
| Retry.EnsureReadyTotalWait | extension/src/content.ts:63-78 | the total wait never exceeds 13.1 s, and is exactly 13.1 s when no ping succeeds |
| Retry.ScheduleTotal | extension/src/content.ts:72 | any prefix of the backoff schedule sums to at most the full schedule's total |
| Retry.WarmUpFrom | extension/src/content.ts:113-117 | the warm-up stops at the first answered ping among 3, waiting 100·(i+1) ms after the i-th failed ping |
| Retry.SendFrom | extension/src/content.ts:123-149 | from attempt k on, the loop returns the first delivered response. Every earlier attempt was rejected. After the last attempt fails it throws that attempt's error. The i-th wait is delay·2^i. Each wait is preceded by one more wake-up ping, so there are as many pings as waits, and neither comes after the final failure |
| Retry.SendMessageWithRetry | extension/src/content.ts:108-150 | the warm-up pings at most 3 times and never aborts the send. The send makes at most `retries` attempts and responds iff some attempt delivers, with the first delivered value. It throws iff all `retries` attempts are rejected, with the last error. Each rejected attempt but the last is followed by one wake-up ping. With `retries ≤ 0` nothing is sent |
| Retry.SendIgnoresWarmUp | extension/src/content.ts:113-121 | the outcome of the send does not depend on whether the warm-up pings were answered |
| Retry.TabFrom | extension/src/background.ts:95-131 | from attempt k on, the loop returns true at the first delivered attempt and false after `retries` failures. It waits `delay` between attempts only, and re-injects at most once per attempt |
| Retry.SendMessageToTab | extension/src/background.ts:94-133 | true iff one of the first `retries` attempts delivers, and then the first such attempt ends the loop; false after exactly `retries` attempts; waits are all `delay`, one fewer than the attempts |
| TextUrls.UrlRunSpec | extension/src/content.ts:237 | the URL body run consists of allowed characters and stops at the first whitespace or excluded character |
| TextUrls.MatchLengthSound | extension/src/content.ts:237 | a nonzero match length delimits a string that the URL pattern matches, and the match is maximal |
| TextUrls.MatchLengthComplete | extension/src/content.ts:237 | the match length at a position is at least the length of any match of the URL pattern that starts there |
| TextUrls.NoMatchesNoUrl | extension/src/content.ts:237 | when the scan finds no URL in a string, no substring of it matches the URL pattern |
| TextUrls.MatchInSlice | extension/src/content.ts:269 | a match inside a slice of the text is also a match position of the whole text |
| TextUrls.AssembleFlatten | extension/src/content.ts:276-306 | the pieces built from the matches spell the text from the start position on |
| TextUrls.AssembleLinks | extension/src/content.ts:279-299 | the link pieces are exactly the matched URLs, in order |
| TextUrls.AssembleShape | extension/src/content.ts:283-304 | no text piece is empty and no two text pieces are adjacent |
| TextUrls.SegmentSound | extension/src/content.ts:269-306 | the pieces of a text node concatenate to its text. The URL pieces are exactly the pattern's matches, in order. No text piece is empty |
| TextUrls.ScanHead | extension/src/content.ts:269 | the first match from a position is the leftmost match at or after it, and the matches after it start where it ends |
| TextUrls.MatchesFromHead | extension/src/content.ts:269 | the same, for the URL pattern: nothing matches between the position and the first match, and the rest of the matches start after it |
| TextUrls.PlainPieceHasNoMatch | extension/src/content.ts:269-286 | the text between two matches contains no match of its own |
| TextUrls.SegmentPlainsClean | extension/src/content.ts:269-304 | no substring of a text piece produced by the split matches the URL pattern |
| TextUrls.FindAndWrapTextUrls | extension/src/content.ts:255-306 | an element node is left untouched. A text node is replaced iff it has matches, it is not processed, its parent exists and it is not under SCRIPT/STYLE/A. A detached text node with matches is only marked. A replacement loses no text and wraps exactly the matches |
| TextUrls.BodyScanIsNoOp | extension/src/content.ts:362-364 | the scan started at `document.body` changes nothing |
| TextUrls.PiecesToTreesText | extension/src/content.ts:276-306 | turning pieces into text nodes and URL spans keeps the text |
| TextUrls.WrapChildrenSound | extension/src/content.ts:308-316 | wrapping the children of an element keeps their text and leaves no bare URL outside SCRIPT/STYLE/A |
| TextUrls.WrapTreeSound | extension/src/content.ts:308-316 | the corrected recursive scan keeps the text of a tree and leaves no bare URL in it |
| TextUrls.BodyScanMissesUrl | extension/src/content.ts:257-264 | a body holding the text `http://a` is left untouched by the scan as written, whereas the corrected recursive scan wraps the URL |
| LinkScan.AnchorUrl | extension/src/content.ts:375-391 | an anchor whose href does not start with `http://` or `https://` contributes no URL |
| LinkScan.SpanUrl | extension/src/content.ts:395-407 | a span without a `data-url` contributes no URL |
| LinkScan.EntriesSound | extension/src/content.ts:373-408 | each entry comes from an earlier element of the right kind, under that element's URL |
| LinkScan.EntriesOrdered | extension/src/content.ts:373-408 | entries follow document order |
| LinkScan.EntriesComplete | extension/src/content.ts:373-408 | every element with a URL has an entry |
| LinkScan.FirstSeenSpec | extension/src/content.ts:382-410 | the map keys are distinct and are exactly the URLs seen |
| LinkScan.BuildUrlMapSpec | extension/src/content.ts:373-408 | the map has a group exactly for each key, and each group lists the elements carrying that URL |
| LinkScan.ItemsWithSpec | extension/src/content.ts:382-401 | an element is in a URL's group iff it was entered under that URL, so each element is in exactly one group |
| LinkScan.SplitCachedSpec | extension/src/content.ts:418-437 | a URL is cached iff it has a `url_` entry, and its cached result is that entry. It is to be checked iff it has none. The to-check list keeps the URLs' order |
| LinkScan.SplitPartition | extension/src/content.ts:429-437 | the cached and to-check URLs are disjoint, together they are all URLs, and the to-check list has no repeats |
| LinkScan.MakeBatches | extension/src/content.ts:448-453 | the batches are nonempty and concatenate to the input. Each holds at most 100 URLs and all but the last hold exactly 100. There are ⌈n/100⌉ of them |
| LinkScan.ResultsToMapKeys | extension/src/content.ts:187-195 | a URL is a key iff some returned result has that url |
| LinkScan.ResultsToMapLast | extension/src/content.ts:187-195 | a result that no later result repeats is the one stored under its URL, so a repeated URL keeps its last result |
| LinkScan.BatchCheckUrls | extension/src/content.ts:175-202 | a failed batch call, or a reply without results, yields the empty map; otherwise the keys are exactly the returned URLs |
| LinkScan.CacheEntriesSpec | extension/src/content.ts:464-467 | every result gets a cache entry under `url_` + its URL, and no other entries are made |
| LinkScan.MergeResultsKeys | extension/src/content.ts:461-474 | the merged results cover exactly the cached URLs and the URLs some batch answered |
| LinkScan.MergeUpdatesKeys | extension/src/content.ts:464-467 | the cache updates are keyed exactly by `url_` + each answered URL |
| LinkScan.MergeLastWins | extension/src/content.ts:461-474 | for a URL answered in a batch and in no later one, both the merged result and the cache update are that batch's result |
| LinkScan.MergeKeepsCached | extension/src/content.ts:429-433 | a cached URL that no batch answered keeps its cached result |
| LinkScan.VerdictStyleCases | extension/src/content.ts:213-233 | `safe` clears the styling, `suspicious` is orange, and every other verdict string is red |
| LinkScan.HighlightItems | extension/src/content.ts:494-505 | every element of a URL's list gets that URL's style, in order |
| LinkScan.HighlightPlanSpec | extension/src/content.ts:494-505 | a highlight exists only for an element in the list of a URL with a result, styled by that result's verdict. Every such element gets one. URLs without a result are not touched |
| LinkScan.StoreAfterUpdates | extension/src/content.ts:485-487 | writing the updates keeps every key already in storage, changes no non-`url_` key and adds only `url_` keys |
| LinkScan.BatchesUnCached | extension/src/content.ts:437-453 | every batched URL is one of the page's URLs and has no cache entry |
| LinkScan.CachedHighlights | extension/src/content.ts:429-505 | an element whose URL is cached and unanswered by the batches is highlighted by the cached verdict |
| LinkScan.CheckMappedUrls | extension/src/content.ts:410-505 | with no URLs nothing happens. Otherwise the batches are the cache misses in order, in chunks of at most 100. Storage only gains `url_` entries and keeps the rest. Every highlight belongs to a grouped element. Cached URLs that no batch answers are highlighted by their cached verdict |
| LinkScan.CheckEntries | extension/src/content.ts:373-505 | only page URLs without a cache entry are sent, and each highlight is an element that carries its URL |
| LinkScan.CheckAndHighlightLinks | extension/src/content.ts:369-505 | from anchors and spans: a page with no URLs does nothing. Batches hold only uncached page URLs. Every highlight targets a page element carrying its URL. Non-`url_` storage is unchanged |
| UrlCache.CacheKeyShape | extension/src/utils/storage.ts:7 | a cache key is `url_` followed by the URL |
| UrlCache.CacheKeyInjective | extension/src/utils/storage.ts:7 | distinct URLs get distinct keys, and vice versa |
| UrlCache.GetCachedResult | extension/src/utils/storage.ts:5-12 | null exactly when the key is absent, otherwise the stored result |
| UrlCache.SetCachedResult | extension/src/utils/storage.ts:14-19 | the key set grows by the URL's key only, and every other key keeps its value |
| UrlCache.GetAfterSet | extension/src/utils/storage.ts:5-19 | reading a URL right after setting it returns the value set |
| UrlCache.SetLeavesOtherUrls | extension/src/utils/storage.ts:5-19 | setting URL a does not change the cached result of any other URL b |
| UrlCache.ClearUrlCache | extension/src/utils/storage.ts:21-34 | exactly the `url_` keys are removed; every other key keeps its value |
| UrlCache.ClearForgetsEveryUrl | extension/src/utils/storage.ts:21-34 | after clearing, every URL lookup returns null |
| UrlCache.ClearIdempotent | extension/src/utils/storage.ts:21-34 | clearing twice is the same as clearing once |
| UrlCache.ClearWithoutUrlKeys | extension/src/utils/storage.ts:21-34 | with no `url_` keys, clearing changes nothing |
| UrlCache.ClearKeepsOtherKeys | extension/src/utils/storage.ts:21-34 | a key without the prefix survives clearing with its value |
| Background.CheckUrlSpec | extension/src/background.ts:47-76 | the backend is called iff the URL starts with `http://` or `https://`, and the result is the backend's; any other URL gives null |
| Background.BrowserSchemeGuardIsDead | extension/src/background.ts:55-58 | no URL that passes the http(s) filter starts with `chrome://` or `edge://`, so that guard never fires |
| Background.ShowNotificationText | extension/src/background.ts:78-91 | the title is the phishing title iff the result is unsafe (not safe, or verdict `unsafe` or `suspicious`). The message names the URL and, when unsafe, the verdict |
| Background.AddNotified | extension/src/background.ts:15-28 | afterwards the URL has been notified. Exactly that URL is added. An already-present URL leaves the list unchanged. The list stays free of duplicates |
| Background.OnTabEventSpec | extension/src/background.ts:136-203 | a tab update does nothing unless its status is `complete` and it has a URL. The backend is called only for http(s) URLs. A non-null result is cached under `url_` + URL. The warning is sent for every unsafe result. A notification is shown iff the result is unsafe and the URL was not yet notified, and that URL is then recorded |
| Background.AtMostOneNotificationPerUrl | extension/src/background.ts:154-162 | over any run of tab events, each handled to completion before the next, the notified URLs are distinct and were not notified before the run |
| Background.NotifiedStays | extension/src/background.ts:21-28 | a URL once notified stays notified for the rest of the session, when handlers do not overlap |
| Background.OverlappedPairNotifiesTwice | extension/src/background.ts:154-162 | two overlapping handlers for one new unsafe URL both notify |
| Background.OverlappedPairLosesUrl | extension/src/background.ts:21-28 | two overlapping handlers for different new unsafe URLs both notify, the first URL is lost from the list, and a later unsafe result for it notifies again |
| Background.InjectionTargets | extension/src/background.ts:210-214 | a tab is injected iff it has an id and a URL, and its URL starts with none of `chrome://`, `edge://`, `about:`, `moz-extension://`, `chrome-extension://` |
| Background.InjectionTargetsSound | extension/src/background.ts:212 | every listed tab with a nonzero id and an http(s) URL is injected |
| Background.BackgroundBatch | extension/src/background.ts:291-308 | a failed batch call yields no results and zero counts; otherwise the backend's body |
| Background.RouteSpec | extension/src/background.ts:234-289 | `KEEP_ALIVE_PING` answers `ok: true` with the time. A batch request never touches the cache and yields empty results on failure. `CHECK_CURRENT_PAGE` caches only non-null results, which come from the backend for http(s) URLs. Unknown types get `Unknown message type` |
| SessionStore.Get | extension/src/utils/indexeddb.ts:53-63 | a found session is stored under that id; null means no stored session has that id |
| SessionStore.PutSpec | extension/src/utils/indexeddb.ts:41-51 | the upsert keeps the store ordered by id, makes `getSession(id)` the new session and leaves every other id unchanged; the store grows by one iff the id was new |
| SessionStore.DeleteSpec | extension/src/utils/indexeddb.ts:82-92 | deleting removes only that id; every other id is unchanged and the store shrinks by one iff the id was present |
| SessionStore.EnsureDb | extension/src/utils/indexeddb.ts:33-38 | an uninitialised database fails with "Database not initialized"; an open one yields its sessions |
| SessionStore.UninitializedFails | extension/src/utils/indexeddb.ts:33-103 | every operation before `init` fails with the not-initialised error |
| SessionStore.SaveSessionSpec | extension/src/utils/indexeddb.ts:41-63 | after saving, `getSession(id)` returns the session, other ids read as before, and the count grows by one only for a new id |
| SessionStore.DeleteSessionSpec | extension/src/utils/indexeddb.ts:82-92 | after deleting, `getSession(id)` is null and other ids read as before |
| SessionStore.AddMessageSpec | extension/src/utils/indexeddb.ts:94-103 | an absent id fails with "Session not found". Otherwise the message is appended at the end of that session and `updated_at` set, while the count and every other session are unchanged |
| SessionStore.InsertByUpdatedSpec | extension/src/utils/indexeddb.ts:75 | one insertion step of the sort keeps the list newest-first, with ties in key order |
| SessionStore.SortByUpdatedMultiset | extension/src/utils/indexeddb.ts:75 | sorting is a permutation of the listed sessions |
| SessionStore.SortByUpdatedSpec | extension/src/utils/indexeddb.ts:75 | the sorted list is ordered by non-increasing `updated_at`, with ties in key order (the sort is stable) |
| SessionStore.GetAllSessionsSpec | extension/src/utils/indexeddb.ts:65-80 | listing returns exactly the stored sessions, as a permutation, ordered by non-increasing `updated_at` |
| ResultCard.RiskBands | extension/src/components/ResultCard.tsx:112-128 | scores up to 30 are green, 31-60 yellow, above 60 red, for both the score text and the bar |
| ResultCard.RiskBandMonotone | extension/src/components/ResultCard.tsx:112-128 | a higher score never gets a milder band |
| ResultCard.JoinFromSplit | extension/src/components/ResultCard.tsx:153 | splitting on spaces, recasing each word and joining with spaces is the same as recasing each character by whether it starts a word |
| ResultCard.CaseByPositionIdempotent | extension/src/components/ResultCard.tsx:153 | recasing by word position twice is the same as once |
| ResultCard.FormatSignalSpec | extension/src/components/ResultCard.tsx:153 | a formatted signal label has no underscore and keeps the input's length; formatting it again changes nothing |
| ResultCard.SignalLabelsSpec | extension/src/components/ResultCard.tsx:147-156 | one formatted label per suspicious signal, in order; none when the field is absent |
| ResultCard.ReputationFlagSpec | extension/src/components/ResultCard.tsx:322-371 | the box is shown iff reputation data exists. It is flagged iff the result is `overall_suspicious`, or Safe Browsing reports unsafe with at least one threat. The box colour, the mark's colour and the no-entry mark agree |
| ResultCard.SubdomainLineSpec | extension/src/components/ResultCard.tsx:289-306 | the subdomain line appears iff the features are present with an absent or empty error and the count is defined and greater than 2, and it shows that count |
| ResultCard.FormatAll | extension/src/components/ResultCard.tsx:152-154 | each signal maps to its formatted label, in order |
| ResultCard.RenderCardGate | extension/src/components/ResultCard.tsx:12-16 | the card renders iff the verdict is `safe`, `suspicious`, `unsafe` or the name of an inherited object member. The three verdicts get their own style, an icon and a badge. Inherited names get the default style, no icon and no badge. `phishing` renders nothing, and the phishing style goes with `unsafe` only |
| ResultCard.RenderCardLabel | extension/src/components/ResultCard.tsx:99 | a rendered card has badge text iff the verdict is one of the three configured ones, and that text is the verdict in capitals |
| ResultCard.PhishingArmsMatchUnsafe | extension/src/components/ResultCard.tsx:18-76 | the `phishing` arms give the same style and icon as `unsafe`, but `phishing` has no configuration (not even an inherited one), so they are never reached |
| ChatScreen.DeriveTitleSpec | extension/src/components/ChatScreen.tsx:77 | a title is the message when at most 50 characters, otherwise its first 50 characters followed by `...` |
| ChatScreen.Turns | extension/src/components/ChatScreen.tsx:108-112 | the history sent to the chat service pairs each message's role and content, in order |
| ChatScreen.CreateNewSession | extension/src/components/ChatScreen.tsx:46-55 | a new chat becomes current, titled `New Chat` with no messages, and nothing else changes |
| ChatScreen.SendGuard | extension/src/components/ChatScreen.tsx:64 | whitespace-only input, or a send while loading, changes nothing, and only those do |
| ChatScreen.SendTitle | extension/src/components/ChatScreen.tsx:70-86 | the title is derived from the trimmed message iff there was no session, or the session is empty and still `New Chat`. Otherwise it is unchanged, and an existing session keeps its id |
| ChatScreen.SendSettles | extension/src/components/ChatScreen.tsx:67-136 | after a send the input is cleared and loading is off |
| ChatScreen.SendHistory | extension/src/components/ChatScreen.tsx:101-112 | with an open store the history is sent. It ends with the new user message and is preceded by the earlier messages |
| ChatScreen.SendReplied | extension/src/components/ChatScreen.tsx:89-131 | a successful send appends exactly two messages, the trimmed user text and then the assistant's reply, and keeps the earlier ones and no error |
| ChatScreen.SendRepliedStored | extension/src/components/ChatScreen.tsx:101-131 | after a successful send the store holds the current session and the sidebar list equals the store's listing |
| ChatScreen.SendRejected | extension/src/components/ChatScreen.tsx:89-133 | when the chat call fails the user message stays in the (saved) session and the error is the call's message, or `Failed to send message` when it has none |
| ChatScreen.SendWithoutStore | extension/src/components/ChatScreen.tsx:96-133 | with no database the user message is appended locally, nothing is sent and the not-initialised error is shown |
| ChatScreen.NewChatTakesFirstMessageTitle | extension/src/components/ChatScreen.tsx:46-86 | the first message sent in a fresh `New Chat` names the session |
| ChatScreen.DeleteSessionEffect | extension/src/components/ChatScreen.tsx:139-151 | deleting the current session clears it and deleting another keeps it. Afterwards the id is gone from the store and from the list |
| ChatScreen.DeleteWithoutStore | extension/src/components/ChatScreen.tsx:139-151 | with no database the failure is swallowed and nothing changes |

## Left out

- DOM construction and styling: span creation, CSS strings, the warning overlay and its handlers (extension/src/content.ts:596-905) are presentation; only the verdict-to-style decision and the piece structure are modelled.
- Timers and event plumbing: the keep-alive interval, the 500 ms debounce, the MutationObserver and every `setTimeout` are left out; waits are returned durations.
- Logging (`console.*`) has no effect on any decision and is left out.
- WHATWG URL parsing (`new URL`, hash stripping) is an uninterpreted parameter (`stripHash`, `parse`) of `LinkScan`.
- `fetch`, `chrome.runtime`, `chrome.tabs`, `chrome.storage`, `chrome.scripting` and `chrome.notifications` are oracles: per-attempt outcome functions, reply functions and maps.
- SessionStore.SaveSessionSpec, SessionStore.DeleteSessionSpec, SessionStore.AddMessageSpec, SessionStore.GetAllSessionsSpec: a request on an open database always succeeds. The `onerror` rejections of `put`, `get`, `getAll` and `delete` (extension/src/utils/indexeddb.ts:49, 61, 78, 90) and a failing `open` are not modelled; only the uninitialised database fails.
- ChatScreen.SendRepliedStored, ChatScreen.SendRejected: every IndexedDB write of a send succeeds, so the paths where `saveSession` or `getAllSessions` rejects inside `sendMessage` are not modelled.
- `Promise.all` over batches is modelled as a sequential map over the batches.
- Float formatting (`toFixed` on scores, entropy, similarity) and the remaining display-only fields of `CheckResult` are left out; `risk_score` is an integer.
- `Date.now()` is a single `now` parameter per handler, so the creation and update times of one send coincide.
- The chat service (`api.ts`) is an oracle returning a reply or an error message; `api.ts` itself is a thin HTTP client.
- `AuthScreen.tsx`, `App.tsx`, `MainScreen.tsx`, `CheckUrlScreen.tsx`, `ReportScreen.tsx`, `download-chromium.js` and `vite.config.ts` are UI glue, provisioning and build configuration.
- `wrapTextUrl` in content.ts is never called and is not modelled.
- The `try`/`catch` around `onActivated` and a failing `chrome.tabs.get` are not modelled; the handler is the same decision as `onUpdated` without the status guard.
- React state aliasing is not modelled: the session object that `sendMessage` mutates in place is treated as a fresh value.
- ResultCard.FormatSignalSpec: case mapping is ASCII-only; JavaScript's full Unicode `toUpperCase`/`toLowerCase` (which can change a string's length) is left out.
- ResultCard.RenderCardLabel: the badge is stated as the ASCII upper-casing of the verdict, which agrees with the configured texts `SAFE`, `SUSPICIOUS`, `UNSAFE` of the three configured verdicts; an inherited member has no text, which the model shows as no badge.
- ChatScreen.DeriveTitleSpec: characters stand for UTF-16 code units, so a surrogate pair cut at position 50 is not modelled.
- LinkScan.AnchorUrl: only the skipped-href case is stated; for http(s) hrefs the URL is whatever the parser parameter returns.
- LinkScan.SpanUrl: only the missing-attribute case is stated; a present value is whatever the parser parameter returns.
- LinkScan.CheckMappedUrls: for URLs a batch answered it states the plan through `Highlights` and the merge lemmas rather than per URL.
- Retry.SendMessageWithRetry: the thrown value is the last attempt's error message only; the error object is not modelled.
- Background.AtMostOneNotificationPerUrl, Background.NotifiedStays, Background.RunEvents: each tab handler runs to completion before the next starts. The handlers as written await between `hasNotified` and `addNotified`, so overlapping handlers can notify twice or lose a URL. `OverlappedPair` models one such schedule, and the finding below records it.

## Findings

| source | as written | input that shows it | evidently intended | confidence | as-written member | corrected member |
|---|---|---|---|---|---|---|
| extension/src/content.ts:257-264 | `findAndWrapTextUrls(document.body)` returns at once for any node that is not a text node, so the recursive branch over child nodes is unreachable and no text URL on the page is ever wrapped | a body whose only child is the text `http://a` | the scan descends into elements and wraps every URL in text outside SCRIPT/STYLE/A | high (not executed) | TextUrls.BodyScanMissesUrl | TextUrls.WrapTreeSound |
| extension/src/background.ts:154-162 | `hasNotified` and `addNotified` are separate awaited storage round trips, and `addNotified` reads the list and writes it back later, so overlapping `onUpdated`/`onActivated` handlers both pass the check or overwrite each other's write | an unsafe URL whose update and activation events are handled together; or two different unsafe URLs handled together, after which the first is no longer listed | at most one notification per URL per session (the comment at line 153) | medium (not executed) | Background.OverlappedPairNotifiesTwice, Background.OverlappedPairLosesUrl | Background.AtMostOneNotificationPerUrl |

Two further observations that need no correction: the `chrome://`/`edge://`
check in `checkUrl` can never fire after the http(s) filter
(`Background.BrowserSchemeGuardIsDead`), and the `phishing` arms of the
result card are unreachable because `phishing` has no configuration entry,
own or inherited, so the card never renders for it
(`ResultCard.PhishingArmsMatchUnsafe`).
