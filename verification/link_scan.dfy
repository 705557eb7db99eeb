/** The link pass of the content script (content.ts, `checkAndHighlightLinks`
    and `batchCheckUrls`): collect the page's URLs, group the elements by
    URL, split the URLs into cached and unchecked ones, send the unchecked
    ones in batches of 100, merge the replies into the results and the cache
    updates, and decide each element's highlight from its URL's verdict.
    The URL parser (`new URL(...)`) is a parameter, since its normalisation
    is the browser's. */
module LinkScan {
  import opened JsText
  import opened Wrappers
  import opened Types
  import opened UrlCache
  import opened Retry

  // ---------------------------------------------------------------------
  // Collecting URLs
  // ---------------------------------------------------------------------

  /** A page element that may be highlighted: its position among the
      anchors (`isLink`) or among the highlight spans. */
  datatype Item = Item(element: nat, isLink: bool)

  /** One element together with the normalised URL it carries. */
  datatype Entry = Entry(url: string, item: Item)

  /** The URL an anchor contributes: only `http://` and `https://` hrefs,
      normalised by `stripHash` (parse, drop the fragment, print); `None`
      when the href is skipped or the parser throws. */
  function AnchorUrl(href: string, stripHash: string -> Option<string>): (u: Option<string>)
    ensures !IsHttpUrl(href) ==> u == None
  {
    if IsHttpUrl(href) then stripHash(href) else None
  }

  /** The URL a highlight span contributes: its `data-url`, when nonempty,
      normalised by `parse`; `None` when absent or unparsable. */
  function SpanUrl(dataUrl: string, parse: string -> Option<string>): (u: Option<string>)
    ensures dataUrl == [] ==> u == None
  {
    if dataUrl == [] then None else parse(dataUrl)
  }

  /** The entries of the first `n` elements of one kind, in document order:
      one for each element with a URL, none for the others. */
  function Entries(urls: seq<Option<string>>, isLink: bool, n: nat): seq<Entry>
    requires n <= |urls|
  {
    if n == 0 then []
    else
      var prev := Entries(urls, isLink, n - 1);
      match urls[n - 1]
      case None => prev
      case Some(u) => prev + [Entry(u, Item(n - 1, isLink))]
  }

  /** Every entry is for an element of the right kind among the first `n`,
      and carries that element's URL. */
  lemma {:induction false} EntriesSound(urls: seq<Option<string>>, isLink: bool, n: nat, j: nat)
    requires n <= |urls| && j < |Entries(urls, isLink, n)|
    ensures Entries(urls, isLink, n)[j].item.isLink == isLink
    ensures Entries(urls, isLink, n)[j].item.element < n
    ensures urls[Entries(urls, isLink, n)[j].item.element] == Some(Entries(urls, isLink, n)[j].url)
  {
    var prev := Entries(urls, isLink, n - 1);
    if j < |prev| {
      EntriesSound(urls, isLink, n - 1, j);
      assert Entries(urls, isLink, n)[j] == prev[j];
    }
  }

  /** Entries follow document order, so no element has two. */
  lemma {:induction false} EntriesOrdered(urls: seq<Option<string>>, isLink: bool, n: nat, j: nat, k: nat)
    requires n <= |urls| && j < k < |Entries(urls, isLink, n)|
    ensures Entries(urls, isLink, n)[j].item.element < Entries(urls, isLink, n)[k].item.element
  {
    var prev := Entries(urls, isLink, n - 1);
    assert Entries(urls, isLink, n)[j] == prev[j];
    if k < |prev| {
      EntriesOrdered(urls, isLink, n - 1, j, k);
      assert Entries(urls, isLink, n)[k] == prev[k];
    } else {
      EntriesSound(urls, isLink, n - 1, j);
    }
  }

  /** Every element with a URL among the first `n` has an entry. */
  lemma {:induction false} EntriesComplete(urls: seq<Option<string>>, isLink: bool, n: nat, i: nat)
    requires i < n <= |urls| && urls[i].Some?
    ensures exists j :: 0 <= j < |Entries(urls, isLink, n)|
              && Entries(urls, isLink, n)[j] == Entry(urls[i].value, Item(i, isLink))
  {
    var prev := Entries(urls, isLink, n - 1);
    if i == n - 1 {
      assert Entries(urls, isLink, n)[|prev|] == Entry(urls[i].value, Item(i, isLink));
    } else {
      EntriesComplete(urls, isLink, n - 1, i);
      var j :| 0 <= j < |prev| && prev[j] == Entry(urls[i].value, Item(i, isLink));
      assert Entries(urls, isLink, n)[j] == prev[j];
    }
  }

  /** All entries of a page: the anchors first, then the highlight spans. */
  function PageEntries(hrefs: seq<string>, dataUrls: seq<string>,
                       stripHash: string -> Option<string>, parse: string -> Option<string>): seq<Entry>
  {
    var anchorUrls := seq(|hrefs|, i requires 0 <= i < |hrefs| => AnchorUrl(hrefs[i], stripHash));
    var spanUrls := seq(|dataUrls|, i requires 0 <= i < |dataUrls| => SpanUrl(dataUrls[i], parse));
    Entries(anchorUrls, true, |hrefs|) + Entries(spanUrls, false, |dataUrls|)
  }

  // ---------------------------------------------------------------------
  // The URL map
  // ---------------------------------------------------------------------

  /** `urlMap`: a JavaScript `Map`, so its keys keep insertion order. */
  datatype UrlMap = UrlMap(keys: seq<string>, groups: map<string, seq<Item>>)

  /** The `has`/`set`/`push` step for one entry. */
  function Insert(m: UrlMap, e: Entry): UrlMap {
    if e.url in m.groups then UrlMap(m.keys, m.groups[e.url := m.groups[e.url] + [e.item]])
    else UrlMap(m.keys + [e.url], m.groups[e.url := [e.item]])
  }

  /** The map after the first `n` entries. */
  function BuildUrlMap(es: seq<Entry>, n: nat): UrlMap
    requires n <= |es|
  {
    if n == 0 then UrlMap([], map[]) else Insert(BuildUrlMap(es, n - 1), es[n - 1])
  }

  /** Reference definitions: the URLs of the first `n` entries without
      repeats, in the order they were first seen ... */
  function FirstSeen(es: seq<Entry>, n: nat): seq<string>
    requires n <= |es|
  {
    if n == 0 then []
    else
      var d := FirstSeen(es, n - 1);
      if es[n - 1].url in d then d else d + [es[n - 1].url]
  }

  /** ... and the items among the first `n` entries that carry URL `u`. */
  function ItemsWith(es: seq<Entry>, u: string, n: nat): seq<Item>
    requires n <= |es|
  {
    if n == 0 then []
    else if es[n - 1].url == u then ItemsWith(es, u, n - 1) + [es[n - 1].item]
    else ItemsWith(es, u, n - 1)
  }

  predicate Distinct(xs: seq<string>) {
    forall j, k :: 0 <= j < k < |xs| ==> xs[j] != xs[k]
  }

  lemma {:induction false} FirstSeenSpec(es: seq<Entry>, n: nat)
    requires n <= |es|
    ensures Distinct(FirstSeen(es, n))
    ensures forall u :: u in FirstSeen(es, n) <==> exists i :: 0 <= i < n && es[i].url == u
  {
    if n > 0 {
      FirstSeenSpec(es, n - 1);
    }
  }

  /** The map's keys are the page's URLs, each once, in first-seen order, and
      each key's list holds exactly the elements carrying that URL, in
      document order; there are no other lists. */
  lemma {:induction false} BuildUrlMapSpec(es: seq<Entry>, n: nat)
    requires n <= |es|
    ensures BuildUrlMap(es, n).keys == FirstSeen(es, n)
    ensures forall u :: u in BuildUrlMap(es, n).groups <==> u in FirstSeen(es, n)
    ensures forall u :: u in BuildUrlMap(es, n).groups ==> BuildUrlMap(es, n).groups[u] == ItemsWith(es, u, n)
  {
    if n > 0 {
      BuildUrlMapSpec(es, n - 1);
      FirstSeenSpec(es, n - 1);
      var m := BuildUrlMap(es, n);
      forall u | u in m.groups
        ensures m.groups[u] == ItemsWith(es, u, n)
      {
        if u != es[n - 1].url {
          assert ItemsWith(es, u, n) == ItemsWith(es, u, n - 1);
        } else if u !in BuildUrlMap(es, n - 1).groups {
          assert u !in FirstSeen(es, n - 1);
          ItemsWithAbsent(es, u, n - 1);
        }
      }
    }
  }

  lemma {:induction false} ItemsWithAbsent(es: seq<Entry>, u: string, n: nat)
    requires n <= |es|
    requires forall i :: 0 <= i < n ==> es[i].url != u
    ensures ItemsWith(es, u, n) == []
  {
    if n > 0 {
      ItemsWithAbsent(es, u, n - 1);
    }
  }

  /** Every element with a URL lands in exactly the list of its URL. */
  lemma {:induction false} ItemsWithSpec(es: seq<Entry>, u: string, n: nat)
    requires n <= |es|
    ensures forall it :: it in ItemsWith(es, u, n) <==> exists i :: 0 <= i < n && es[i] == Entry(u, it)
  {
    if n > 0 {
      ItemsWithSpec(es, u, n - 1);
    }
  }

  function UrlMapOf(es: seq<Entry>): UrlMap {
    BuildUrlMap(es, |es|)
  }

  // ---------------------------------------------------------------------
  // Cache split
  // ---------------------------------------------------------------------

  /** `resultsMap` as filled from the cache, and `urlsToCheck`. */
  datatype Split = Split(cached: map<string, CheckResult>, toCheck: seq<string>)

  /** `xs` is `ys` with some elements left out, order kept. */
  predicate IsSubsequence(xs: seq<string>, ys: seq<string>) {
    if |xs| == 0 then true
    else if |ys| == 0 then false
    else if xs[0] == ys[0] then IsSubsequence(xs[1..], ys[1..])
    else IsSubsequence(xs, ys[1..])
  }

  /** The loop of lines 429-437 over `allUrls`, reading the entries the cache
      returned for the keys `url_<url>`. */
  function SplitCached(urls: seq<string>, store: map<string, CheckResult>): Split {
    if |urls| == 0 then Split(map[], [])
    else
      var u := urls[0];
      var rest := SplitCached(urls[1..], store);
      if CacheKey(u) in store then Split(rest.cached[u := store[CacheKey(u)]], rest.toCheck)
      else Split(rest.cached, [u] + rest.toCheck)
  }

  /** A URL goes to the results when the cache has an entry for it, with that
      entry, and to the URLs to check otherwise; the URLs to check keep the
      page's order. */
  lemma {:induction false} SplitCachedSpec(urls: seq<string>, store: map<string, CheckResult>)
    ensures forall u :: u in SplitCached(urls, store).cached <==> u in urls && CacheKey(u) in store
    ensures forall u :: u in SplitCached(urls, store).cached ==> SplitCached(urls, store).cached[u] == store[CacheKey(u)]
    ensures forall u :: u in SplitCached(urls, store).toCheck <==> u in urls && CacheKey(u) !in store
    ensures IsSubsequence(SplitCached(urls, store).toCheck, urls)
  {
    if |urls| > 0 {
      SplitCachedSpec(urls[1..], store);
      assert forall v :: v in urls <==> v == urls[0] || v in urls[1..];
      var rest := SplitCached(urls[1..], store);
      if CacheKey(urls[0]) !in store {
        assert ([urls[0]] + rest.toCheck)[1..] == rest.toCheck;
      }
    }
  }

  lemma {:induction false} SubsequenceDistinct(xs: seq<string>, ys: seq<string>)
    requires IsSubsequence(xs, ys) && Distinct(ys)
    ensures Distinct(xs)
  {
    if |xs| > 0 && |ys| > 0 {
      if xs[0] == ys[0] {
        SubsequenceDistinct(xs[1..], ys[1..]);
        SubsequenceMembers(xs[1..], ys[1..]);
        assert forall k :: 0 < k < |xs| ==> xs[k] in ys[1..] by {
          forall k | 0 < k < |xs| ensures xs[k] in ys[1..] {
            assert xs[k] == xs[1..][k - 1];
          }
        }
        forall k | 0 < k < |xs| ensures xs[0] != xs[k] {
          var m :| 0 <= m < |ys[1..]| && ys[1..][m] == xs[k];
          assert ys[m + 1] == xs[k];
        }
      } else {
        SubsequenceDistinct(xs, ys[1..]);
      }
    }
  }

  lemma {:induction false} SubsequenceMembers(xs: seq<string>, ys: seq<string>)
    requires IsSubsequence(xs, ys)
    ensures forall v :: v in xs ==> v in ys
  {
    if |xs| > 0 && |ys| > 0 {
      assert forall v :: v in ys[1..] ==> v in ys;
      if xs[0] == ys[0] {
        SubsequenceMembers(xs[1..], ys[1..]);
        assert forall v :: v in xs ==> v == xs[0] || v in xs[1..];
      } else {
        SubsequenceMembers(xs, ys[1..]);
      }
    }
  }

  /** Cached and unchecked URLs partition the page's URLs, and the unchecked
      ones are distinct when the page's URLs are. */
  lemma SplitPartition(urls: seq<string>, store: map<string, CheckResult>)
    requires Distinct(urls)
    ensures forall u :: u in SplitCached(urls, store).cached ==> u !in SplitCached(urls, store).toCheck
    ensures forall u :: u in urls <==> u in SplitCached(urls, store).cached || u in SplitCached(urls, store).toCheck
    ensures Distinct(SplitCached(urls, store).toCheck)
  {
    SplitCachedSpec(urls, store);
    SubsequenceDistinct(SplitCached(urls, store).toCheck, urls);
  }

  // ---------------------------------------------------------------------
  // Batching
  // ---------------------------------------------------------------------

  const BatchSize: nat := 100

  function Concat(bs: seq<seq<string>>): seq<string> {
    if |bs| == 0 then [] else Concat(bs[..|bs| - 1]) + bs[|bs| - 1]
  }

  /** The loop of lines 448-453: slices of 100 starting at 0, 100, 200, ...
      The batches spell the input in order, none is empty, all but the last
      are full, and there are ceil(n / 100) of them. */
  method MakeBatches(urls: seq<string>) returns (batches: seq<seq<string>>)
    ensures Concat(batches) == urls
    ensures forall j :: 0 <= j < |batches| ==> 0 < |batches[j]| <= BatchSize
    ensures forall j :: 0 <= j < |batches| - 1 ==> |batches[j]| == BatchSize
    ensures |batches| == (|urls| + BatchSize - 1) / BatchSize
  {
    batches := [];
    var i := 0;
    while i < |urls|
      invariant i == BatchSize * |batches|
      invariant Concat(batches) == urls[..Min(i, |urls|)]
      invariant forall j :: 0 <= j < |batches| ==> 0 < |batches[j]| <= BatchSize
      invariant forall j :: 0 <= j < |batches| - 1 ==> |batches[j]| == BatchSize
      invariant i < |urls| ==> forall j :: 0 <= j < |batches| ==> |batches[j]| == BatchSize
      invariant |batches| > 0 ==> BatchSize * (|batches| - 1) < |urls|
      decreases |urls| - i
    {
      var chunk := urls[i..Min(i + BatchSize, |urls|)];
      BatchStep(urls, batches, i);
      batches := batches + [chunk];
      i := i + BatchSize;
    }
    CeilBatches(|urls|, |batches|);
  }

  /** One round of the loop: the next slice of at most 100 extends what the
      batches spell, and every batch before it is full. */
  lemma BatchStep(urls: seq<string>, batches: seq<seq<string>>, i: nat)
    requires i < |urls| && i == BatchSize * |batches|
    requires Concat(batches) == urls[..i]
    requires forall j :: 0 <= j < |batches| ==> |batches[j]| == BatchSize
    ensures var bs := batches + [urls[i..Min(i + BatchSize, |urls|)]];
            Concat(bs) == urls[..Min(i + BatchSize, |urls|)]
            && (forall j :: 0 <= j < |bs| ==> 0 < |bs[j]| <= BatchSize)
            && (forall j :: 0 <= j < |bs| - 1 ==> |bs[j]| == BatchSize)
  {
    var chunk := urls[i..Min(i + BatchSize, |urls|)];
    var bs := batches + [chunk];
    assert bs[..|bs| - 1] == batches;
    assert urls[..Min(i + BatchSize, |urls|)] == urls[..i] + chunk;
  }

  /** `k` chunks of 100 hold `n` items with none left empty exactly when `k`
      is the rounded-up quotient. */
  lemma CeilBatches(n: nat, k: nat)
    requires BatchSize * k >= n && (k > 0 ==> BatchSize * (k - 1) < n)
    ensures k == (n + BatchSize - 1) / BatchSize
  {
  }

  // ---------------------------------------------------------------------
  // Batch replies and the merge
  // ---------------------------------------------------------------------

  /** The background's reply to one batch as the content script sees it: the
      `results` array when the reply has one, `None` for an empty reply or
      one without results. */
  type BatchReply = Delivery<Option<seq<CheckResult>>>

  /** The results of the first `n` replies keyed by their `url`. */
  function ResultsToMap(rs: seq<CheckResult>, n: nat): (m: map<string, CheckResult>)
    requires n <= |rs|
  {
    if n == 0 then map[] else ResultsToMap(rs, n - 1)[rs[n - 1].url := rs[n - 1]]
  }

  /** The map holds exactly the URLs of the results. */
  lemma {:induction false} ResultsToMapKeys(rs: seq<CheckResult>, n: nat)
    requires n <= |rs|
    ensures forall u :: u in ResultsToMap(rs, n) <==> exists i :: 0 <= i < n && rs[i].url == u
  {
    if n > 0 {
      ResultsToMapKeys(rs, n - 1);
      forall u ensures u in ResultsToMap(rs, n) <==> exists i :: 0 <= i < n && rs[i].url == u {
        ResultsToMapKeyStep(rs, n, u);
      }
    }
  }

  lemma ResultsToMapKeyStep(rs: seq<CheckResult>, n: nat, u: string)
    requires 0 < n <= |rs|
    requires u in ResultsToMap(rs, n - 1) <==> exists i :: 0 <= i < n - 1 && rs[i].url == u
    ensures u in ResultsToMap(rs, n) <==> exists i :: 0 <= i < n && rs[i].url == u
  {
    if u == rs[n - 1].url {
      assert u in ResultsToMap(rs, n);
    } else if u in ResultsToMap(rs, n) {
      assert u in ResultsToMap(rs, n - 1);
    }
  }

  /** A result no later result shares its URL with is the one the map keeps
      for that URL: the last result for a URL wins. */
  lemma {:induction false} ResultsToMapLast(rs: seq<CheckResult>, n: nat, i: nat)
    requires i < n <= |rs|
    requires forall j :: i < j < n ==> rs[j].url != rs[i].url
    ensures rs[i].url in ResultsToMap(rs, n) && ResultsToMap(rs, n)[rs[i].url] == rs[i]
  {
    if i < n - 1 {
      ResultsToMapLast(rs, n - 1, i);
      assert rs[n - 1].url != rs[i].url;
    }
  }

  /** `batchCheckUrls` (lines 175-202): the reply's results by URL, and an
      empty map when the send threw, nothing came back, or the reply has no
      results. */
  function BatchCheckUrls(reply: BatchReply): (m: map<string, CheckResult>)
    ensures !(reply.Response? && reply.value.Some?) ==> m == map[]
    ensures reply.Response? && reply.value.Some? ==>
              forall u :: u in m <==> exists i :: 0 <= i < |reply.value.value| && reply.value.value[i].url == u
  {
    match reply
    case Response(Some(rs)) =>
      ResultsToMapKeys(rs, |rs|);
      ResultsToMap(rs, |rs|)
    case _ => map[]
  }

  /** The cache entries one batch produces: `url_<url>` for each result. */
  function CacheEntries(bm: map<string, CheckResult>): map<string, CheckResult> {
    CacheKeysDistinct();
    map u | u in bm :: CacheKey(u) := bm[u]
  }

  /** Each result lands under its own URL's key, and nothing else is there. */
  lemma CacheEntriesSpec(bm: map<string, CheckResult>)
    ensures forall u :: CacheKey(u) in CacheEntries(bm) <==> u in bm
    ensures forall u :: u in bm ==> CacheEntries(bm)[CacheKey(u)] == bm[u]
    ensures forall k :: k in CacheEntries(bm) ==> exists u :: u in bm && k == CacheKey(u)
  {
    CacheKeysDistinct();
  }

  /** `resultsMap` after the merge loop of lines 464-474 has run over the
      first `n` batch maps, starting from the cached results. */
  function MergeResults(cached: map<string, CheckResult>, bms: seq<map<string, CheckResult>>, n: nat): map<string, CheckResult>
    requires n <= |bms|
  {
    if n == 0 then cached else MergeResults(cached, bms, n - 1) + bms[n - 1]
  }

  /** `cacheUpdates` after the same loop: each batch result is written
      under its cache key, so the record is the cache entries of what the
      batches alone returned. */
  function MergeUpdates(bms: seq<map<string, CheckResult>>, n: nat): map<string, CheckResult>
    requires n <= |bms|
  {
    CacheEntries(MergeResults(map[], bms, n))
  }

  /** The merged results hold the cached URLs and every URL some batch
      returned, and nothing else. */
  lemma {:induction false} MergeResultsKeys(cached: map<string, CheckResult>, bms: seq<map<string, CheckResult>>, n: nat)
    requires n <= |bms|
    ensures forall u :: u in MergeResults(cached, bms, n) <==> u in cached || exists j :: 0 <= j < n && u in bms[j]
  {
    if n > 0 {
      MergeResultsKeys(cached, bms, n - 1);
    }
  }

  /** The cache updates hold `url_<url>` exactly for the URLs the batches
      returned, and no other key. */
  lemma MergeUpdatesKeys(bms: seq<map<string, CheckResult>>, n: nat)
    requires n <= |bms|
    ensures forall u :: CacheKey(u) in MergeUpdates(bms, n) <==> exists j :: 0 <= j < n && u in bms[j]
    ensures forall k :: k in MergeUpdates(bms, n) ==> exists u :: k == CacheKey(u)
  {
    MergeResultsKeys(map[], bms, n);
    CacheEntriesSpec(MergeResults(map[], bms, n));
  }

  /** The value merged for a URL is the one from the last batch that has it,
      and its cache update holds the same value. */
  lemma MergeLastWins(cached: map<string, CheckResult>, bms: seq<map<string, CheckResult>>, n: nat, u: string, j: nat)
    requires j < n <= |bms| && u in bms[j]
    requires forall k :: j < k < n ==> u !in bms[k]
    ensures u in MergeResults(cached, bms, n) && MergeResults(cached, bms, n)[u] == bms[j][u]
    ensures CacheKey(u) in MergeUpdates(bms, n) && MergeUpdates(bms, n)[CacheKey(u)] == bms[j][u]
  {
    MergeResultLastWins(cached, bms, n, u, j);
    MergeResultLastWins(map[], bms, n, u, j);
    CacheEntriesSpec(MergeResults(map[], bms, n));
  }

  lemma {:induction false} MergeResultLastWins(cached: map<string, CheckResult>, bms: seq<map<string, CheckResult>>, n: nat, u: string, j: nat)
    requires j < n <= |bms| && u in bms[j]
    requires forall k :: j < k < n ==> u !in bms[k]
    ensures u in MergeResults(cached, bms, n) && MergeResults(cached, bms, n)[u] == bms[j][u]
  {
    if j < n - 1 {
      MergeResultLastWins(cached, bms, n - 1, u, j);
      assert u !in bms[n - 1];
    }
  }

  /** A URL no batch returned keeps its cached result. */
  lemma {:induction false} MergeKeepsCached(cached: map<string, CheckResult>, bms: seq<map<string, CheckResult>>, n: nat, u: string)
    requires n <= |bms| && u in cached
    requires forall k :: 0 <= k < n ==> u !in bms[k]
    ensures u in MergeResults(cached, bms, n) && MergeResults(cached, bms, n)[u] == cached[u]
  {
    if n > 0 {
      MergeKeepsCached(cached, bms, n - 1, u);
    }
  }

  // ---------------------------------------------------------------------
  // Highlighting
  // ---------------------------------------------------------------------

  /** What `highlightLink` and `highlightTextUrl` leave on an element: the
      earlier highlight cleared and nothing added, the orange style, or the
      red style. */
  datatype Style = Cleared | Orange | Red

  function VerdictStyle(verdict: string): (s: Style)
  {
    if verdict == "safe" then Cleared
    else if verdict == "suspicious" then Orange
    else Red
  }

  /** Only a `safe` verdict is left unmarked, only `suspicious` is orange,
      and every other verdict string, known or not, is red. */
  lemma VerdictStyleCases(verdict: string)
    ensures VerdictStyle(verdict) == Cleared <==> verdict == "safe"
    ensures VerdictStyle(verdict) == Orange <==> verdict == "suspicious"
    ensures VerdictStyle(verdict) == Red <==> verdict != "safe" && verdict != "suspicious"
  {
  }

  /** A highlight applied to one element for one URL. */
  datatype Highlight = Highlight(item: Item, url: string, style: Style)

  function HighlightItems(items: seq<Item>, u: string, s: Style): (hs: seq<Highlight>)
    ensures |hs| == |items|
    ensures forall i :: 0 <= i < |items| ==> hs[i] == Highlight(items[i], u, s)
  {
    if |items| == 0 then [] else [Highlight(items[0], u, s)] + HighlightItems(items[1..], u, s)
  }

  /** The loop of lines 494-505 over the map's keys: each element of a URL
      that has a result gets the style of that result's verdict; the elements
      of URLs without a result are not touched. */
  function HighlightPlan(keys: seq<string>, groups: map<string, seq<Item>>, results: map<string, CheckResult>): seq<Highlight> {
    if |keys| == 0 then []
    else
      var u := keys[0];
      var here := if u in results && u in groups then HighlightItems(groups[u], u, VerdictStyle(results[u].finalVerdict)) else [];
      here + HighlightPlan(keys[1..], groups, results)
  }

  /** Every highlight is for an element in the list of a URL that has a
      result, in the style of that result's verdict; and every element of
      such a URL gets one. */
  lemma {:induction false} HighlightPlanSpec(keys: seq<string>, groups: map<string, seq<Item>>, results: map<string, CheckResult>)
    ensures forall h :: h in HighlightPlan(keys, groups, results) ==>
              h.url in keys && h.url in results && h.url in groups && h.item in groups[h.url]
              && h.style == VerdictStyle(results[h.url].finalVerdict)
    ensures forall u, it :: u in keys && u in results && u in groups && it in groups[u] ==>
              Highlight(it, u, VerdictStyle(results[u].finalVerdict)) in HighlightPlan(keys, groups, results)
  {
    if |keys| > 0 {
      var u := keys[0];
      HighlightPlanSpec(keys[1..], groups, results);
      var here := if u in results && u in groups then HighlightItems(groups[u], u, VerdictStyle(results[u].finalVerdict)) else [];
      assert HighlightPlan(keys, groups, results) == here + HighlightPlan(keys[1..], groups, results);
      assert forall v :: v in keys <==> v == u || v in keys[1..];
      assert forall it :: u in results && u in groups && it in groups[u] ==> Highlight(it, u, VerdictStyle(results[u].finalVerdict)) in here;
    }
  }

  // ---------------------------------------------------------------------
  // The whole pass
  // ---------------------------------------------------------------------

  /** The cache after the pass writes the background's answers. */
  function StoreAfter(store: map<string, CheckResult>, batches: seq<seq<string>>, reply: seq<string> -> BatchReply): map<string, CheckResult> {
    store + MergeUpdates(Replies(batches, reply), |batches|)
  }

  /** The cache after the pass writes its updates: every earlier key stays,
      only `url_` keys are added or overwritten. */
  lemma StoreAfterUpdates(store: map<string, CheckResult>, batches: seq<seq<string>>, reply: seq<string> -> BatchReply)
    ensures forall k :: k in store ==> k in StoreAfter(store, batches, reply)
    ensures forall k :: k in store && !StartsWith(k, Prefix) ==> StoreAfter(store, batches, reply)[k] == store[k]
    ensures forall k :: k in StoreAfter(store, batches, reply) && k !in store ==> StartsWith(k, Prefix)
  {
    var bms := Replies(batches, reply);
    MergeUpdatesKeys(bms, |bms|);
    forall k | k in MergeUpdates(bms, |bms|) ensures StartsWith(k, Prefix) {
      var u :| k == CacheKey(u);
      CacheKeyShape(u);
    }
  }

  /** `checkAndHighlightLinks` from the URL map on: `store` is the
      extension's local storage and `reply` the background's answer to each
      batch. Returns the highlights applied, the storage afterwards and the
      batches sent. */
  method CheckMappedUrls(m: UrlMap, store: map<string, CheckResult>, reply: seq<string> -> BatchReply)
    returns (plan: seq<Highlight>, newStore: map<string, CheckResult>, batches: seq<seq<string>>)
    ensures |m.keys| == 0 ==> plan == [] && newStore == store && batches == []
    ensures Concat(batches) == SplitCached(m.keys, store).toCheck
    ensures forall j :: 0 <= j < |batches| ==> 0 < |batches[j]| <= BatchSize
    ensures forall j, u :: 0 <= j < |batches| && u in batches[j] ==> CacheKey(u) !in store && u in m.keys
    ensures forall k :: k in store ==> k in newStore
    ensures forall k :: k in store && !StartsWith(k, Prefix) ==> newStore[k] == store[k]
    ensures forall k :: k in newStore && k !in store ==> StartsWith(k, Prefix)
    ensures forall h :: h in plan ==> h.url in m.keys && h.url in m.groups && h.item in m.groups[h.url]
    ensures plan == Highlights(m, store, batches, reply)
    ensures forall h :: h in plan && CacheKey(h.url) in store && Unanswered(h.url, batches, reply) ==>
              h.style == VerdictStyle(store[CacheKey(h.url)].finalVerdict)
    ensures forall u, it ::
              u in m.keys && u in m.groups && it in m.groups[u] && CacheKey(u) in store && Unanswered(u, batches, reply) ==>
              Highlight(it, u, VerdictStyle(store[CacheKey(u)].finalVerdict)) in plan
  {
    if |m.keys| == 0 {
      return [], store, [];
    }
    batches := MakeBatches(SplitCached(m.keys, store).toCheck);
    newStore := StoreAfter(store, batches, reply);
    plan := Highlights(m, store, batches, reply);
    BatchesUnCached(m.keys, store, batches);
    StoreAfterUpdates(store, batches, reply);
    PlanFromMap(m, store, batches, reply);
    CachedHighlights(m, store, batches, reply);
  }

  /** The highlights the pass applies once the batches are answered: each
      URL's elements in the style of its merged result. */
  function Highlights(m: UrlMap, store: map<string, CheckResult>, batches: seq<seq<string>>, reply: seq<string> -> BatchReply): seq<Highlight> {
    HighlightPlan(m.keys, m.groups, MergeResults(SplitCached(m.keys, store).cached, Replies(batches, reply), |batches|))
  }

  /** Every URL the cache answered and no batch did is highlighted, on each
      of its elements, in the style of the cached verdict, and no other
      style is applied to it. */
  lemma CachedHighlights(m: UrlMap, store: map<string, CheckResult>, batches: seq<seq<string>>, reply: seq<string> -> BatchReply)
    ensures forall h :: h in Highlights(m, store, batches, reply) && CacheKey(h.url) in store && Unanswered(h.url, batches, reply) ==>
              h.style == VerdictStyle(store[CacheKey(h.url)].finalVerdict)
    ensures forall u, it ::
              u in m.keys && u in m.groups && it in m.groups[u] && CacheKey(u) in store && Unanswered(u, batches, reply) ==>
              Highlight(it, u, VerdictStyle(store[CacheKey(u)].finalVerdict)) in Highlights(m, store, batches, reply)
  {
    forall h | h in Highlights(m, store, batches, reply) && CacheKey(h.url) in store && Unanswered(h.url, batches, reply)
      ensures h.style == VerdictStyle(store[CacheKey(h.url)].finalVerdict)
    {
      PlanStyleFromCache(m, store, batches, reply, h);
    }
    forall u, it | u in m.keys && u in m.groups && it in m.groups[u] && CacheKey(u) in store && Unanswered(u, batches, reply)
      ensures Highlight(it, u, VerdictStyle(store[CacheKey(u)].finalVerdict)) in Highlights(m, store, batches, reply)
    {
      PlanCoversCached(m, store, batches, reply, u, it);
    }
  }

  /** The background's answer to each batch, by URL. */
  function Replies(batches: seq<seq<string>>, reply: seq<string> -> BatchReply): (bms: seq<map<string, CheckResult>>)
    ensures |bms| == |batches|
  {
    if |batches| == 0 then []
    else Replies(batches[..|batches| - 1], reply) + [BatchCheckUrls(reply(batches[|batches| - 1]))]
  }

  lemma {:induction false} RepliesAt(batches: seq<seq<string>>, reply: seq<string> -> BatchReply, j: nat)
    requires j < |batches|
    ensures Replies(batches, reply)[j] == BatchCheckUrls(reply(batches[j]))
  {
    var init := batches[..|batches| - 1];
    if j < |batches| - 1 {
      RepliesAt(init, reply, j);
      assert init[j] == batches[j];
    }
  }

  /** No batch's reply carries a result for `u`. */
  predicate Unanswered(u: string, batches: seq<seq<string>>, reply: seq<string> -> BatchReply) {
    forall j :: 0 <= j < |batches| ==> u !in BatchCheckUrls(reply(batches[j]))
  }

  /** Every highlight is for an element the URL map lists under its URL. */
  lemma PlanFromMap(m: UrlMap, store: map<string, CheckResult>, batches: seq<seq<string>>, reply: seq<string> -> BatchReply)
    ensures forall h :: h in Highlights(m, store, batches, reply) ==>
              h.url in m.keys && h.url in m.groups && h.item in m.groups[h.url]
  {
    HighlightPlanSpec(m.keys, m.groups, MergeResults(SplitCached(m.keys, store).cached, Replies(batches, reply), |batches|));
  }

  /** A URL the cache answered and no batch did keeps the cached verdict. */
  lemma CachedResult(m: UrlMap, store: map<string, CheckResult>, batches: seq<seq<string>>, reply: seq<string> -> BatchReply, u: string)
    requires u in m.keys && CacheKey(u) in store && Unanswered(u, batches, reply)
    ensures u in MergeResults(SplitCached(m.keys, store).cached, Replies(batches, reply), |batches|)
    ensures MergeResults(SplitCached(m.keys, store).cached, Replies(batches, reply), |batches|)[u] == store[CacheKey(u)]
  {
    SplitCachedSpec(m.keys, store);
    var bms := Replies(batches, reply);
    forall j | 0 <= j < |bms| ensures u !in bms[j] {
      RepliesAt(batches, reply, j);
    }
    MergeKeepsCached(SplitCached(m.keys, store).cached, bms, |bms|, u);
  }

  /** A highlight for a cached URL that no batch answered is styled by the
      cached verdict. */
  lemma PlanStyleFromCache(m: UrlMap, store: map<string, CheckResult>, batches: seq<seq<string>>, reply: seq<string> -> BatchReply, h: Highlight)
    requires h in HighlightPlan(m.keys, m.groups, MergeResults(SplitCached(m.keys, store).cached, Replies(batches, reply), |batches|))
    requires CacheKey(h.url) in store && Unanswered(h.url, batches, reply)
    ensures h.style == VerdictStyle(store[CacheKey(h.url)].finalVerdict)
  {
    var results := MergeResults(SplitCached(m.keys, store).cached, Replies(batches, reply), |batches|);
    HighlightPlanSpec(m.keys, m.groups, results);
    CachedResult(m, store, batches, reply, h.url);
  }

  /** Every element of a cached URL that no batch answered gets the cached
      verdict's style. */
  lemma PlanCoversCached(m: UrlMap, store: map<string, CheckResult>, batches: seq<seq<string>>, reply: seq<string> -> BatchReply, u: string, it: Item)
    requires u in m.keys && u in m.groups && it in m.groups[u] && CacheKey(u) in store && Unanswered(u, batches, reply)
    ensures Highlight(it, u, VerdictStyle(store[CacheKey(u)].finalVerdict))
            in HighlightPlan(m.keys, m.groups, MergeResults(SplitCached(m.keys, store).cached, Replies(batches, reply), |batches|))
  {
    var results := MergeResults(SplitCached(m.keys, store).cached, Replies(batches, reply), |batches|);
    HighlightPlanSpec(m.keys, m.groups, results);
    CachedResult(m, store, batches, reply, u);
  }

  /** No URL with a cache entry is sent again. */
  lemma BatchesUnCached(urls: seq<string>, store: map<string, CheckResult>, batches: seq<seq<string>>)
    requires Concat(batches) == SplitCached(urls, store).toCheck
    ensures forall j, u :: 0 <= j < |batches| && u in batches[j] ==> CacheKey(u) !in store && u in urls
  {
    SplitCachedSpec(urls, store);
    forall j, u | 0 <= j < |batches| && u in batches[j] ensures CacheKey(u) !in store && u in urls {
      ConcatMember(batches, j, u);
    }
  }

  /** Every element in the URL map's lists came from an entry of the page. */
  lemma GroupsFromEntries(es: seq<Entry>, u: string, it: Item)
    requires u in UrlMapOf(es).groups && it in UrlMapOf(es).groups[u]
    ensures exists i :: 0 <= i < |es| && es[i] == Entry(u, it)
  {
    BuildUrlMapSpec(es, |es|);
    ItemsWithSpec(es, u, |es|);
  }

  /** Every key of the URL map is the URL of some entry. */
  lemma KeysFromEntries(es: seq<Entry>, u: string)
    requires u in UrlMapOf(es).keys
    ensures exists i :: 0 <= i < |es| && es[i].url == u
  {
    BuildUrlMapSpec(es, |es|);
    FirstSeenSpec(es, |es|);
  }

  /** Every URL sent in a batch was not cached and is the URL of one of the
      entries `es`. */
  predicate SentFromEntries(batches: seq<seq<string>>, store: map<string, CheckResult>, es: seq<Entry>) {
    forall j, u :: 0 <= j < |batches| && u in batches[j] ==>
      CacheKey(u) !in store && exists i :: 0 <= i < |es| && es[i].url == u
  }

  /** Every highlight is for an element that one of the entries `es` pairs
      with the highlighted URL. */
  predicate PlannedFromEntries(plan: seq<Highlight>, es: seq<Entry>) {
    forall h :: h in plan ==> exists i :: 0 <= i < |es| && es[i] == Entry(h.url, h.item)
  }

  /** The pass from the collected entries on: nothing happens on a page
      without URLs, only uncached page URLs are sent, every highlight is for
      an element that carries its URL, and storage keys outside the cache
      keep their values. */
  method CheckEntries(es: seq<Entry>, store: map<string, CheckResult>, reply: seq<string> -> BatchReply)
    returns (plan: seq<Highlight>, newStore: map<string, CheckResult>, batches: seq<seq<string>>)
    ensures es == [] ==> plan == [] && newStore == store && batches == []
    ensures SentFromEntries(batches, store, es)
    ensures PlannedFromEntries(plan, es)
    ensures forall k :: k in store && !StartsWith(k, Prefix) ==> k in newStore && newStore[k] == store[k]
  {
    var m := UrlMapOf(es);
    plan, newStore, batches := CheckMappedUrls(m, store, reply);
    forall j, u | 0 <= j < |batches| && u in batches[j]
      ensures exists i :: 0 <= i < |es| && es[i].url == u
    {
      KeysFromEntries(es, u);
    }
    forall h | h in plan
      ensures exists i :: 0 <= i < |es| && es[i] == Entry(h.url, h.item)
    {
      GroupsFromEntries(es, h.url, h.item);
    }
  }

  /** The whole pass, from the page's anchors (`hrefs`) and highlight spans
      (`dataUrls`). */
  method CheckAndHighlightLinks(hrefs: seq<string>, dataUrls: seq<string>,
                                stripHash: string -> Option<string>, parse: string -> Option<string>,
                                store: map<string, CheckResult>, reply: seq<string> -> BatchReply)
    returns (plan: seq<Highlight>, newStore: map<string, CheckResult>, batches: seq<seq<string>>)
    ensures var es := PageEntries(hrefs, dataUrls, stripHash, parse);
            es == [] ==> plan == [] && newStore == store && batches == []
    ensures SentFromEntries(batches, store, PageEntries(hrefs, dataUrls, stripHash, parse))
    ensures PlannedFromEntries(plan, PageEntries(hrefs, dataUrls, stripHash, parse))
    ensures forall k :: k in store && !StartsWith(k, Prefix) ==> k in newStore && newStore[k] == store[k]
  {
    var es := PageEntries(hrefs, dataUrls, stripHash, parse);
    plan, newStore, batches := CheckEntries(es, store, reply);
  }

  /** A URL of one batch is one of the URLs the batches spell. */
  lemma {:induction false} ConcatMember(bs: seq<seq<string>>, j: nat, u: string)
    requires j < |bs| && u in bs[j]
    ensures u in Concat(bs)
  {
    if j < |bs| - 1 {
      ConcatMember(bs[..|bs| - 1], j, u);
    }
  }
}
