/** Finding URLs in page text (content.ts): the `URL_REGEX` pattern
    `/https?:\/\/[^\s<>"{}|\\^`\[\]]+/gi` written out as a scanner, the
    split of a text node into plain-text and URL pieces, and the guard of
    `findAndWrapTextUrls`. */
module TextUrls {
  import opened JsText
  import opened Wrappers

  // ---------------------------------------------------------------------
  // The pattern
  // ---------------------------------------------------------------------

  /** A character the pattern's `[^\s<>"{}|\\^`\[\]]` class admits. */
  predicate IsUrlChar(c: char) {
    !IsJsWhitespace(c)
    && c != '<' && c != '>' && c != '"' && c != '{' && c != '}' && c != '|'
    && c != '\\' && c != '^' && c != '`' && c != '[' && c != ']'
  }

  /** Case-insensitive `http` at position `p` (the `i` flag). */
  predicate HttpAt(text: string, p: nat) {
    p + 4 <= |text|
    && AsciiLower(text[p]) == 'h' && AsciiLower(text[p + 1]) == 't'
    && AsciiLower(text[p + 2]) == 't' && AsciiLower(text[p + 3]) == 'p'
  }

  predicate SeparatorAt(text: string, p: nat) {
    p + 3 <= |text| && text[p] == ':' && text[p + 1] == '/' && text[p + 2] == '/'
  }

  /** Length of the `https?://` prefix at `p`: 7, 8, or 0 when there is none. */
  function SchemeAt(text: string, p: nat): (n: nat)
    requires p <= |text|
    ensures n == 0 || n == 7 || n == 8
    ensures p + n <= |text|
  {
    if HttpAt(text, p) && SeparatorAt(text, p + 4) then 7
    else if HttpAt(text, p) && p + 4 < |text| && AsciiLower(text[p + 4]) == 's' && SeparatorAt(text, p + 5) then 8
    else 0
  }

  /** Length of the run of URL characters starting at `q` (the greedy `+`). */
  function UrlRun(text: string, q: nat): (n: nat)
    requires q <= |text|
    ensures q + n <= |text|
    decreases |text| - q
  {
    if q == |text| || !IsUrlChar(text[q]) then 0 else 1 + UrlRun(text, q + 1)
  }

  /** The run is all URL characters and stops at the first other one. */
  lemma {:induction false} UrlRunSpec(text: string, q: nat)
    requires q <= |text|
    ensures forall i :: q <= i < q + UrlRun(text, q) ==> IsUrlChar(text[i])
    ensures q + UrlRun(text, q) < |text| ==> !IsUrlChar(text[q + UrlRun(text, q)])
    decreases |text| - q
  {
    if q < |text| && IsUrlChar(text[q]) {
      UrlRunSpec(text, q + 1);
    }
  }

  /** A whole string the pattern matches: the scheme, then one or more URL
      characters. */
  predicate IsUrlMatch(u: string) {
    SchemeAt(u, 0) > 0 && |u| > SchemeAt(u, 0)
    && forall i :: SchemeAt(u, 0) <= i < |u| ==> IsUrlChar(u[i])
  }

  /** Length of the match starting exactly at `p`, or 0 when the pattern does
      not match there. */
  function MatchLength(text: string, p: nat): (n: nat)
    requires p <= |text|
    ensures p + n <= |text|
  {
    var s := SchemeAt(text, p);
    if s == 0 then 0
    else
      var b := UrlRun(text, p + s);
      if b == 0 then 0 else s + b
  }

  /** The scheme test only looks at the characters it covers, so it gives
      the same answer on any slice that still holds them. */
  lemma SchemeAtSlice(text: string, a: nat, b: nat, q: nat)
    requires a <= b <= |text| && a + q <= b
    ensures SchemeAt(text[a..b], q) > 0 ==> SchemeAt(text, a + q) == SchemeAt(text[a..b], q)
    ensures a + q + SchemeAt(text, a + q) <= b ==> SchemeAt(text[a..b], q) == SchemeAt(text, a + q)
  {
  }

  lemma {:induction false} UrlRunSlice(text: string, a: nat, b: nat, q: nat)
    requires a <= b <= |text| && a + q <= b
    ensures UrlRun(text[a..b], q) <= UrlRun(text, a + q)
    ensures b == |text| || !IsUrlChar(text[b]) ==> UrlRun(text[a..b], q) == UrlRun(text, a + q)
    decreases b - a - q
  {
    if a + q < b && IsUrlChar(text[a + q]) {
      UrlRunSlice(text, a, b, q + 1);
    }
  }

  /** Every match is a string the pattern matches, and it is maximal: the
      next character, if any, is not a URL character. */
  lemma MatchLengthSound(text: string, p: nat)
    requires p <= |text|
    ensures MatchLength(text, p) > 0 ==> IsUrlMatch(text[p..p + MatchLength(text, p)])
    ensures MatchLength(text, p) > 0 && p + MatchLength(text, p) < |text| ==> !IsUrlChar(text[p + MatchLength(text, p)])
  {
    var n := MatchLength(text, p);
    if n > 0 {
      var u := text[p..p + n];
      UrlRunSpec(text, p + SchemeAt(text, p));
      SchemeAtSlice(text, p, p + n, 0);
      assert SchemeAt(u, 0) == SchemeAt(text, p);
      forall i | SchemeAt(u, 0) <= i < |u|
        ensures IsUrlChar(u[i])
      {
        assert u[i] == text[p + i];
      }
    }
  }

  /** The run from `q` covers any stretch of URL characters starting there. */
  lemma {:induction false} RunAtLeast(text: string, q: nat, k: nat)
    requires q + k <= |text|
    requires forall i :: q <= i < q + k ==> IsUrlChar(text[i])
    ensures UrlRun(text, q) >= k
    decreases k
  {
    if k > 0 {
      RunAtLeast(text, q + 1, k - 1);
    }
  }

  /** The matcher misses nothing: wherever the pattern matches a stretch of
      the text, the match found there is at least that long. */
  lemma MatchLengthComplete(text: string, p: nat, n: nat)
    requires p + n <= |text| && IsUrlMatch(text[p..p + n])
    ensures MatchLength(text, p) >= n
  {
    var u := text[p..p + n];
    SchemeAtSlice(text, p, p + n, 0);
    var s := SchemeAt(u, 0);
    forall i | p + s <= i < p + n
      ensures IsUrlChar(text[i])
    {
      assert text[i] == u[i - p];
    }
    RunAtLeast(text, p + s, n - s);
  }

  /** A match inside a slice is a match in the whole text. */
  lemma MatchInSlice(text: string, a: nat, b: nat, q: nat)
    requires a <= b <= |text| && a + q <= b
    ensures MatchLength(text[a..b], q) > 0 ==> MatchLength(text, a + q) > 0
  {
    var s := text[a..b];
    if MatchLength(s, q) > 0 {
      SchemeAtSlice(text, a, b, q);
      var n := SchemeAt(s, q);
      assert IsUrlChar(s[q + n]);
      assert s[q + n] == text[a + q + n];
    }
  }

  // ---------------------------------------------------------------------
  // matchAll
  // ---------------------------------------------------------------------

  /** One element of `text.matchAll(URL_REGEX)`: `match.index` and `match[0]`. */
  datatype Match = Match(index: nat, url: string)

  function MatchEnd(m: Match): nat {
    m.index + |m.url|
  }

  /** The matches lie in order from `last` on, do not overlap, are nonempty,
      and each one is the text at its position. */
  predicate Placed(text: string, ms: seq<Match>, last: nat) {
    if |ms| == 0 then last <= |text|
    else
      last <= ms[0].index && |ms[0].url| > 0 && MatchEnd(ms[0]) <= |text|
      && text[ms[0].index..MatchEnd(ms[0])] == ms[0].url
      && Placed(text, ms[1..], MatchEnd(ms[0]))
  }

  /** A table of match lengths for `text`, one per position, each match
      ending inside the text. */
  predicate Fits(text: string, lens: seq<nat>) {
    |lens| == |text| && forall q :: 0 <= q < |text| ==> q + lens[q] <= |text|
  }

  /** The global scan over a table of match lengths: at each position take
      the match there, if any, and continue after it; otherwise move one
      character on. */
  function Scan(text: string, lens: seq<nat>, p: nat): seq<Match>
    requires Fits(text, lens) && p <= |text|
    decreases |text| - p
  {
    if p == |text| then []
    else if lens[p] > 0 then [Match(p, text[p..p + lens[p]])] + Scan(text, lens, p + lens[p])
    else Scan(text, lens, p + 1)
  }

  /** The length of the pattern's match at every position of `text`. */
  function MatchTable(text: string): (lens: seq<nat>)
    ensures Fits(text, lens)
  {
    seq(|text|, q requires 0 <= q < |text| => MatchLength(text, q))
  }

  lemma MatchTableAt(text: string, q: nat)
    requires q < |text|
    ensures MatchTable(text)[q] == MatchLength(text, q)
  {
  }

  /** `text.matchAll(URL_REGEX)` read from position `p` on. */
  function MatchesFrom(text: string, p: nat): seq<Match>
    requires p <= |text|
  {
    Scan(text, MatchTable(text), p)
  }

  function AllMatches(text: string): seq<Match> {
    MatchesFrom(text, 0)
  }

  function MatchUrls(ms: seq<Match>): (us: seq<string>)
    ensures |us| == |ms|
    ensures forall i :: 0 <= i < |ms| ==> us[i] == ms[i].url
  {
    if |ms| == 0 then [] else [ms[0].url] + MatchUrls(ms[1..])
  }

  // ---------------------------------------------------------------------
  // Segmentation of one text node
  // ---------------------------------------------------------------------

  /** A piece of the fragment that replaces a text node: a new text node, or
      a highlight span carrying a URL. */
  datatype Piece = Plain(text: string) | Link(url: string)

  function PieceText(p: Piece): string {
    match p
    case Plain(t) => t
    case Link(u) => u
  }

  /** The text the pieces display, in order. */
  function Flatten(ps: seq<Piece>): string {
    if |ps| == 0 then [] else PieceText(ps[0]) + Flatten(ps[1..])
  }

  /** The URLs of the span pieces, in order. */
  function LinkUrls(ps: seq<Piece>): seq<string> {
    if |ps| == 0 then []
    else if ps[0].Link? then [ps[0].url] + LinkUrls(ps[1..])
    else LinkUrls(ps[1..])
  }

  /** The loop of lines 279-304: text before each match (when nonempty), a
      span for the match, and whatever text follows the last match. */
  function Assemble(text: string, ms: seq<Match>, last: nat): (ps: seq<Piece>)
    requires Placed(text, ms, last)
    decreases |ms|
  {
    if |ms| == 0 then
      if last < |text| then [Plain(text[last..])] else []
    else
      var m := ms[0];
      (if m.index > last then [Plain(text[last..m.index])] else [])
      + [Link(m.url)] + Assemble(text, ms[1..], MatchEnd(m))
  }

  lemma {:induction false} FlattenAppend(a: seq<Piece>, b: seq<Piece>)
    ensures Flatten(a + b) == Flatten(a) + Flatten(b)
  {
    if |a| == 0 {
      assert a + b == b;
    } else {
      assert (a + b)[0] == a[0];
      assert (a + b)[1..] == a[1..] + b;
      FlattenAppend(a[1..], b);
    }
  }

  lemma {:induction false} LinkUrlsAppend(a: seq<Piece>, b: seq<Piece>)
    ensures LinkUrls(a + b) == LinkUrls(a) + LinkUrls(b)
  {
    if |a| == 0 {
      assert a + b == b;
    } else {
      assert (a + b)[0] == a[0];
      assert (a + b)[1..] == a[1..] + b;
      LinkUrlsAppend(a[1..], b);
    }
  }

  lemma SliceThree<T>(s: seq<T>, a: nat, b: nat, c: nat)
    requires a <= b <= c <= |s|
    ensures s[a..] == s[a..b] + s[b..c] + s[c..]
  {
  }

  /** One step of `Assemble`: the text before the first match, its span,
      and the rest. */
  lemma AssembleStep(text: string, ms: seq<Match>, last: nat)
    requires Placed(text, ms, last) && |ms| > 0
    ensures Placed(text, ms[1..], MatchEnd(ms[0]))
    ensures last <= ms[0].index <= MatchEnd(ms[0]) <= |text|
    ensures text[ms[0].index..MatchEnd(ms[0])] == ms[0].url
    ensures Assemble(text, ms, last)
            == (if ms[0].index > last then [Plain(text[last..ms[0].index])] else [])
               + [Link(ms[0].url)] + Assemble(text, ms[1..], MatchEnd(ms[0]))
  {
  }

  lemma FlattenAround(pre: seq<Piece>, u: string, rest: seq<Piece>)
    ensures Flatten(pre + [Link(u)] + rest) == Flatten(pre) + u + Flatten(rest)
  {
    FlattenAppend(pre + [Link(u)], rest);
    FlattenAppend(pre, [Link(u)]);
    FlattenOne(Link(u));
  }

  lemma FlattenOne(p: Piece)
    ensures Flatten([p]) == PieceText(p)
  {
    assert Flatten([p]) == PieceText(p) + Flatten([]);
  }

  /** The text piece before a match spells the text before it. */
  lemma FlattenGap(text: string, last: nat, index: nat)
    requires last <= index <= |text|
    ensures Flatten(if index > last then [Plain(text[last..index])] else []) == text[last..index]
  {
    if index > last {
      assert Flatten([Plain(text[last..index])]) == text[last..index] + Flatten([]);
    }
  }

  lemma {:induction false} AssembleFlatten(text: string, ms: seq<Match>, last: nat)
    requires Placed(text, ms, last)
    ensures Flatten(Assemble(text, ms, last)) == text[last..]
    decreases |ms|
  {
    if |ms| == 0 {
      FlattenGap(text, last, |text|);
      assert text[last..|text|] == text[last..];
    } else {
      var m := ms[0];
      AssembleStep(text, ms, last);
      AssembleFlatten(text, ms[1..], MatchEnd(m));
      FlattenAround(if m.index > last then [Plain(text[last..m.index])] else [], m.url,
                    Assemble(text, ms[1..], MatchEnd(m)));
      FlattenGap(text, last, m.index);
      SliceThree(text, last, m.index, MatchEnd(m));
    }
  }

  lemma {:induction false} AssembleLinks(text: string, ms: seq<Match>, last: nat)
    requires Placed(text, ms, last)
    ensures LinkUrls(Assemble(text, ms, last)) == MatchUrls(ms)
    decreases |ms|
  {
    if |ms| > 0 {
      var m := ms[0];
      AssembleStep(text, ms, last);
      var pre: seq<Piece> := if m.index > last then [Plain(text[last..m.index])] else [];
      AssembleLinks(text, ms[1..], MatchEnd(m));
      LinkUrlsAppend(pre + [Link(m.url)], Assemble(text, ms[1..], MatchEnd(m)));
      LinkUrlsAppend(pre, [Link(m.url)]);
    }
  }

  /** No empty text piece, no two text pieces side by side. */
  lemma {:induction false} AssembleShape(text: string, ms: seq<Match>, last: nat)
    requires Placed(text, ms, last)
    ensures forall i :: 0 <= i < |Assemble(text, ms, last)| && Assemble(text, ms, last)[i].Plain?
              ==> |Assemble(text, ms, last)[i].text| > 0
    ensures forall i :: 0 <= i < |Assemble(text, ms, last)| - 1 && Assemble(text, ms, last)[i].Plain?
              ==> Assemble(text, ms, last)[i + 1].Link?
    decreases |ms|
  {
    if |ms| > 0 {
      AssembleShape(text, ms[1..], MatchEnd(ms[0]));
    }
  }

  /** The pieces the text from `last` on is split into. */
  function SegmentFrom(text: string, last: nat): seq<Piece>
    requires last <= |text|
  {
    MatchesFromPlaced(text, last);
    Assemble(text, MatchesFrom(text, last), last)
  }

  /** The pieces a text node is split into. */
  function Segment(text: string): seq<Piece> {
    SegmentFrom(text, 0)
  }

  /** The segmentation loses nothing and invents nothing: the pieces spell
      the original text, the span pieces are exactly the matches in order,
      and no text piece is empty. */
  lemma SegmentSound(text: string)
    ensures Flatten(Segment(text)) == text
    ensures LinkUrls(Segment(text)) == MatchUrls(AllMatches(text))
    ensures forall i :: 0 <= i < |Segment(text)| && Segment(text)[i].Plain? ==> |Segment(text)[i].text| > 0
    ensures forall i :: 0 <= i < |Segment(text)| - 1 && Segment(text)[i].Plain? ==> Segment(text)[i + 1].Link?
  {
    MatchesFromPlaced(text, 0);
    AssembleFlatten(text, AllMatches(text), 0);
    AssembleLinks(text, AllMatches(text), 0);
    AssembleShape(text, AllMatches(text), 0);
  }

  /** No position in `[a, b)` starts a match. */
  predicate NoMatchIn(text: string, a: nat, b: nat) {
    b <= |text| && forall q :: a <= q < b ==> MatchLength(text, q) == 0
  }

  /** Positions a scan steps over have length 0 in the table. */
  lemma {:induction false} ScanEmpty(text: string, lens: seq<nat>, p: nat)
    requires Fits(text, lens) && p <= |text|
    requires Scan(text, lens, p) == []
    ensures forall q :: p <= q < |text| ==> lens[q] == 0
    decreases |text| - p
  {
    if p < |text| {
      ScanEmpty(text, lens, p + 1);
    }
  }

  /** A table of zeros gives no match. */
  lemma {:induction false} ScanNone(text: string, lens: seq<nat>, p: nat)
    requires Fits(text, lens) && p <= |text|
    requires forall q :: p <= q < |text| ==> lens[q] == 0
    ensures Scan(text, lens, p) == []
    decreases |text| - p
  {
    if p < |text| {
      ScanNone(text, lens, p + 1);
    }
  }

  /** The scan's matches lie in order, apart, each the text at its place. */
  lemma {:induction false} ScanPlaced(text: string, lens: seq<nat>, p: nat)
    requires Fits(text, lens) && p <= |text|
    ensures Placed(text, Scan(text, lens, p), p)
    decreases |text| - p
  {
    if p < |text| {
      var n := lens[p];
      if n == 0 {
        ScanPlaced(text, lens, p + 1);
        PlacedEarlier(text, Scan(text, lens, p + 1), p, p + 1);
      } else {
        var m := Match(p, text[p..p + n]);
        var rest := Scan(text, lens, p + n);
        ScanPlaced(text, lens, p + n);
        ConsParts(m, rest);
        assert MatchEnd(m) == p + n;
      }
    }
  }

  lemma PlacedEarlier(text: string, ms: seq<Match>, a: nat, b: nat)
    requires Placed(text, ms, b) && a <= b
    ensures Placed(text, ms, a)
  {
  }

  lemma ConsParts<T>(x: T, xs: seq<T>)
    ensures ([x] + xs)[0] == x && ([x] + xs)[1..] == xs
  {
  }

  /** The first match a scan reports is the table's match at its position,
      every position before it has none, and the scan goes on after it. */
  lemma {:induction false} ScanHead(text: string, lens: seq<nat>, p: nat)
    requires Fits(text, lens) && p <= |text|
    requires Scan(text, lens, p) != []
    ensures p <= Scan(text, lens, p)[0].index < |text|
    ensures |Scan(text, lens, p)[0].url| == lens[Scan(text, lens, p)[0].index]
    ensures Scan(text, lens, p)[1..] == Scan(text, lens, MatchEnd(Scan(text, lens, p)[0]))
    ensures forall q :: p <= q < Scan(text, lens, p)[0].index ==> lens[q] == 0
    decreases |text| - p
  {
    var n := lens[p];
    if n == 0 {
      ScanHead(text, lens, p + 1);
    } else {
      var m := Match(p, text[p..p + n]);
      var rest := Scan(text, lens, p + n);
      assert MatchEnd(m) == p + n;
      ConsParts(m, rest);
    }
  }

  lemma MatchesFromPlaced(text: string, p: nat)
    requires p <= |text|
    ensures Placed(text, MatchesFrom(text, p), p)
  {
    ScanPlaced(text, MatchTable(text), p);
  }

  /** Positions the scan stepped over start no match. */
  lemma MatchesFromEmpty(text: string, p: nat)
    requires p <= |text|
    requires MatchesFrom(text, p) == []
    ensures NoMatchIn(text, p, |text|)
  {
    ScanEmpty(text, MatchTable(text), p);
    forall q | p <= q < |text| ensures MatchLength(text, q) == 0 {
      MatchTableAt(text, q);
    }
  }

  /** The first match the scan reports is the match at its position, no
      position before it starts one, and the scan goes on after it. */
  lemma MatchesFromHead(text: string, p: nat)
    requires p <= |text|
    requires MatchesFrom(text, p) != []
    ensures p <= MatchesFrom(text, p)[0].index < |text|
    ensures |MatchesFrom(text, p)[0].url| == MatchLength(text, MatchesFrom(text, p)[0].index)
    ensures MatchesFrom(text, p)[1..] == MatchesFrom(text, MatchEnd(MatchesFrom(text, p)[0]))
    ensures NoMatchIn(text, p, MatchesFrom(text, p)[0].index)
  {
    var lens := MatchTable(text);
    ScanHead(text, lens, p);
    var i := Scan(text, lens, p)[0].index;
    MatchTableAt(text, i);
    forall q | p <= q < i ensures MatchLength(text, q) == 0 {
      MatchTableAt(text, q);
    }
  }

  /** Reading a text piece on its own finds no URL in it either. */
  lemma PlainPieceHasNoMatch(text: string, a: nat, b: nat)
    requires a <= b <= |text|
    requires NoMatchIn(text, a, b)
    ensures AllMatches(text[a..b]) == []
  {
    var s := text[a..b];
    forall q | 0 <= q < |s|
      ensures MatchTable(s)[q] == 0
    {
      MatchInSlice(text, a, b, q);
      MatchTableAt(s, q);
    }
    ScanNone(s, MatchTable(s), 0);
  }

  /** A text piece carries no URL of its own. */
  predicate PlainClean(p: Piece) {
    p.Plain? ==> AllMatches(p.text) == []
  }

  predicate PlainsClean(ps: seq<Piece>) {
    forall i :: 0 <= i < |ps| ==> PlainClean(ps[i])
  }

  lemma PlainsCleanAppend(a: seq<Piece>, b: seq<Piece>)
    requires PlainsClean(a) && PlainsClean(b)
    ensures PlainsClean(a + b)
  {
    forall i | 0 <= i < |a + b|
      ensures PlainClean((a + b)[i])
    {
      if i < |a| {
        assert (a + b)[i] == a[i];
      } else {
        assert (a + b)[i] == b[i - |a|];
      }
    }
  }

  /** The text between matches, and after the last one, holds no match of
      its own: a text piece never hides a URL the scan skipped. */
  lemma {:induction false} AssemblePlainsClean(text: string, last: nat)
    requires last <= |text|
    ensures PlainsClean(SegmentFrom(text, last))
    decreases |text| - last
  {
    var ms := MatchesFrom(text, last);
    MatchesFromPlaced(text, last);
    if |ms| == 0 {
      MatchesFromEmpty(text, last);
      PlainPieceHasNoMatch(text, last, |text|);
      assert text[last..|text|] == text[last..];
    } else {
      var m := ms[0];
      MatchesFromHead(text, last);
      AssemblePlainsClean(text, MatchEnd(m));
      var pre: seq<Piece> := if m.index > last then [Plain(text[last..m.index])] else [];
      if m.index > last {
        PlainPieceHasNoMatch(text, last, m.index);
        assert PlainClean(pre[0]);
      }
      assert PlainsClean([Link(m.url)]) by {
        assert PlainClean(Link(m.url));
      }
      PlainsCleanAppend(pre, [Link(m.url)]);
      PlainsCleanAppend(pre + [Link(m.url)], Assemble(text, ms[1..], MatchEnd(m)));
    }
  }

  /** A string in which the scan finds nothing has no stretch the pattern
      matches. */
  lemma NoMatchesNoUrl(s: string, a: nat, b: nat)
    requires AllMatches(s) == [] && a <= b <= |s|
    ensures !IsUrlMatch(s[a..b])
  {
    if IsUrlMatch(s[a..b]) {
      MatchLengthComplete(s, a, b - a);
      ScanEmpty(s, MatchTable(s), 0);
      MatchTableAt(s, a);
    }
  }

  /** No text piece of the split holds a URL: the scan finds none in it, and
      no stretch of it is a string the pattern matches. */
  lemma SegmentPlainsClean(text: string)
    ensures PlainsClean(Segment(text))
    ensures forall i, a, b :: 0 <= i < |Segment(text)| && Segment(text)[i].Plain? && 0 <= a <= b <= |Segment(text)[i].text|
              ==> !IsUrlMatch(Segment(text)[i].text[a..b])
  {
    AssemblePlainsClean(text, 0);
    forall i, a, b | 0 <= i < |Segment(text)| && Segment(text)[i].Plain? && 0 <= a <= b <= |Segment(text)[i].text|
      ensures !IsUrlMatch(Segment(text)[i].text[a..b])
    {
      assert PlainClean(Segment(text)[i]);
      NoMatchesNoUrl(Segment(text)[i].text, a, b);
    }
  }

  // ---------------------------------------------------------------------
  // findAndWrapTextUrls, as written
  // ---------------------------------------------------------------------

  /** Where a text node hangs: nowhere, under a non-element (a document or
      fragment, so `parentElement` is null), or under an element. */
  datatype Parent = Detached | NonElementParent | ElementParent(tag: string)

  datatype Node = TextNode(content: string, parent: Parent) | ElementNode(tag: string)

  /** What one call of `findAndWrapTextUrls` does to its node: nothing; only
      records it as processed (matches but no parent to splice into); or
      replaces it by the pieces. */
  datatype WrapOutcome = Untouched | MarkedOnly | Replaced(pieces: seq<Piece>)

  predicate SkippedTag(tag: string) {
    tag == "SCRIPT" || tag == "STYLE" || tag == "A"
  }

  predicate UnderSkippedTag(p: Parent) {
    p.ElementParent? && SkippedTag(p.tag)
  }

  /** `findAndWrapTextUrls(node)`, with `processed` standing for membership
      in the `highlightedTextUrls` set. The first guard returns for every
      node that is not a text node, so the recursive branch never runs. */
  function FindAndWrapTextUrls(node: Node, processed: bool): (r: WrapOutcome)
    ensures node.ElementNode? ==> r == Untouched
    ensures r.Replaced? <==>
              !processed && node.TextNode? && !UnderSkippedTag(node.parent)
              && node.parent != Detached && AllMatches(node.content) != []
    ensures r.MarkedOnly? <==>
              !processed && node.TextNode? && node.parent == Detached && AllMatches(node.content) != []
    ensures r.Replaced? ==>
              Flatten(r.pieces) == node.content
              && LinkUrls(r.pieces) == MatchUrls(AllMatches(node.content))
              && |LinkUrls(r.pieces)| > 0
  {
    if processed || node.ElementNode? || UnderSkippedTag(node.parent) then Untouched
    else
      var ms := AllMatches(node.content);
      if |ms| == 0 then Untouched
      else if node.parent == Detached then MarkedOnly
      else
        SegmentSound(node.content);
        Replaced(Segment(node.content))
  }

  /** The call on `document.body` (content.ts line 363) changes nothing,
      whatever text the page holds. */
  lemma BodyScanIsNoOp(processed: bool)
    ensures FindAndWrapTextUrls(ElementNode("BODY"), processed) == Untouched
  {
  }

  // ---------------------------------------------------------------------
  // findAndWrapTextUrls, as evidently intended: walk the element's subtree
  // ---------------------------------------------------------------------

  /** A DOM subtree: text, an element with children, or a highlight span
      this scan produced (the scan does not enter those again). */
  datatype Tree = Text(content: string) | Element(tag: string, children: seq<Tree>) | UrlSpan(url: string)

  function PiecesToTrees(ps: seq<Piece>): (ts: seq<Tree>)
    ensures |ts| == |ps|
    ensures forall i :: 0 <= i < |ps| ==> ts[i] == (match ps[i] case Plain(t) => Text(t) case Link(u) => UrlSpan(u))
  {
    if |ps| == 0 then [] else
      [match ps[0] case Plain(t) => Text(t) case Link(u) => UrlSpan(u)] + PiecesToTrees(ps[1..])
  }

  /** The children of an element with tag `tag` after the scan: text
      children with URLs become pieces (unless the element is SCRIPT, STYLE
      or A), element children are scanned recursively. */
  function WrapChildren(tag: string, cs: seq<Tree>): (r: seq<Tree>)
    decreases cs, 0
  {
    if |cs| == 0 then []
    else
      var c := cs[0];
      var first: seq<Tree> :=
        match c
        case Text(t) =>
          if SkippedTag(tag) || AllMatches(t) == [] then [c] else PiecesToTrees(Segment(t))
        case Element(g, kids) => [Element(g, WrapChildren(g, kids))]
        case UrlSpan(_) => [c];
      first + WrapChildren(tag, cs[1..])
  }

  function WrapTree(t: Tree): Tree {
    match t
    case Element(g, kids) => Element(g, WrapChildren(g, kids))
    case _ => t
  }

  /** The text a subtree displays. */
  function TextOf(t: Tree): string
    decreases t, 1
  {
    match t
    case Text(s) => s
    case UrlSpan(u) => u
    case Element(_, kids) => TextOfAll(kids)
  }

  function TextOfAll(ts: seq<Tree>): string
    decreases ts, 0
  {
    if |ts| == 0 then [] else TextOf(ts[0]) + TextOfAll(ts[1..])
  }

  /** Every text node outside SCRIPT, STYLE and A elements is free of URLs. */
  predicate NoBareUrls(tag: string, ts: seq<Tree>)
    decreases ts, 0
  {
    forall i :: 0 <= i < |ts| ==> NoBareUrlsIn(tag, ts[i])
  }

  predicate NoBareUrlsIn(tag: string, t: Tree)
    decreases t, 1
  {
    match t
    case Text(s) => SkippedTag(tag) || AllMatches(s) == []
    case UrlSpan(_) => true
    case Element(g, kids) => NoBareUrls(g, kids)
  }

  lemma {:induction false} TextOfAllAppend(a: seq<Tree>, b: seq<Tree>)
    ensures TextOfAll(a + b) == TextOfAll(a) + TextOfAll(b)
  {
    if |a| == 0 {
      assert a + b == b;
    } else {
      assert (a + b)[0] == a[0];
      assert (a + b)[1..] == a[1..] + b;
      TextOfAllAppend(a[1..], b);
    }
  }

  lemma {:induction false} PiecesToTreesText(ps: seq<Piece>)
    ensures TextOfAll(PiecesToTrees(ps)) == Flatten(ps)
  {
    if |ps| > 0 {
      var ts := PiecesToTrees(ps);
      assert ts[1..] == PiecesToTrees(ps[1..]);
      PiecesToTreesText(ps[1..]);
    }
  }

  lemma PiecesClean(tag: string, text: string)
    ensures NoBareUrls(tag, PiecesToTrees(Segment(text)))
  {
    SegmentPlainsClean(text);
    var ps := Segment(text);
    var ts := PiecesToTrees(ps);
    forall i | 0 <= i < |ts|
      ensures NoBareUrlsIn(tag, ts[i])
    {
      assert PlainClean(ps[i]);
    }
  }

  lemma NoBareUrlsAppend(tag: string, a: seq<Tree>, b: seq<Tree>)
    requires NoBareUrls(tag, a) && NoBareUrls(tag, b)
    ensures NoBareUrls(tag, a + b)
  {
  }

  /** The intended scan keeps the page's text and leaves no URL unwrapped
      outside SCRIPT, STYLE and A elements. */
  lemma {:induction false} WrapChildrenSound(tag: string, cs: seq<Tree>)
    ensures TextOfAll(WrapChildren(tag, cs)) == TextOfAll(cs)
    ensures NoBareUrls(tag, WrapChildren(tag, cs))
    decreases cs, 0
  {
    if |cs| > 0 {
      var c := cs[0];
      WrapChildrenSound(tag, cs[1..]);
      var first: seq<Tree> :=
        match c
        case Text(t) =>
          if SkippedTag(tag) || AllMatches(t) == [] then [c] else PiecesToTrees(Segment(t))
        case Element(g, kids) => [Element(g, WrapChildren(g, kids))]
        case UrlSpan(_) => [c];
      assert WrapChildren(tag, cs) == first + WrapChildren(tag, cs[1..]);
      TextOfAllAppend(first, WrapChildren(tag, cs[1..]));
      assert TextOfAll(cs) == TextOf(c) + TextOfAll(cs[1..]);
      match c
      case Text(t) =>
        if !(SkippedTag(tag) || AllMatches(t) == []) {
          SegmentSound(t);
          PiecesToTreesText(Segment(t));
          PiecesClean(tag, t);
        }
      case Element(g, kids) =>
        WrapChildrenSound(g, kids);
        assert TextOfAll(first) == TextOf(first[0]);
      case UrlSpan(_) =>
      NoBareUrlsAppend(tag, first, WrapChildren(tag, cs[1..]));
    }
  }

  /** The corrected scan of a subtree (for the page, `document.body`). */
  lemma WrapTreeSound(t: Tree)
    ensures TextOf(WrapTree(t)) == TextOf(t)
    ensures t.Element? ==> NoBareUrlsIn(t.tag, WrapTree(t))
  {
    if t.Element? {
      WrapChildrenSound(t.tag, t.children);
    }
  }

  /** The as-written scan of a body holding `http://a` wraps nothing, while
      the corrected one wraps the URL. */
  lemma BodyScanMissesUrl()
    ensures FindAndWrapTextUrls(ElementNode("BODY"), false) == Untouched
    ensures WrapTree(Element("BODY", [Text("http://a")])) == Element("BODY", [UrlSpan("http://a")])
  {
    var s := "http://a";
    assert SchemeAt(s, 0) == 7;
    assert UrlRun(s, 8) == 0;
    assert UrlRun(s, 7) == 1;
    assert MatchLength(s, 0) == 8;
    assert s[0..8] == s;
    assert MatchesFrom(s, 8) == [];
    assert AllMatches(s) == [Match(0, s)];
    assert Segment(s) == [Link(s)];
    assert PiecesToTrees([Link(s)]) == [UrlSpan(s)];
    assert WrapChildren("BODY", [Text(s)]) == [UrlSpan(s)] + WrapChildren("BODY", []);
  }
}
