/** The decisions of the popup's result card (components/ResultCard.tsx):
    whether a result is shown at all, which style set and icon its verdict
    gets, the colour band of the risk score, the wording of the suspicious
    signals, and the flags of the enhanced-check boxes. The markup itself is
    not modelled; a rendered card is the record of these decisions. */
module ResultCard {
  import opened JsText
  import opened Wrappers
  import opened Types

  /** What `VERDICT_CONFIG[verdict]` (config/index.ts) yields: one of the
      object's own entries with its badge text, or a member the object
      literal inherits from `Object.prototype`. An inherited member is a
      function, or the prototype itself for `__proto__`, so it is truthy and
      has no `text`. */
  datatype ConfigEntry = Configured(text: string) | Inherited

  /** The names every plain object inherits from `Object.prototype`. */
  const InheritedKeys: set<string> := {
    "constructor", "hasOwnProperty", "isPrototypeOf", "propertyIsEnumerable",
    "toLocaleString", "toString", "valueOf", "__proto__",
    "__defineGetter__", "__defineSetter__", "__lookupGetter__", "__lookupSetter__"}

  /** The property lookup `VERDICT_CONFIG[verdict]`; `None` is `undefined`. */
  function VerdictConfig(verdict: string): Option<ConfigEntry> {
    if verdict == "safe" then Some(Configured("SAFE"))
    else if verdict == "suspicious" then Some(Configured("SUSPICIOUS"))
    else if verdict == "unsafe" then Some(Configured("UNSAFE"))
    else if verdict in InheritedKeys then Some(Inherited)
    else None
  }

  /** The four class-name sets of `getVerdictStyles`. */
  datatype StyleSet = SafeStyles | SuspiciousStyles | PhishingStyles | DefaultStyles

  /** `getVerdictStyles`: `unsafe` and `phishing` share the red set. */
  function VerdictStyles(verdict: string): StyleSet {
    if verdict == "safe" then SafeStyles
    else if verdict == "suspicious" then SuspiciousStyles
    else if verdict == "unsafe" || verdict == "phishing" then PhishingStyles
    else DefaultStyles
  }

  /** The two pictures `getVerdictIcon` draws: a shield with a tick, and a
      warning triangle (the same path serves `suspicious` and `unsafe`). */
  datatype Icon = ShieldTick | WarningTriangle

  function VerdictIcon(verdict: string): Option<Icon> {
    if verdict == "safe" then Some(ShieldTick)
    else if verdict == "suspicious" || verdict == "unsafe" || verdict == "phishing" then Some(WarningTriangle)
    else None
  }

  // ---------------------------------------------------------------------
  // Risk score
  // ---------------------------------------------------------------------

  datatype Band = Green | Yellow | Red

  /** The colour band of the risk score; the `risk_score/100` text and the
      risk bar use the same two thresholds. */
  function RiskBand(score: int): Band {
    if score <= 30 then Green else if score <= 60 then Yellow else Red
  }

  function BandRank(b: Band): nat {
    match b
    case Green => 0
    case Yellow => 1
    case Red => 2
  }

  /** Each band is exactly one range of scores. */
  lemma RiskBands(score: int)
    ensures RiskBand(score) == Green <==> score <= 30
    ensures RiskBand(score) == Yellow <==> 30 < score <= 60
    ensures RiskBand(score) == Red <==> score > 60
  {
  }

  /** A higher score never gets a milder colour. */
  lemma RiskBandMonotone(a: int, b: int)
    requires a <= b
    ensures BandRank(RiskBand(a)) <= BandRank(RiskBand(b))
  {
  }

  // ---------------------------------------------------------------------
  // Signal labels
  // ---------------------------------------------------------------------

  /** `signal.replace(/_/g, ' ')`. */
  function Underscores(s: string): string {
    seq(|s|, i requires 0 <= i < |s| => if s[i] == '_' then ' ' else s[i])
  }

  /** `.split(' ')`: always at least one piece; the pieces hold no space. */
  function SplitSpaces(s: string): (ws: seq<string>)
    ensures |ws| >= 1
  {
    if |s| == 0 then [[]]
    else if s[0] == ' ' then [[]] + SplitSpaces(s[1..])
    else
      var rest := SplitSpaces(s[1..]);
      [[s[0]] + rest[0]] + rest[1..]
  }

  /** `.join(' ')`. */
  function JoinSpaces(ws: seq<string>): string
    requires |ws| >= 1
  {
    if |ws| == 1 then ws[0] else ws[0] + " " + JoinSpaces(ws[1..])
  }

  function LowerAll(w: string): string {
    if |w| == 0 then [] else [AsciiLower(w[0])] + LowerAll(w[1..])
  }

  /** `word.charAt(0).toUpperCase() + word.slice(1).toLowerCase()`. */
  function Capitalize(w: string): string {
    if |w| == 0 then [] else [AsciiUpper(w[0])] + LowerAll(w[1..])
  }

  function CapitalizeAll(ws: seq<string>): (cs: seq<string>)
    ensures |cs| == |ws|
  {
    if |ws| == 0 then [] else [Capitalize(ws[0])] + CapitalizeAll(ws[1..])
  }

  /** The label a suspicious signal is shown with. */
  function FormatSignal(signal: string): string {
    JoinSpaces(CapitalizeAll(SplitSpaces(Underscores(signal))))
  }

  /** Reference definition, one character at a time: a character right
      after a space (or first) is upper-cased, every other one lower-cased. */
  function CaseByPosition(s: string, atStart: bool): (t: string)
    ensures |t| == |s|
  {
    if |s| == 0 then []
    else [if atStart then AsciiUpper(s[0]) else AsciiLower(s[0])] + CaseByPosition(s[1..], s[0] == ' ')
  }

  /** Capitalising the first piece only when `atStart`. */
  function JoinFrom(ws: seq<string>, atStart: bool): string
    requires |ws| >= 1
  {
    JoinSpaces([if atStart then Capitalize(ws[0]) else LowerAll(ws[0])] + CapitalizeAll(ws[1..]))
  }

  lemma JoinConsChar(c: char, w: string, ws: seq<string>)
    ensures JoinSpaces([[c] + w] + ws) == [c] + JoinSpaces([w] + ws)
  {
    if |ws| > 0 {
      assert ([[c] + w] + ws)[1..] == ws;
      assert ([w] + ws)[1..] == ws;
    }
  }

  lemma {:induction false} JoinFromSplit(s: string, atStart: bool)
    ensures JoinFrom(SplitSpaces(s), atStart) == CaseByPosition(s, atStart)
  {
    if |s| > 0 {
      var rest := SplitSpaces(s[1..]);
      JoinFromSplit(s[1..], s[0] == ' ');
      if s[0] == ' ' {
        var caps := CapitalizeAll(rest);
        assert SplitSpaces(s) == [[]] + rest;
        assert CapitalizeAll(SplitSpaces(s)[1..]) == caps;
        assert caps == [Capitalize(rest[0])] + CapitalizeAll(rest[1..]);
        assert JoinFrom(SplitSpaces(s), atStart) == JoinSpaces([[]] + caps);
        assert ([[]] + caps)[1..] == caps;
        assert JoinSpaces([[]] + caps) == [] + " " + JoinSpaces(caps);
      } else {
        var c := s[0];
        var first := if atStart then AsciiUpper(c) else AsciiLower(c);
        var tail := CapitalizeAll(rest[1..]);
        assert SplitSpaces(s) == [[c] + rest[0]] + rest[1..];
        assert SplitSpaces(s)[1..] == rest[1..];
        assert (if atStart then Capitalize([c] + rest[0]) else LowerAll([c] + rest[0]))
            == [first] + LowerAll(rest[0]) by {
          assert ([c] + rest[0])[1..] == rest[0];
        }
        JoinConsChar(first, LowerAll(rest[0]), tail);
      }
    }
  }

  /** Neither case mapping creates or removes a space or an underscore, and
      each is idempotent. */
  lemma CaseMapsKeepSpaces(c: char)
    ensures AsciiUpper(c) == ' ' <==> c == ' '
    ensures AsciiLower(c) == ' ' <==> c == ' '
    ensures AsciiUpper(c) == '_' <==> c == '_'
    ensures AsciiLower(c) == '_' <==> c == '_'
    ensures AsciiUpper(AsciiUpper(c)) == AsciiUpper(c)
    ensures AsciiLower(AsciiLower(c)) == AsciiLower(c)
  {
  }

  lemma {:induction false} CaseByPositionIdempotent(s: string, atStart: bool)
    ensures CaseByPosition(CaseByPosition(s, atStart), atStart) == CaseByPosition(s, atStart)
  {
    if |s| > 0 {
      var t := CaseByPosition(s, atStart);
      CaseMapsKeepSpaces(s[0]);
      CaseByPositionIdempotent(s[1..], s[0] == ' ');
      assert t[1..] == CaseByPosition(s[1..], s[0] == ' ');
    }
  }

  lemma {:induction false} CaseByPositionNoUnderscore(s: string, atStart: bool)
    requires forall i :: 0 <= i < |s| ==> s[i] != '_'
    ensures forall i :: 0 <= i < |CaseByPosition(s, atStart)| ==> CaseByPosition(s, atStart)[i] != '_'
  {
    if |s| > 0 {
      CaseMapsKeepSpaces(s[0]);
      CaseByPositionNoUnderscore(s[1..], s[0] == ' ');
      var t := CaseByPosition(s, atStart);
      assert forall i :: 1 <= i < |t| ==> t[i] == CaseByPosition(s[1..], s[0] == ' ')[i - 1];
    }
  }

  /** The label is the one-character-at-a-time reference applied to the
      signal with its underscores made spaces; so it is as long as the
      signal, holds no underscore, and formatting it again changes nothing. */
  lemma FormatSignalSpec(signal: string)
    ensures FormatSignal(signal) == CaseByPosition(Underscores(signal), true)
    ensures |FormatSignal(signal)| == |signal|
    ensures forall i :: 0 <= i < |FormatSignal(signal)| ==> FormatSignal(signal)[i] != '_'
    ensures FormatSignal(FormatSignal(signal)) == FormatSignal(signal)
  {
    var u := Underscores(signal);
    var ws := SplitSpaces(u);
    JoinFromSplit(u, true);
    assert CapitalizeAll(ws) == [Capitalize(ws[0])] + CapitalizeAll(ws[1..]);
    var t := CaseByPosition(u, true);
    CaseByPositionNoUnderscore(u, true);
    assert Underscores(t) == t;
    JoinFromSplit(t, true);
    var ws2 := SplitSpaces(t);
    assert CapitalizeAll(ws2) == [Capitalize(ws2[0])] + CapitalizeAll(ws2[1..]);
    CaseByPositionIdempotent(u, true);
  }

  // ---------------------------------------------------------------------
  // Enhanced-check boxes
  // ---------------------------------------------------------------------

  /** The Safe Browsing part of the reputation flag: not safe, with at least
      one threat listed. */
  predicate SafeBrowsingHit(r: CheckResult) {
    !r.safeBrowsing.safe && |r.safeBrowsing.threats| > 0
  }

  /** The reputation box's border and background colour: red or green. */
  function ReputationBoxRed(rep: Reputation, r: CheckResult): bool {
    rep.overallSuspicious || (!r.safeBrowsing.safe && |r.safeBrowsing.threats| > 0)
  }

  /** The colour of the box's corner mark (line 370). */
  function ReputationMarkRed(rep: Reputation, r: CheckResult): bool {
    if rep.overallSuspicious then true
    else if r.safeBrowsing.safe then false
    else |r.safeBrowsing.threats| > 0
  }

  /** The corner mark itself (line 371): a no-entry sign or a tick. */
  datatype Mark = NoEntry | Tick

  function ReputationMark(rep: Reputation, r: CheckResult): Mark {
    if !rep.overallSuspicious && (r.safeBrowsing.safe || |r.safeBrowsing.threats| == 0) then Tick
    else NoEntry
  }

  /** The reputation box, shown only when the result carries reputation
      data: whether it is flagged. */
  function ReputationBox(r: CheckResult): Option<bool> {
    match r.enhancedChecks
    case None => None
    case Some(ec) =>
      match ec.reputation
      case None => None
      case Some(rep) => Some(ReputationBoxRed(rep, r))
  }

  /** The box, the mark and the mark's colour all say "flagged" exactly when
      the reputation services call the URL suspicious or Safe Browsing lists
      a threat for it. */
  lemma ReputationFlagSpec(r: CheckResult)
    ensures ReputationBox(r).Some? <==> r.enhancedChecks.Some? && r.enhancedChecks.value.reputation.Some?
    ensures ReputationBox(r).Some? ==>
              var rep := r.enhancedChecks.value.reputation.value;
              (ReputationBox(r).value <==> rep.overallSuspicious || SafeBrowsingHit(r))
              && ReputationMarkRed(rep, r) == ReputationBox(r).value
              && (ReputationMark(rep, r) == NoEntry <==> ReputationBox(r).value)
  {
  }

  /** The "N subdomains" line of the URL-features box: shown when the box is
      shown (features present and `!error`, so an absent or empty error
      string) and the count is known and above 2. */
  function SubdomainLine(r: CheckResult): Option<int> {
    match r.enhancedChecks
    case None => None
    case Some(ec) =>
      match ec.features
      case None => None
      case Some(f) =>
        if f.error.Some? && f.error.value != "" then None
        else match f.subdomainCount
          case None => None
          case Some(n) => if n > 2 then Some(n) else None
  }

  lemma SubdomainLineSpec(r: CheckResult)
    ensures SubdomainLine(r).Some? <==>
              r.enhancedChecks.Some? && r.enhancedChecks.value.features.Some?
              && (r.enhancedChecks.value.features.value.error.None?
                  || r.enhancedChecks.value.features.value.error.value == "")
              && r.enhancedChecks.value.features.value.subdomainCount.Some?
              && r.enhancedChecks.value.features.value.subdomainCount.value > 2
    ensures SubdomainLine(r).Some? ==> SubdomainLine(r).value == r.enhancedChecks.value.features.value.subdomainCount.value
    ensures SubdomainLine(r).Some? ==> SubdomainLine(r).value >= 3
  {
  }

  // ---------------------------------------------------------------------
  // The card
  // ---------------------------------------------------------------------

  /** A rendered card; `badge` is `config.text`, absent for an inherited
      member. */
  datatype Card = Card(
    badge: Option<string>,
    styles: StyleSet,
    icon: Option<Icon>,
    risk: Band,
    signals: seq<string>,
    subdomains: Option<int>,
    reputationFlag: Option<bool>)

  function FormatAll(ss: seq<string>): (ls: seq<string>)
    ensures |ls| == |ss|
    ensures forall i :: 0 <= i < |ss| ==> ls[i] == FormatSignal(ss[i])
  {
    if |ss| == 0 then [] else [FormatSignal(ss[0])] + FormatAll(ss[1..])
  }

  /** The signal chips: one per signal, in order, when the list is present
      and non-empty. */
  function SignalLabels(r: CheckResult): seq<string> {
    match r.suspiciousSignals
    case None => []
    case Some(ss) => if |ss| > 0 then FormatAll(ss) else []
  }

  /** `ResultCard`: nothing when the lookup is `undefined`; otherwise a
      card whose style and icon come from the verdict switches. */
  function RenderCard(r: CheckResult): Option<Card> {
    match VerdictConfig(r.finalVerdict)
    case None => None
    case Some(c) =>
      Some(Card(if c.Configured? then Some(c.text) else None,
                VerdictStyles(r.finalVerdict), VerdictIcon(r.finalVerdict),
                RiskBand(r.riskScore),
                SignalLabels(r), SubdomainLine(r), ReputationBox(r)))
  }

  /** A card renders for the three configured verdicts, each with its own
      style set and an icon, and for the names of inherited members, which
      fall to the default style set with no icon and no badge text. The
      `phishing` cases of the style and icon switches are never reached. */
  lemma RenderCardGate(r: CheckResult)
    ensures RenderCard(r).Some? <==>
              r.finalVerdict in {"safe", "suspicious", "unsafe"} || r.finalVerdict in InheritedKeys
    ensures RenderCard(r).Some? ==> r.finalVerdict != "phishing"
    ensures r.finalVerdict in {"safe", "suspicious", "unsafe"} ==>
              RenderCard(r).Some? && RenderCard(r).value.styles != DefaultStyles
              && RenderCard(r).value.icon.Some? && RenderCard(r).value.badge.Some?
    ensures r.finalVerdict in InheritedKeys ==>
              RenderCard(r).Some? && RenderCard(r).value.styles == DefaultStyles
              && RenderCard(r).value.icon.None? && RenderCard(r).value.badge.None?
    ensures RenderCard(r).Some? ==> (RenderCard(r).value.styles == PhishingStyles <==> r.finalVerdict == "unsafe")
  {
  }

  /** The badge text is present exactly for the configured verdicts, and is
      then the verdict in capitals. */
  lemma RenderCardLabel(r: CheckResult)
    requires RenderCard(r).Some?
    ensures RenderCard(r).value.badge.Some? <==> r.finalVerdict in {"safe", "suspicious", "unsafe"}
    ensures RenderCard(r).value.badge.Some? ==>
              |RenderCard(r).value.badge.value| == |r.finalVerdict|
              && forall i :: 0 <= i < |r.finalVerdict| ==> RenderCard(r).value.badge.value[i] == AsciiUpper(r.finalVerdict[i])
  {
  }

  /** The `phishing` arms exist: reached, they would pick the red styles
      and the warning icon, exactly as `unsafe` does; but `phishing` is
      neither an own nor an inherited key, so no card reaches them. */
  lemma PhishingArmsMatchUnsafe()
    ensures VerdictStyles("phishing") == VerdictStyles("unsafe")
    ensures VerdictIcon("phishing") == VerdictIcon("unsafe")
    ensures VerdictConfig("phishing") == None
  {
  }

  /** The chips are the formatted signals, one each, in order. */
  lemma SignalLabelsSpec(r: CheckResult)
    ensures r.suspiciousSignals.None? ==> SignalLabels(r) == []
    ensures r.suspiciousSignals.Some? ==>
              |SignalLabels(r)| == |r.suspiciousSignals.value|
              && forall i :: 0 <= i < |SignalLabels(r)| ==> SignalLabels(r)[i] == FormatSignal(r.suspiciousSignals.value[i])
  {
  }
}
