/** The part of the backend's `CheckResult` record the extension's logic
    reads: the URL, the boolean verdict, the verdict string, the risk score,
    the Safe Browsing threats and the reputation and URL-feature flags.
    Floating-point scores and free-text fields are not modelled. */
module Types {
  import opened Wrappers

  datatype SafeBrowsing = SafeBrowsing(safe: bool, threats: seq<string>)

  datatype Reputation = Reputation(overallSuspicious: bool)

  datatype UrlFeatures = UrlFeatures(error: Option<string>, subdomainCount: Option<int>)

  datatype EnhancedChecks = EnhancedChecks(reputation: Option<Reputation>, features: Option<UrlFeatures>)

  datatype CheckResult = CheckResult(
    url: string,
    safe: bool,
    finalVerdict: string,
    confidence: string,
    riskScore: int,
    safeBrowsing: SafeBrowsing,
    enhancedChecks: Option<EnhancedChecks>,
    suspiciousSignals: Option<seq<string>>)

  /** The "unsafe or suspicious" test the background and content scripts
      share: the boolean verdict is false, or the verdict string is
      `unsafe` or `suspicious`. */
  predicate IsUnsafe(r: CheckResult) {
    !r.safe || r.finalVerdict == "unsafe" || r.finalVerdict == "suspicious"
  }
}
