/** The three bounded retry loops of the extension, each modelled as a pure
    function of the outcomes the browser would hand back: the k-th ping, the
    k-th send, the k-th delivery attempt. Waiting is not performed; each run
    returns the list of pauses (in milliseconds) the source would sleep. */
module Retry {
  import opened JsText

  // ---------------------------------------------------------------------
  // content.ts: ensureServiceWorkerReady
  // ---------------------------------------------------------------------

  const MaxWakeAttempts: nat := 10
  const WakeBaseDelay: nat := 100
  const WakeDelayCap: nat := 2000

  /** The pause after failed wake-up attempt `k`: `min(100 * 2^k, 2000)`. */
  function WakeBackoff(k: nat): (ms: nat)
    ensures ms <= WakeDelayCap
  {
    if WakeBaseDelay * Pow2(k) <= WakeDelayCap then WakeBaseDelay * Pow2(k) else WakeDelayCap
  }

  /** A ping loop's record: whether some ping was answered, how many pings
      were sent, and the pauses taken in between, in order. */
  datatype WakeRun = WakeRun(ready: bool, attempts: nat, waits: seq<nat>)

  function WakeFrom(ping: nat -> bool, k: nat): (r: WakeRun)
    requires k <= MaxWakeAttempts
    ensures k + r.attempts <= MaxWakeAttempts
    ensures k < MaxWakeAttempts ==> r.attempts >= 1
    ensures r.ready ==> r.attempts >= 1 && ping(k + r.attempts - 1)
    ensures r.ready ==> forall j :: k <= j < k + r.attempts - 1 ==> !ping(j)
    ensures !r.ready ==> k + r.attempts == MaxWakeAttempts
    ensures !r.ready ==> forall j :: k <= j < MaxWakeAttempts ==> !ping(j)
    ensures |r.waits| == if r.ready then r.attempts - 1 else r.attempts
    ensures forall i :: 0 <= i < |r.waits| ==> r.waits[i] == WakeBackoff(k + i)
    decreases MaxWakeAttempts - k
  {
    if k == MaxWakeAttempts then WakeRun(false, 0, [])
    else if ping(k) then WakeRun(true, 1, [])
    else
      var rest := WakeFrom(ping, k + 1);
      WakeRun(rest.ready, rest.attempts + 1, [WakeBackoff(k)] + rest.waits)
  }

  /** `ensureServiceWorkerReady`: at most ten pings; true exactly when one of
      them is answered; after the k-th failure it pauses `min(100 * 2^k, 2000)`
      milliseconds, including after the tenth. */
  function EnsureServiceWorkerReady(ping: nat -> bool): (r: WakeRun)
    ensures 1 <= r.attempts <= MaxWakeAttempts
    ensures r.ready <==> exists j :: 0 <= j < MaxWakeAttempts && ping(j)
    ensures r.ready ==> ping(r.attempts - 1) && forall j :: 0 <= j < r.attempts - 1 ==> !ping(j)
    ensures !r.ready ==> r.attempts == MaxWakeAttempts
    ensures |r.waits| == if r.ready then r.attempts - 1 else r.attempts
    ensures forall i :: 0 <= i < |r.waits| ==> r.waits[i] == WakeBackoff(i) && r.waits[i] <= WakeDelayCap
  {
    WakeFrom(ping, 0)
  }

  lemma {:induction false} Pow2Monotone(a: nat, b: nat)
    requires a <= b
    ensures Pow2(a) <= Pow2(b)
  {
    if a < b {
      Pow2Monotone(a, b - 1);
    }
  }

  /** The schedule doubles from 100 ms and sticks at 2000 ms from the sixth
      failure on. */
  lemma WakeBackoffSchedule(k: nat)
    ensures k < 5 ==> WakeBackoff(k) == WakeBaseDelay * Pow2(k)
    ensures k >= 5 ==> WakeBackoff(k) == WakeDelayCap
  {
    assert Pow2(4) == 16;
    assert Pow2(5) == 32;
    if k < 5 {
      Pow2Monotone(k, 4);
    } else {
      Pow2Monotone(5, k);
    }
  }

  function Sum(s: seq<nat>): nat {
    if |s| == 0 then 0 else s[0] + Sum(s[1..])
  }

  /** Total of the first `n` wake-up pauses. */
  function WakeBackoffTotal(n: nat): nat {
    if n == 0 then 0 else WakeBackoffTotal(n - 1) + WakeBackoff(n - 1)
  }

  lemma {:induction false} SumOfSchedule(w: seq<nat>, k: nat)
    requires forall i :: 0 <= i < |w| ==> w[i] == WakeBackoff(k + i)
    ensures Sum(w) + WakeBackoffTotal(k) == WakeBackoffTotal(k + |w|)
  {
    if |w| > 0 {
      SumOfSchedule(w[1..], k + 1);
    }
  }

  lemma {:induction false} WakeBackoffTotalMonotone(a: nat, b: nat)
    requires a <= b
    ensures WakeBackoffTotal(a) <= WakeBackoffTotal(b)
  {
    if a < b {
      WakeBackoffTotalMonotone(a, b - 1);
    }
  }

  lemma FullWakeBackoffTotal()
    ensures WakeBackoffTotal(MaxWakeAttempts) == 13100
  {
    WakeBackoffSchedule(0);
    WakeBackoffSchedule(1);
    WakeBackoffSchedule(2);
    WakeBackoffSchedule(3);
    WakeBackoffSchedule(4);
    assert WakeBackoffTotal(5) == 3100;
    WakeBackoffSchedule(5);
    WakeBackoffSchedule(6);
    WakeBackoffSchedule(7);
    WakeBackoffSchedule(8);
    WakeBackoffSchedule(9);
    assert WakeBackoffTotal(10) == WakeBackoffTotal(5) + 5 * WakeDelayCap;
  }

  /** However the pings go, `ensureServiceWorkerReady` sleeps at most
      100 + 200 + 400 + 800 + 1600 + 5 * 2000 = 13100 ms, and exactly that
      much when no ping is answered. */
  lemma EnsureReadyTotalWait(ping: nat -> bool)
    ensures Sum(EnsureServiceWorkerReady(ping).waits) <= 13100
    ensures !EnsureServiceWorkerReady(ping).ready ==> Sum(EnsureServiceWorkerReady(ping).waits) == 13100
  {
    var r := EnsureServiceWorkerReady(ping);
    ScheduleTotal(r.waits, MaxWakeAttempts);
    FullWakeBackoffTotal();
  }

  /** A prefix of the wake-up schedule sums to at most the whole schedule,
      and to exactly that when it is the whole schedule. */
  lemma ScheduleTotal(w: seq<nat>, n: nat)
    requires |w| <= n
    requires forall i :: 0 <= i < |w| ==> w[i] == WakeBackoff(i)
    ensures Sum(w) <= WakeBackoffTotal(n)
    ensures |w| == n ==> Sum(w) == WakeBackoffTotal(n)
  {
    SumOfSchedule(w, 0);
    WakeBackoffTotalMonotone(|w|, n);
  }

  // ---------------------------------------------------------------------
  // content.ts: sendMessageWithRetry
  // ---------------------------------------------------------------------

  const WarmUpPings: nat := 3

  /** What one `chrome.runtime.sendMessage` call comes back with. */
  datatype Attempt<R> = Delivered(response: R) | Rejected(message: string)

  /** How `sendMessageWithRetry` settles: with the first response, by
      throwing the last error, or (when `retries <= 0`) by falling off the
      end of the loop and resolving to `undefined`. */
  datatype Delivery<R> = Response(value: R) | Thrown(message: string) | NoResponse

  /** The send loop's run: how it settled, the sends made, the
      `KEEP_ALIVE_PING`s sent to wake the worker again after a rejected
      send that is not the last (their answers are ignored), and the pauses
      taken. */
  datatype RetryRun<R> = RetryRun(outcome: Delivery<R>, attempts: nat, rewakes: nat, waits: seq<nat>)

  datatype SendRun<R> = SendRun(warmUp: WakeRun, send: RetryRun<R>)

  /** The warm-up pings: at most three, pausing `100 * (i + 1)` ms after
      failed ping `i`, including after the third. */
  function WarmUpFrom(ping: nat -> bool, i: nat): (r: WakeRun)
    requires i <= WarmUpPings
    ensures i + r.attempts <= WarmUpPings
    ensures i < WarmUpPings ==> r.attempts >= 1
    ensures r.ready ==> r.attempts >= 1 && ping(i + r.attempts - 1)
    ensures r.ready ==> forall j :: i <= j < i + r.attempts - 1 ==> !ping(j)
    ensures !r.ready ==> i + r.attempts == WarmUpPings
    ensures !r.ready ==> forall j :: i <= j < WarmUpPings ==> !ping(j)
    ensures |r.waits| == if r.ready then r.attempts - 1 else r.attempts
    ensures forall n :: 0 <= n < |r.waits| ==> r.waits[n] == 100 * (i + n + 1)
    decreases WarmUpPings - i
  {
    if i == WarmUpPings then WakeRun(false, 0, [])
    else if ping(i) then WakeRun(true, 1, [])
    else
      var rest := WarmUpFrom(ping, i + 1);
      WakeRun(rest.ready, rest.attempts + 1, [100 * (i + 1)] + rest.waits)
  }

  /** The send loop from attempt `k` on (lines 123-148 of content.ts). */
  function SendFrom<R>(send: nat -> Attempt<R>, retries: int, delay: nat, k: nat): (r: RetryRun<R>)
    requires k < retries
    ensures 1 <= r.attempts && k + r.attempts <= retries
    ensures !r.outcome.NoResponse?
    ensures forall j :: k <= j < k + r.attempts - 1 ==> send(j).Rejected?
    ensures r.outcome.Response? ==> send(k + r.attempts - 1) == Delivered(r.outcome.value)
    ensures r.outcome.Thrown? ==> k + r.attempts == retries && send(retries - 1) == Rejected(r.outcome.message)
    ensures |r.waits| == r.attempts - 1
    ensures r.rewakes == r.attempts - 1
    ensures forall n :: 0 <= n < |r.waits| ==> r.waits[n] == delay * Pow2(k + n)
    decreases retries - k
  {
    match send(k)
    case Delivered(v) => RetryRun(Response(v), 1, 0, [])
    case Rejected(e) =>
      if k == retries - 1 then RetryRun(Thrown(e), 1, 0, [])
      else
        var rest := SendFrom(send, retries, delay, k + 1);
        RetryRun(rest.outcome, rest.attempts + 1, rest.rewakes + 1, [delay * Pow2(k)] + rest.waits)
  }

  /** `sendMessageWithRetry(message, retries, delay)`: up to three warm-up
      pings whose failure does not stop it, then up to `retries` sends. It
      resolves with the first delivered response, throws the last error
      after `retries` rejections, and after rejected send `k`, except the
      last one, pings the worker once more and pauses `delay * 2^k`. */
  function SendMessageWithRetry<R>(ping: nat -> bool, send: nat -> Attempt<R>, retries: int, delay: nat): (r: SendRun<R>)
    ensures 1 <= r.warmUp.attempts <= WarmUpPings
    ensures r.warmUp.ready <==> exists i :: 0 <= i < WarmUpPings && ping(i)
    ensures |r.warmUp.waits| == if r.warmUp.ready then r.warmUp.attempts - 1 else WarmUpPings
    ensures forall n :: 0 <= n < |r.warmUp.waits| ==> r.warmUp.waits[n] == 100 * (n + 1)
    ensures retries <= 0 ==> r.send == RetryRun(NoResponse, 0, 0, [])
    ensures retries > 0 ==> 1 <= r.send.attempts <= retries && |r.send.waits| == r.send.attempts - 1
    ensures retries > 0 ==> r.send.rewakes == r.send.attempts - 1
    ensures r.send.outcome.Response? <==> exists k :: 0 <= k < retries && send(k).Delivered?
    ensures r.send.outcome.Response? ==>
              send(r.send.attempts - 1) == Delivered(r.send.outcome.value)
              && forall j :: 0 <= j < r.send.attempts - 1 ==> send(j).Rejected?
    ensures r.send.outcome.Thrown? <==> retries > 0 && forall k :: 0 <= k < retries ==> send(k).Rejected?
    ensures r.send.outcome.Thrown? ==> r.send.attempts == retries && r.send.outcome.message == send(retries - 1).message
    ensures forall n :: 0 <= n < |r.send.waits| ==> r.send.waits[n] == delay * Pow2(n)
  {
    var warm := WarmUpFrom(ping, 0);
    if retries <= 0 then SendRun(warm, RetryRun(NoResponse, 0, 0, []))
    else
      var s := SendFrom(send, retries, delay, 0);
      assert s.outcome.Thrown? ==> forall k :: 0 <= k < retries ==> send(k).Rejected?;
      SendRun(warm, s)
  }

  /** The warm-up pings decide nothing: the send phase is the same whatever
      the pings answer. */
  lemma SendIgnoresWarmUp<R>(p1: nat -> bool, p2: nat -> bool, send: nat -> Attempt<R>, retries: int, delay: nat)
    ensures SendMessageWithRetry(p1, send, retries, delay).send == SendMessageWithRetry(p2, send, retries, delay).send
  {
  }

  // ---------------------------------------------------------------------
  // background.ts: sendMessageToTab
  // ---------------------------------------------------------------------

  const InjectionSettleMs: nat := 500

  /** What the browser answers in one delivery attempt: the PING, the script
      injection (only tried when the PING fails), the PING after injection,
      and finally the message itself. */
  datatype TabAttempt = TabAttempt(ping: bool, injected: bool, pingAfterInject: bool, sent: bool)

  predicate ContentScriptReachable(a: TabAttempt) {
    a.ping || (a.injected && a.pingAfterInject)
  }

  predicate AttemptDelivers(a: TabAttempt) {
    ContentScriptReachable(a) && a.sent
  }

  /** A delivery run: whether the message got through, how many attempts
      ran, the pauses between attempts, how many attempts ran the injection
      and how many of those paused `InjectionSettleMs` after injecting. */
  datatype TabRun = TabRun(delivered: bool, attempts: nat, waits: seq<nat>, injections: nat, settles: nat)

  function TabFrom(attempt: nat -> TabAttempt, retries: int, delay: nat, k: nat): (r: TabRun)
    requires k < retries
    ensures 1 <= r.attempts && k + r.attempts <= retries
    ensures forall j :: k <= j < k + r.attempts - 1 ==> !AttemptDelivers(attempt(j))
    ensures r.delivered ==> AttemptDelivers(attempt(k + r.attempts - 1))
    ensures !r.delivered ==> k + r.attempts == retries && !AttemptDelivers(attempt(retries - 1))
    ensures |r.waits| == r.attempts - 1
    ensures forall n :: 0 <= n < |r.waits| ==> r.waits[n] == delay
    ensures r.settles <= r.injections <= r.attempts
    decreases retries - k
  {
    var a := attempt(k);
    var injected := if a.ping then 0 else 1;
    var settled := if !a.ping && a.injected then 1 else 0;
    if AttemptDelivers(a) then TabRun(true, 1, [], injected, settled)
    else if k == retries - 1 then TabRun(false, 1, [], injected, settled)
    else
      var rest := TabFrom(attempt, retries, delay, k + 1);
      TabRun(rest.delivered, rest.attempts + 1, [delay] + rest.waits, rest.injections + injected, rest.settles + settled)
  }

  /** `sendMessageToTab(tabId, message, retries, delay)`: at most `retries`
      attempts; true on the first delivered message, false once every
      attempt failed; a pause of `delay` between attempts and none after the
      last. */
  function SendMessageToTab(attempt: nat -> TabAttempt, retries: int, delay: nat): (r: TabRun)
    ensures retries <= 0 ==> !r.delivered && r.attempts == 0 && r.waits == []
    ensures retries > 0 ==> 1 <= r.attempts <= retries && |r.waits| == r.attempts - 1
    ensures r.delivered <==> exists k :: 0 <= k < retries && AttemptDelivers(attempt(k))
    ensures r.delivered ==>
              AttemptDelivers(attempt(r.attempts - 1))
              && forall j :: 0 <= j < r.attempts - 1 ==> !AttemptDelivers(attempt(j))
    ensures !r.delivered && retries > 0 ==> r.attempts == retries
    ensures forall n :: 0 <= n < |r.waits| ==> r.waits[n] == delay
    ensures r.settles <= r.injections <= r.attempts
  {
    if retries <= 0 then TabRun(false, 0, [], 0, 0)
    else TabFrom(attempt, retries, delay, 0)
  }
}
