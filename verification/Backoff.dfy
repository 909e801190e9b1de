/**
 Waiting: the jittered check-in interval, the delay after failures, and the client's retry loop.
 Durations are nanoseconds; they are unbounded except where the source's 64-bit product can wrap.
 */
module Backoff {
  import opened Basics
  import opened GoStrings

  const SECOND := 1_000_000_000
  const ACTIVE_INTERVAL := 15 * SECOND
  const MAX_DEGRADED := 300 * SECOND
  const MAX_RETRY_AFTER := 300 * SECOND

  // ------------------------------------------------------ check-in delay

  // The interval before jitter.
  function Interval(idle: int, active: bool): (i: int)
    ensures i > 0
  {
    if active && idle > ACTIVE_INTERVAL then ACTIVE_INTERVAL
    else if idle <= 0 then 15 * SECOND
    else idle
  }

  /** The jittered interval stays within a fifth of the interval, below the upper end. */
  method NextCheckinInterval(idle: int, active: bool) returns (j: int)
    ensures 4 * Interval(idle, active) <= 5 * j < 6 * Interval(idle, active)
    ensures (active && idle > 15_000_000_000) || idle <= 0 ==> 12_000_000_000 <= j < 18_000_000_000
    ensures !active && idle > 0 ==> 4 * idle <= 5 * j < 6 * idle
  {
    var interval := idle;
    if active && idle > ACTIVE_INTERVAL { interval := ACTIVE_INTERVAL; }
    if interval <= 0 { interval := 15 * SECOND; }
    var base := interval * 2 / 5;
    if base <= 0 { return interval; }
    var jitter :| 0 <= jitter < base;
    j := interval - interval / 5 + jitter;
  }

  function DegradedDelay(failures: nat, interval: int): int {
    Min(MAX_DEGRADED, Pow2(if failures < 3 then failures else 3) * interval)
  }

  /**
   A rate limit sets the delay; without one it doubles with each failure up to the third. Neither exceeds five
   minutes.
   */
  method ComputeCheckinDelay(idle: int, active: bool, failures: int, rateLimited: int)
      returns (delay: int, interval: int)
    ensures rateLimited > 0 ==> delay == Min(rateLimited, 300_000_000_000)
    ensures rateLimited <= 0 && failures >= 1 ==>
              delay == Min(interval * (if failures == 1 then 2 else if failures == 2 then 4 else 8), 300_000_000_000)
    ensures rateLimited <= 0 ==> 4 * Interval(idle, active) <= 5 * interval < 6 * Interval(idle, active)
    ensures rateLimited <= 0 && failures <= 0 ==> delay == interval
    ensures rateLimited <= 0 && failures >= 1 ==> delay == DegradedDelay(failures, interval)
  {
    interval := 0;
    if rateLimited > 0 {
      if rateLimited > MAX_DEGRADED { return MAX_DEGRADED, interval; }
      return rateLimited, interval;
    }
    interval := NextCheckinInterval(idle, active);
    if failures <= 0 { return interval, interval; }
    var multiplier := 1;
    var i := 0;
    while i < failures && multiplier < 8
      invariant 0 <= i <= failures && i <= 3 && multiplier == Pow2(i)
      decreases failures - i
    {
      multiplier := multiplier * 2;
      if multiplier > 8 { multiplier := 8; }
      i := i + 1;
    }
    assert i == Min(failures, 3);
    assert Pow2(1) == 2 && Pow2(2) == 4 && Pow2(3) == 8;
    delay := interval * multiplier;
    if delay > MAX_DEGRADED { delay := MAX_DEGRADED; }
  }

  /** More failures never shorten the delay. */
  lemma DelayMonotone(f: nat, g: nat, interval: int)
    requires f <= g && interval > 0
    ensures DegradedDelay(f, interval) <= DegradedDelay(g, interval) <= MAX_DEGRADED
  {
    var (a, b) := (if f < 3 then f else 3, if g < 3 then g else 3);
    Pow2Monotone(a, b);
    Scale(Pow2(a), Pow2(b), interval);
  }

  lemma Scale(a: int, b: int, c: int)
    requires a <= b && c > 0
    ensures a * c <= b * c
  {
  }

  // --------------------------------------------------------------- retry

  datatype Failure = Plain | Http(status: int, retryAfter: int)

  // What one call does.
  datatype Call = Good(value: int) | Bad(error: Failure)

  datatype Result =
    | Done(value: int)
    | Failed(error: Failure)
    | Cancelled
    | Nothing                             // the zero value and no error: there was no attempt to make

  // Client errors, rate limits among them, are final.
  predicate Retryable(e: Failure) { e.Plain? || !(400 <= e.status < 500) }

  function Hint(e: Failure): (after: nat) {
    if e.Http? && Retryable(e) && e.retryAfter > 0 then e.retryAfter else 0
  }

  method RetryDecision(e: Failure) returns (after: nat, retryable: bool)
    ensures retryable <==> Retryable(e)
    ensures after == Hint(e)
    ensures retryable <==> e.Plain? || e.status < 400 || e.status >= 500
    ensures after == if e.Http? && !(400 <= e.status < 500) && e.retryAfter > 0 then e.retryAfter else 0
  {
    if e.Plain? { return 0, true; }
    if e.status == 429 { return 0, false; }
    if e.status >= 400 && e.status < 500 { return 0, false; }
    if e.retryAfter > 0 { return e.retryAfter, true; }
    return 0, true;
  }

  // How many of the first n failures came without a hint.
  function Unhinted(calls: nat -> Call, n: nat): (k: nat)
    ensures k <= n
  {
    if n == 0 then 0 else
    Unhinted(calls, n - 1) + if calls(n - 1).Bad? && Hint(calls(n - 1).error) > 0 then 0 else 1
  }

  // The backoff after k doublings: it stops growing once it has reached ten seconds.
  function BackoffAfter(k: nat): int { Pow2(if k < 4 then k else 4) * SECOND }

  // The wait after the n-th call, should it fail: the server's hint, or the backoff.
  function Wait(calls: nat -> Call, n: nat): int {
    if calls(n).Bad? && Hint(calls(n).error) > 0 then Hint(calls(n).error) else BackoffAfter(Unhinted(calls, n))
  }

  function Waits(calls: nat -> Call, n: nat): seq<int> {
    if n == 0 then [] else Waits(calls, n - 1) + [Wait(calls, n - 1)]
  }

  lemma BackoffStep(k: nat)
    ensures BackoffAfter(k + 1) == if BackoffAfter(k) < 10 * SECOND then 2 * BackoffAfter(k) else BackoffAfter(k)
  {
    assert Pow2(4) == 16 && Pow2(3) == 8 && Pow2(2) == 4 && Pow2(1) == 2;
  }

  // Calls 0 to n - 1 were made and each failed in a way that lets the loop go on.
  ghost predicate KeptTrying(calls: nat -> Call, n: nat) {
    n == 0 || (KeptTrying(calls, n - 1) && calls(n - 1).Bad? && Retryable(calls(n - 1).error))
  }

  /**
   The retry loop, over the outcomes of the calls and of the waits. It makes no more calls than asked for, stops
   at the first success or final error, and between two calls waits as long as the server asked or the backoff says.
   */
  method Retry(attempts: int, calls: nat -> Call, cancels: nat -> bool)
    returns (result: Result, made: nat, waits: seq<int>)
    ensures made <= (if attempts > 0 then attempts else 0) && (attempts > 0 ==> made > 0)
    ensures KeptTrying(calls, if made > 0 then made - 1 else 0)
    ensures result.Nothing? <==> attempts <= 0
    ensures result.Done? ==> calls(made - 1) == Good(result.value)
    ensures result.Failed? ==> calls(made - 1) == Bad(result.error) && (Retryable(result.error) ==> made == attempts)
    ensures result.Cancelled? ==> made < attempts && cancels(made - 1) && KeptTrying(calls, made)
    ensures waits == Waits(calls, if made == 0 then 0 else if result.Cancelled? then made else made - 1)
  {
    var backoff := SECOND;
    waits, made, result := [], 0, Nothing;
    var i: nat := 0;
    while i < attempts
      invariant made == i && waits == Waits(calls, if i < attempts || i == 0 then i else i - 1)
      invariant if attempts > 0 then i <= attempts else i == 0
      invariant KeptTrying(calls, i)
      invariant if i == 0 then result == Nothing else calls(i - 1).Bad? && result == Failed(calls(i - 1).error)
      invariant i < attempts ==> backoff == BackoffAfter(Unhinted(calls, i))
      decreases attempts - i
    {
      made := made + 1;
      match calls(i) {
        case Good(value) => return Done(value), made, waits;
        case Bad(error) =>
          result := Failed(error);
          var after, retryable := RetryDecision(error);
          if !retryable { return; }
          if i < attempts - 1 {
            var wait := backoff;
            if after > 0 { wait := after; }
            waits := waits + [wait];
            if cancels(i) { return Cancelled, made, waits; }
            BackoffStep(Unhinted(calls, i));
            if after == 0 && backoff < 10 * SECOND { backoff := backoff * 2; }
          }
          i := i + 1;
      }
    }
  }

  // The server said how long to wait after this call.
  ghost predicate Hinted(c: Call) {
    c.Bad? && c.error.Http? && !(400 <= c.error.status < 500) && c.error.retryAfter > 0
  }

  lemma {:induction false} UnhintedCounts(calls: nat -> Call, n: nat)
    ensures Unhinted(calls, n) == |set i: nat | i < n && !Hinted(calls(i))|
  {
    if n > 0 {
      UnhintedCounts(calls, n - 1);
      var fewer, all := set i: nat | i < n - 1 && !Hinted(calls(i)), set i: nat | i < n && !Hinted(calls(i));
      assert all == if Hinted(calls(n - 1)) then fewer else fewer + {n - 1};
    }
  }

  /** A wait is the server's hint or, without one, a second doubled for each earlier call without one, up to 16. */
  lemma WaitMeans(calls: nat -> Call, n: nat, k: nat)
    requires k < n
    ensures |Waits(calls, n)| == n
    ensures var earlier := set i: nat | i < k && !Hinted(calls(i));
            Waits(calls, n)[k] == if Hinted(calls(k)) then calls(k).error.retryAfter
                                  else Min(Pow2(|earlier|), 16) * SECOND
  {
    WaitsLength(calls, n);
    UnhintedCounts(calls, k);
    Sixteen(Unhinted(calls, k));
  }

  lemma {:induction false} WaitsLength(calls: nat -> Call, n: nat)
    ensures |Waits(calls, n)| == n && forall k: nat :: k < n ==> Waits(calls, n)[k] == Wait(calls, k)
  {
    if n > 0 { WaitsLength(calls, n - 1); }
  }

  /** Without hints the waits are 1, 2, 4, 8 seconds and from then on 16. */
  lemma {:induction false} PlainWaits(calls: nat -> Call, n: nat)
    requires forall i: nat :: i <= n ==> calls(i).Bad? && Hint(calls(i).error) == 0
    ensures Unhinted(calls, n) == n
    ensures Wait(calls, n) == Min(Pow2(n), 16) * SECOND
  {
    if n > 0 { PlainWaits(calls, n - 1); }
    Sixteen(n);
  }

  lemma Sixteen(n: nat)
    ensures Pow2(if n < 4 then n else 4) == Min(Pow2(n), 16)
  {
    assert Pow2(4) == 16;
    if n >= 4 { Pow2Monotone(4, n); } else { Pow2Monotone(n, 4); }
  }

  // ------------------------------------------------------- Retry-After

  const TWO63 := 0x8000_0000_0000_0000

  // A product of durations in 64 bits.
  function Wrap(n: int): (w: int)
    ensures -TWO63 <= w < TWO63
  {
    var m := n % (2 * TWO63);
    if m < TWO63 then m else m - 2 * TWO63
  }

  function Decimal(s: string): nat {
    if s == "" then 0
    else 10 * Decimal(s[..|s| - 1]) + if '0' <= s[|s| - 1] <= '9' then s[|s| - 1] as nat - '0' as nat else 0
  }

  predicate IsDecimal(s: string) { s != "" && forall c :: c in s ==> '0' <= c <= '9' }

  /** until is how far ahead the header's date lies, if it is one. */
  function ParseRetryAfter(header: string, until: int): (d: int)
    ensures d <= MAX_RETRY_AFTER
  {
    var t := TrimSpace(header);
    if IsDecimal(t) then
      var n := Decimal(t);
      if n >= TWO63 || n == 0 then 0 else Min(Wrap(n * SECOND), MAX_RETRY_AFTER)
    else if t != "" && until > 0 then Min(until, MAX_RETRY_AFTER)
    else 0
  }

  /** A header that is no number of seconds counts as a date, if it lies ahead; a blank one asks for nothing. */
  lemma RetryAfterDate(header: string, until: int)
    ensures TrimSpace(header) == "" ==> ParseRetryAfter(header, until) == 0
    ensures TrimSpace(header) != "" && (exists c :: c in TrimSpace(header) && !('0' <= c <= '9')) ==>
              ParseRetryAfter(header, until) == if until > 0 then Min(until, 300 * SECOND) else 0
  {
  }

  const MAX_SECONDS := 9_223_372_036    // the most seconds a 64-bit duration holds

  /**
   A number of seconds is honoured up to five minutes if it fits a duration; beyond that only if it fits the
   integer and the wrapped product happens to reach the five minutes.
   */
  lemma RetryAfterHonoured(header: string, until: int)
    requires IsDecimal(TrimSpace(header))
    ensures var n := Decimal(TrimSpace(header));
            ParseRetryAfter(header, until) == Min(n, 300) * SECOND
            <==> n <= MAX_SECONDS || (n < TWO63 && Wrap(n * SECOND) >= MAX_RETRY_AFTER)
  {
  }

  /** One second more and the product wraps: the hint comes out negative and is ignored. */
  lemma RetryAfterWraps(header: string, until: int)
    requires IsDecimal(TrimSpace(header)) && Decimal(TrimSpace(header)) == MAX_SECONDS + 1
    ensures ParseRetryAfter(header, until) < 0 && Hint(Http(503, ParseRetryAfter(header, until))) == 0
  {
  }
}
