// Executing an operation with retries.
module Retry {
  import opened Wrappers
  import opened Backoff

  datatype Response = Response(status: int, body: string)

  /** Error envelopes (unavailable, timed out) are final; other transport errors may be retried. */
  datatype CallError = Envelope(code: string) | Transport(message: string)

  datatype Failure = CallFailed(error: CallError) | Cancelled

  type Outcome = Result<Response, CallError>

  predicate IsIdempotentMethod(m: string) {
    m == "GET" || m == "PUT" || m == "DELETE" || m == "HEAD" || m == "OPTIONS"
  }

  /** The safe methods of section 9.2.1 of RFC 9110. */
  const SAFE_METHODS: set<string> := {"GET", "HEAD", "OPTIONS", "TRACE"}

  /** Section 9.2.2 of RFC 9110: PUT, DELETE and the safe methods are idempotent. */
  predicate IsIdempotentByStandard(m: string) {
    m in SAFE_METHODS || m == "PUT" || m == "DELETE"
  }

  predicate IsRetryableStatus(code: int) {
    code == 500 || code == 502 || code == 503 || code == 504
  }

  predicate IsRetryableError(e: CallError) {
    e.Transport?
  }

  predicate CanRetry(c: RetryConfig, httpMethod: string) {
    IsIdempotentMethod(httpMethod) || !c.idempotentOnly
  }

  function Attempts(c: RetryConfig): (n: nat)
    ensures n >= 1
  {
    if c.maxAttempts < 1 then 1 else c.maxAttempts
  }

  /** A failed or unsatisfactory call after which another may be worthwhile. */
  predicate IsTransient(o: Outcome) {
    match o
    case Err(e) => IsRetryableError(e)
    case Ok(r) => IsRetryableStatus(r.status)
  }

  function Final(o: Outcome): Result<Response, Failure> {
    match o
    case Err(e) => Err(CallFailed(e))
    case Ok(r) => Ok(r)
  }

  /**
   * What a run of the loop amounts to. Uncancelled, it is the outcome of the last call made, all earlier
   * ones were transient, and it stopped for a reason; cancelled, it had waited after a transient call.
   */
  ghost predicate IsRun(c: RetryConfig, httpMethod: string, outcome: nat -> Outcome, cancelled: nat -> bool,
                        r: Result<Response, Failure>, calls: nat) {
    && 1 <= calls <= Attempts(c)
    && (calls > 1 ==> CanRetry(c, httpMethod))
    && (forall k: nat :: k < calls - 1 ==> IsTransient(outcome(k)))
    && (forall k: nat :: 1 <= k < calls ==> !cancelled(k))
    && if calls < Attempts(c) && CanRetry(c, httpMethod) && IsTransient(outcome(calls - 1))
       then cancelled(calls) && r == Err(Cancelled)
       else r == Final(outcome(calls - 1))
  }

  /**
   * outcome(k) is what call k would return; cancelled(k) whether the context ends while waiting before it.
   * waited lists the delays spent.
   */
  method ExecuteWithRetry(c: RetryConfig, httpMethod: string, outcome: nat -> Outcome, cancelled: nat -> bool)
    returns (r: Result<Response, Failure>, calls: nat, waited: int)
    ensures IsRun(c, httpMethod, outcome, cancelled, r, calls)
    ensures waited == TotalDelay(c, calls)
  {
    var maxAttempts := Attempts(c);
    var canRetry := IsIdempotentMethod(httpMethod) || !c.idempotentOnly;
    var lastErr: Option<CallError> := None;
    var lastResult := Response(0, "");
    calls, waited := 0, 0;
    for attempt := 0 to maxAttempts
      invariant calls == attempt
      invariant waited == TotalDelay(c, calls)
      invariant calls > 0 ==> canRetry
      invariant forall k: nat :: k < calls ==> IsTransient(outcome(k))
      invariant forall k: nat :: 1 <= k < calls ==> !cancelled(k)
      invariant attempt == maxAttempts ==>
                  outcome(maxAttempts - 1).Err? && lastErr == Some(outcome(maxAttempts - 1).error)
    {
      if attempt > 0 {
        var delay := CalculateBackoff(c, attempt);
        if cancelled(attempt) {
          return Err(Cancelled), calls, waited;
        }
        waited := waited + delay;
      }
      var result := outcome(attempt);
      calls := calls + 1;
      if result.Err? {
        lastErr := Some(result.error);
        if !canRetry || !IsRetryableError(result.error) {
          return Err(CallFailed(result.error)), calls, waited;
        }
        continue;
      }
      if IsRetryableStatus(result.value.status) && canRetry && attempt < maxAttempts - 1 {
        lastResult := result.value;
        continue;
      }
      return Ok(result.value), calls, waited;
    }
    if lastErr.Some? {
      return Err(CallFailed(lastErr.value)), calls, waited;
    }
    // The loop is left only after its last attempt failed, so the remembered response is never returned.
    assert false;
    r := Ok(lastResult);
  }

  /** A run is determined by its oracle: there is exactly one number of calls and one result. */
  lemma RunUnique(c: RetryConfig, httpMethod: string, outcome: nat -> Outcome, cancelled: nat -> bool,
                  r1: Result<Response, Failure>, n1: nat, r2: Result<Response, Failure>, n2: nat)
    requires IsRun(c, httpMethod, outcome, cancelled, r1, n1) && IsRun(c, httpMethod, outcome, cancelled, r2, n2)
    ensures r1 == r2 && n1 == n2
  {
  }

  /** Worth another call: a transport error, or one of four server statuses. */
  predicate MayPass(o: Outcome) {
    match o
    case Err(e) => e.Transport?
    case Ok(r) => r.status in {500, 502, 503, 504}
  }

  predicate MayRepeat(c: RetryConfig, httpMethod: string) {
    !c.idempotentOnly || httpMethod in {"GET", "HEAD", "PUT", "DELETE", "OPTIONS"}
  }

  /**
   * Uncancelled, another call is made exactly when the last outcome may pass, the method may be repeated and attempts
   * are left.
   */
  lemma CalledAgainExactly(c: RetryConfig, httpMethod: string, outcome: nat -> Outcome, cancelled: nat -> bool,
                           r: Result<Response, Failure>, calls: nat, k: nat)
    requires IsRun(c, httpMethod, outcome, cancelled, r, calls) && k < calls
    requires forall n: nat :: !cancelled(n)
    ensures k + 1 < calls <==> MayPass(outcome(k)) && MayRepeat(c, httpMethod) && k + 1 < c.maxAttempts
  {
    assert MayPass(outcome(k)) <==> IsTransient(outcome(k));
    assert MayRepeat(c, httpMethod) <==> CanRetry(c, httpMethod);
  }

  /** Between two calls the delay of that attempt is waited, and nothing before the first. */
  lemma WaitsBetweenCalls(c: RetryConfig, calls: nat)
    ensures TotalDelay(c, 0) == 0 && TotalDelay(c, 1) == 0
    ensures calls >= 1 ==> TotalDelay(c, calls + 1) - TotalDelay(c, calls) == Delay(c, calls)
  {
  }

  /** At most max(1, MaxAttempts) calls, one only when retrying is disallowed, and never a swallowed outcome. */
  lemma RetryOutcome(c: RetryConfig, httpMethod: string, outcome: nat -> Outcome, cancelled: nat -> bool,
                     r: Result<Response, Failure>, calls: nat)
    requires IsRun(c, httpMethod, outcome, cancelled, r, calls)
    ensures calls <= (if c.maxAttempts < 1 then 1 else c.maxAttempts)
    ensures !CanRetry(c, httpMethod) ==> calls == 1
    ensures c.idempotentOnly && !IsIdempotentByStandard(httpMethod) ==> calls == 1
    ensures r != Err(Cancelled) ==> r == Final(outcome(calls - 1))
    ensures (forall k: nat :: !cancelled(k)) ==>
              && r == Final(outcome(calls - 1))
              && (calls == Attempts(c) || !CanRetry(c, httpMethod) || !IsTransient(outcome(calls - 1)))
    ensures TotalDelay(c, calls) <= TotalDelay(c, Attempts(c))
  {
    if calls > 1 {
      assert IsTransient(outcome(0));
    }
    TotalDelayMonotone(c, calls, Attempts(c));
  }

  lemma {:induction false} TotalDelayMonotone(c: RetryConfig, a: nat, b: nat)
    requires a <= b
    ensures TotalDelay(c, a) <= TotalDelay(c, b)
    decreases b
  {
    if a < b {
      TotalDelayMonotone(c, a, b - 1);
      DelayBounds(c, b - 1);
    }
  }

  /** What is retried as idempotent is so by the standard; of its methods only TRACE is missing. */
  lemma IdempotentMethodsExact()
    ensures (set m | m in SAFE_METHODS + {"PUT", "DELETE"} && IsIdempotentMethod(m)) ==
            SAFE_METHODS + {"PUT", "DELETE"} - {"TRACE"}
    ensures forall m :: IsIdempotentMethod(m) ==> IsIdempotentByStandard(m)
  {
  }
}
