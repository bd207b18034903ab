/**
  Outbound requests with a bounded retry (crates/server/src/sources/transport.rs).

  The service is an arbitrary sequence of attempts. Times are in milliseconds.
*/
module Retry {
  import opened Collections
  import opened Digits
  import opened Texts

  // ----- Retry-After -----

  /** The largest `u64`: a longer digit run saturates to it. */
  const U64_MAX: nat := 0xFFFF_FFFF_FFFF_FFFF

  /** `parse_retry_after_value`: the delta-seconds form of section 10.2.3 of RFC 9110, clamped to `max`. */
  function ParseRetryAfter(value: string, max: nat): Option<nat> {
    var trimmed := Trim(value, IsRustSpace);
    if trimmed == "" || !AllDigits(trimmed) then None
    else Some(Min(Min(Value(trimmed), U64_MAX) * 1000, max))
  }

  /** A digit run of any length gives its seconds, clamped: the saturation never shows. */
  lemma DelayIsClamped(value: string, max: nat)
    requires max <= U64_MAX * 1000
    ensures var trimmed := Trim(value, IsRustSpace);
            ParseRetryAfter(value, max)
            == if trimmed != "" && AllDigits(trimmed) then Some(Min(Value(trimmed) * 1000, max)) else None
  {
    var trimmed := Trim(value, IsRustSpace);
    if AllDigits(trimmed) && Value(trimmed) > U64_MAX {
      assert Value(trimmed) * 1000 >= U64_MAX * 1000;
    }
  }

  // ----- The attempts -----

  datatype Attempts = Attempts(timeout: nat, retries: nat, retryAfterMax: nat)

  /** One attempt at the service. `retryAfter` is the header, `isFailure` the caller's reading of the body. */
  datatype Reply = Broken(duration: nat)
                 | Answered(duration: nat, status: nat, retryAfter: Option<string>, isFailure: bool)

  datatype TransportError = RateLimited(retryAfter: Option<nat>) | Status(status: nat) | Failed

  /** The outcome of one attempt under its deadline. */
  function Bounded(a: Attempts, reply: Reply): Reply {
    if reply.duration <= a.timeout then reply else Broken(a.timeout)
  }

  function DelayOf(a: Attempts, reply: Reply): Option<nat> {
    if reply.Answered? && reply.retryAfter.Some? then ParseRetryAfter(reply.retryAfter.value, a.retryAfterMax) else None
  }

  predicate IsSuccess(reply: Reply, manualRedirects: bool) {
    reply.Answered? && (200 <= reply.status < 300 || (manualRedirects && 300 <= reply.status < 400))
  }

  /** The attempt decides the call, whatever the budget: a success that the caller accepts, or a 4xx other than 429. */
  predicate Decides(reply: Reply, manualRedirects: bool) {
    && reply.Answered?
    && if IsSuccess(reply, manualRedirects) then !reply.isFailure
       else 400 <= reply.status < 500 && reply.status != 429
  }

  /** How the call ends when `reply` is its last attempt. */
  function OutcomeOf(a: Attempts, reply: Reply, manualRedirects: bool): Result<Reply, TransportError> {
    if reply.Broken? then Err(Failed)
    else if reply.status == 429 then Err(RateLimited(DelayOf(a, reply)))
    else if IsSuccess(reply, manualRedirects) then Ok(reply)
    else Err(Status(reply.status))
  }

  /** One attempt in terms of the service's own reply: its time, its outcome, and whether it decides the call. */
  lemma AttemptIs(a: Attempts, reply: Reply, manualRedirects: bool)
    ensures Bounded(a, reply).duration == Min(reply.duration, a.timeout)
    ensures var r := OutcomeOf(a, Bounded(a, reply), manualRedirects);
            if !reply.Answered? || reply.duration > a.timeout then r == Err(Failed)
            else if reply.status == 429 then
              r == Err(RateLimited(if reply.retryAfter.None? then None
                                   else ParseRetryAfter(reply.retryAfter.value, a.retryAfterMax)))
            else if reply.status / 100 == 2 || (manualRedirects && reply.status / 100 == 3) then r == Ok(reply)
            else r == Err(Status(reply.status))
    ensures Decides(Bounded(a, reply), manualRedirects)
       <==> && reply.Answered? && reply.duration <= a.timeout && reply.status != 429
            && (reply.status / 100 == 4
                || (reply.status / 100 == 2 && !reply.isFailure)
                || (reply.status / 100 == 3 && manualRedirects && !reply.isFailure))
  {
  }

  /** The time of the first `n` attempts, with the delay after each that is repeated. */
  function TimeOf(a: Attempts, service: nat -> Reply, n: nat): nat {
    if n == 0 then 0
    else TimeOf(a, service, n - 1) + Bounded(a, service(n - 1)).duration
  }

  function DelaysOf(a: Attempts, service: nat -> Reply, n: nat): nat {
    if n == 0 then 0
    else
      var reply := Bounded(a, service(n - 1));
      DelaysOf(a, service, n - 1)
      + if reply.Answered? && reply.status == 429 then DelayOf(a, reply).GetOr(0) else 0
  }

  lemma {:induction false} TimesAreBounded(a: Attempts, service: nat -> Reply, n: nat)
    ensures TimeOf(a, service, n) <= n * a.timeout && DelaysOf(a, service, n) <= n * a.retryAfterMax
  {
    if n > 0 {
      TimesAreBounded(a, service, n - 1);
      assert n * a.timeout == (n - 1) * a.timeout + a.timeout;
      assert n * a.retryAfterMax == (n - 1) * a.retryAfterMax + a.retryAfterMax;
    }
  }

  /**
    `send_retrying`: the outcome, the number of requests sent, and the time passed. The call
    stops at the first attempt that decides it or at the end of the budget, and returns the
    outcome of that attempt.
  */
  method SendRetrying(service: nat -> Reply, a: Attempts, manualRedirects: bool)
    returns (r: Result<Reply, TransportError>, sent: nat, elapsed: nat)
    ensures 1 <= sent <= a.retries + 1
    ensures r == OutcomeOf(a, Bounded(a, service(sent - 1)), manualRedirects)
    ensures forall k :: 0 <= k < sent - 1 ==> !Decides(Bounded(a, service(k)), manualRedirects)
    ensures sent == a.retries + 1 || Decides(Bounded(a, service(sent - 1)), manualRedirects)
    ensures elapsed == TimeOf(a, service, sent) + DelaysOf(a, service, sent - 1)
  {
    var attempt := 0;
    var last: TransportError := Failed;
    elapsed := 0;
    while attempt <= a.retries
      invariant attempt <= a.retries + 1
      invariant elapsed == TimeOf(a, service, attempt)
                         + DelaysOf(a, service, if attempt <= a.retries then attempt else attempt - 1)
      invariant forall k :: 0 <= k < attempt ==> !Decides(Bounded(a, service(k)), manualRedirects)
      invariant attempt == a.retries + 1 ==>
                  Err(last) == OutcomeOf(a, Bounded(a, service(attempt - 1)), manualRedirects)
      decreases a.retries + 1 - attempt
    {
      var reply := Bounded(a, service(attempt));
      assert TimeOf(a, service, attempt + 1) == TimeOf(a, service, attempt) + reply.duration;
      assert DelaysOf(a, service, attempt + 1) == DelaysOf(a, service, attempt)
          + if reply.Answered? && reply.status == 429 then DelayOf(a, reply).GetOr(0) else 0;
      elapsed := elapsed + reply.duration;
      sent := attempt + 1;
      if reply.Broken? {
        last := Failed;
        attempt := attempt + 1;
        continue;
      }
      if reply.status == 429 {
        var retryAfter := DelayOf(a, reply);
        if attempt < a.retries {
          attempt := attempt + 1;
          elapsed := elapsed + retryAfter.GetOr(0);
          continue;
        }
        return Err(RateLimited(retryAfter)), sent, elapsed;
      }
      if IsSuccess(reply, manualRedirects) {
        if attempt < a.retries && reply.isFailure {
          attempt := attempt + 1;
          continue;
        }
        return Ok(reply), sent, elapsed;
      }
      if 400 <= reply.status < 500 {
        return Err(Status(reply.status)), sent, elapsed;
      }
      last := Status(reply.status);
      attempt := attempt + 1;
    }
    return Err(last), attempt, elapsed;
  }

  lemma ProductGrows(m: nat, n: nat, x: nat)
    requires m <= n
    ensures m * x <= n * x
  {
    assert n * x == m * x + (n - m) * x;
  }

  /** A call takes at most (retries + 1) * timeout + retries * longest delay. */
  lemma CallIsBounded(a: Attempts, service: nat -> Reply, sent: nat)
    requires 1 <= sent <= a.retries + 1
    ensures TimeOf(a, service, sent) + DelaysOf(a, service, sent - 1)
         <= (a.retries + 1) * a.timeout + a.retries * a.retryAfterMax
  {
    TimesAreBounded(a, service, sent);
    TimesAreBounded(a, service, sent - 1);
    ProductGrows(sent, a.retries + 1, a.timeout);
    ProductGrows(sent - 1, a.retries, a.retryAfterMax);
  }
}
