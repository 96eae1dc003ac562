/** The retry loop of `CheckForUpdate` and its interruptible sleeps (src/client/downloader.c). */
module Retry {
  import opened Prelude
  import opened Downloader

  /** Whether a stop has been requested when the flag is looked at for the `n`-th time. */
  type StopFlag = nat -> bool

  /** The flag is only ever set. */
  ghost predicate Sticky(stop: StopFlag) {
    forall m: nat, n: nat | m <= n && stop(m) :: stop(n)
  }

  /** What the `n`-th call of `run_attempt` returns. */
  type Attempts = nat -> AttemptResult

  predicate Plain(r: AttemptResult) { r.Retry? || r.Reconnect? }

  function PlainCount(results: Attempts, n: nat): nat {
    if n == 0 then 0 else PlainCount(results, n - 1) + if Plain(results(n - 1)) then 1 else 0
  }

  function ResumeCount(results: Attempts, n: nat): nat {
    if n == 0 then 0 else ResumeCount(results, n - 1) + if results(n - 1).ResumeReconnect? then 1 else 0
  }

  const RECONNECT_MS := 10000

  /** The wait after a result at a given attempt number; after the last attempt there is none. */
  function Wait(r: AttemptResult, attempt: nat, retryMax: nat, backoffMs: nat): nat {
    if attempt >= retryMax then 0
    else if r.Retry? then backoffMs * attempt
    else if r.Reconnect? then RECONNECT_MS
    else 0
  }

  /** All the waits after the first `n` results; resumed attempts do not advance the attempt number. */
  function Waits(results: Attempts, n: nat, retryMax: nat, backoffMs: nat): nat {
    if n == 0 then 0
    else Waits(results, n - 1, retryMax, backoffMs) + Wait(results(n - 1), 1 + PlainCount(results, n - 1), retryMax, backoffMs)
  }

  /**
   `interruptible_sleep_ms`: steps of at most 100 ms while no stop is requested. `looks` and `looked`
   count the looks at the flag.
   */
  method InterruptibleSleep(stop: StopFlag, looks: nat, totalMs: nat) returns (slept: nat, looked: nat, stopped: bool)
    requires Sticky(stop)
    ensures slept <= totalMs && looks < looked
    ensures slept <= 100 * (looked - looks - 1)
    ensures !stopped ==> slept == totalMs
    ensures stopped <==> stop(looked - 1)
  {
    slept, looked := 0, looks;
    var seen := false;
    while slept < totalMs && !seen
      invariant slept <= totalMs && looks <= looked && slept <= 100 * (looked - looks)
      invariant seen ==> looks < looked && stop(looked - 1)
      decreases totalMs - slept, !seen
    {
      seen := stop(looked);
      looked := looked + 1;
      if !seen {
        var step := if totalMs - slept < 100 then totalMs - slept else 100;
        slept := slept + step;
      }
    }
    stopped := stop(looked);
    looked := looked + 1;
  }

  /** A result after which the loop goes on, at attempt number `attempt`. */
  predicate Continues(r: AttemptResult, attempt: nat, retryMax: nat) {
    Plain(r) || (r.ResumeReconnect? && attempt < retryMax)
  }

  /** The attempts are used up, the last one was fatal, or its resumed connection came at the last attempt. */
  predicate GivesUp(results: Attempts, calls: nat, retryMax: nat) {
    || PlainCount(results, calls) == retryMax
    || (calls > 0 && results(calls - 1).Fatal?)
    || (calls > 0 && results(calls - 1).ResumeReconnect? && 1 + PlainCount(results, calls - 1) >= retryMax)
  }

  lemma OneMore(results: Attempts, n: nat, retryMax: nat, backoffMs: nat)
    ensures PlainCount(results, n + 1) == PlainCount(results, n) + if Plain(results(n)) then 1 else 0
    ensures ResumeCount(results, n + 1) == ResumeCount(results, n) + if results(n).ResumeReconnect? then 1 else 0
    ensures Waits(results, n + 1, retryMax, backoffMs) ==
            Waits(results, n, retryMax, backoffMs) + Wait(results(n), 1 + PlainCount(results, n), retryMax, backoffMs)
  {
  }

  lemma NoneYet(results: Attempts, retryMax: nat, backoffMs: nat)
    ensures PlainCount(results, 0) == 0 && ResumeCount(results, 0) == 0 && Waits(results, 0, retryMax, backoffMs) == 0
  {
  }

  /**
   `CheckForUpdate`, after the current version is read. It terminates when only finitely many attempts
   end in a resumed connection, because those do not use up an attempt number.
   */
  method CheckForUpdate(retryMax: nat, backoffMs: nat, results: Attempts, stop: StopFlag, ghost limit: nat)
    returns (rc: int, calls: nat, sleptMs: nat)
    requires Sticky(stop) && forall n: nat :: ResumeCount(results, n) <= limit
    ensures PlainCount(results, calls) <= retryMax
    ensures calls <= retryMax + ResumeCount(results, calls)
    ensures forall k: nat | k + 1 < calls :: Continues(results(k), 1 + PlainCount(results, k), retryMax)
    ensures rc == 0 <==> calls > 0 && results(calls - 1).Success?
    ensures rc == -1 <==> GivesUp(results, calls, retryMax)
    ensures rc != 0 && rc != -1 ==> rc == 130 && ((calls > 0 && results(calls - 1).Paused?) || exists n: nat :: stop(n))
    ensures rc != 130 ==> sleptMs == Waits(results, calls, retryMax, backoffMs)
  {
    hide PlainCount, ResumeCount, Waits;
    NoneYet(results, retryMax, backoffMs);
    calls, sleptMs := 0, 0;
    var looks: nat := 0;
    var attempt: nat := 1;
    while attempt <= retryMax
      invariant attempt == 1 + PlainCount(results, calls) <= retryMax + 1
      invariant calls == PlainCount(results, calls) + ResumeCount(results, calls)
      invariant forall k: nat | k < calls :: Continues(results(k), 1 + PlainCount(results, k), retryMax)
      invariant sleptMs == Waits(results, calls, retryMax, backoffMs)
      decreases retryMax + 1 - attempt, limit - ResumeCount(results, calls)
    {
      var now := stop(looks);
      looks := looks + 1;
      if now {
        return 130, calls, sleptMs;
      }
      OneMore(results, calls, retryMax, backoffMs);
      assert ResumeCount(results, calls + 1) <= limit;
      var r := results(calls);
      calls := calls + 1;
      match r {
        case Success => return 0, calls, sleptMs;
        case ResumeReconnect =>
          if attempt >= retryMax {
            return -1, calls, sleptMs;
          }
        case Reconnect =>
          if attempt >= retryMax {
            return -1, calls, sleptMs;
          }
          var slept, looked, stopped := InterruptibleSleep(stop, looks, RECONNECT_MS);
          looks, sleptMs := looked, sleptMs + slept;
          if stopped {
            return 130, calls, sleptMs;
          }
          attempt := attempt + 1;
        case Paused => return 130, calls, sleptMs;
        case Fatal => return -1, calls, sleptMs;
        case Retry =>
          if attempt < retryMax {
            var slept, looked, stopped := InterruptibleSleep(stop, looks, backoffMs * attempt);
            looks, sleptMs := looked, sleptMs + slept;
            if stopped {
              return 130, calls, sleptMs;
            }
          }
          attempt := attempt + 1;
      }
    }
    rc := -1;
  }

  function Triangle(n: nat): nat {
    if n == 0 then 0 else Triangle(n - 1) + n
  }

  lemma {:induction false} TriangleIs(n: nat)
    ensures 2 * Triangle(n) == n * (n + 1)
  {
    if n > 0 {
      TriangleIs(n - 1);
    }
  }

  lemma Distribute(a: nat, b: nat, c: nat)
    ensures a * (b + c) == a * b + a * c
  {
  }

  /** While plain retries last, the waits grow linearly with the attempt number, not exponentially. */
  lemma {:induction false} WaitsGrowLinearly(results: Attempts, n: nat, retryMax: nat, backoffMs: nat)
    requires n < retryMax && forall k: nat | k < n :: results(k).Retry?
    ensures PlainCount(results, n) == n
    ensures Waits(results, n, retryMax, backoffMs) == backoffMs * Triangle(n)
  {
    if n > 0 {
      WaitsGrowLinearly(results, n - 1, retryMax, backoffMs);
      Distribute(backoffMs, Triangle(n - 1), n);
    }
  }

  /** Lost connections, on the other hand, are retried every ten seconds. */
  lemma {:induction false} ReconnectsWaitTenSeconds(results: Attempts, n: nat, retryMax: nat, backoffMs: nat)
    requires n < retryMax && forall k: nat | k < n :: results(k).Reconnect?
    ensures PlainCount(results, n) == n
    ensures Waits(results, n, retryMax, backoffMs) == 10000 * n
  {
    if n > 0 {
      ReconnectsWaitTenSeconds(results, n - 1, retryMax, backoffMs);
    }
  }

  /** And one whose resumed hold has failed is retried at once. */
  lemma {:induction false} ResumedAreRetriedAtOnce(results: Attempts, n: nat, retryMax: nat, backoffMs: nat)
    requires forall k: nat | k < n :: results(k).ResumeReconnect?
    ensures PlainCount(results, n) == 0 && Waits(results, n, retryMax, backoffMs) == 0
  {
    if n > 0 {
      ResumedAreRetriedAtOnce(results, n - 1, retryMax, backoffMs);
    }
  }

  lemma TwiceProduct(a: nat, t: nat, m: nat)
    requires m == 2 * t
    ensures 2 * (a * t) == a * m
  {
  }

  /** Plain retries to the end: `n` attempts wait backoff * n * (n - 1) / 2 milliseconds in all. */
  lemma LinearBackoff(results: Attempts, n: nat, backoffMs: nat)
    requires n > 0 && forall k: nat | k < n :: results(k).Retry?
    ensures 2 * Waits(results, n, n, backoffMs) == backoffMs * ((n - 1) * n)
  {
    WaitsGrowLinearly(results, n - 1, n, backoffMs);
    TriangleIs(n - 1);
    hide Triangle, Waits;
    OneMore(results, n - 1, n, backoffMs);
    TwiceProduct(backoffMs, Triangle(n - 1), (n - 1) * n);
  }
}
