/** The retry and backoff loop of `_perform_async_upload`
    (modules/async_upload_manager.py).

    The network is not modelled: what each attempt ends in (a parsed pair of
    URLs, or an exception that `is_retryable_error` does or does not accept)
    is an input sequence, one entry per attempt the loop may make. Sleeping
    is modelled by the delay it would wait. */
module Retry {

  /** How one attempt (post, decode, `parse_response`) ended. */
  datatype Attempt =
    | Parsed(image: string, thumb: string)
    | Raised(retryable: bool)

  /** How the loop as a whole ended. */
  datatype Outcome =
    | Returned(image: string, thumb: string)
      /** The last attempt's exception propagates; when it is retryable,
          `handle_network_error` has reported it first. */
    | Reraised(retryable: bool)
      /** Computing the delay raised `OverflowError`: `2 ** (attempt - 1)`
          no longer converts to a float once `attempt` reaches 1025. */
    | BackoffOverflow
      /** `max_attempts < 1`: the loop body never runs and the function
          returns `None`, which the caller's tuple unpacking rejects. */
    | NoResult

  /** The outcome, how many attempts were made, and the delays slept
      between them, in seconds. */
  datatype RetryRun = RetryRun(outcome: Outcome, attempts: nat, delays: seq<nat>)

  const BaseDelay: nat := 2
  const MaxDelay: nat := 30
  /** The first attempt whose delay computation overflows a float. */
  const OverflowAttempt: nat := 1025

  function Pow2(n: nat): (r: nat)
    ensures r >= 1
  {
    if n == 0 then 1 else 2 * Pow2(n - 1)
  }

  /** `min(base_delay * 2 ** (attempt - 1), 30.0)`: the delay after a failed
      attempt. The values are whole numbers, so they are exact as floats. */
  function Backoff(attempt: nat): (d: nat)
    requires attempt >= 1
    ensures 0 < d <= MaxDelay
  {
    var raw := BaseDelay * Pow2(attempt - 1);
    if raw <= MaxDelay then raw else MaxDelay
  }

  /** The loop from attempt number `attempt` (1-based) onwards. */
  function RetryFrom(maxAttempts: nat, outcomes: seq<Attempt>, attempt: nat): (r: RetryRun)
    requires 1 <= attempt <= maxAttempts <= |outcomes|
    ensures attempt <= r.attempts <= maxAttempts
    ensures |r.delays| == r.attempts - attempt
    ensures forall i :: 0 <= i < |r.delays| ==> r.delays[i] == Backoff(attempt + i)
    ensures forall j :: attempt - 1 <= j < r.attempts - 1 ==> outcomes[j] == Raised(true)
    ensures attempt <= OverflowAttempt ==> r.attempts <= OverflowAttempt
    ensures r.outcome == BackoffOverflow ==> r.attempts >= OverflowAttempt
    ensures match outcomes[r.attempts - 1]
            case Parsed(image, thumb) => r.outcome == Returned(image, thumb)
            case Raised(retryable) =>
              if retryable && r.attempts < maxAttempts then r.outcome == BackoffOverflow
              else r.outcome == Reraised(retryable)
    decreases maxAttempts - attempt
  {
    match outcomes[attempt - 1]
    case Parsed(image, thumb) => RetryRun(Returned(image, thumb), attempt, [])
    case Raised(retryable) =>
      if attempt < maxAttempts && retryable then
        if attempt >= OverflowAttempt then RetryRun(BackoffOverflow, attempt, [])
        else
          var rest := RetryFrom(maxAttempts, outcomes, attempt + 1);
          RetryRun(rest.outcome, rest.attempts, [Backoff(attempt)] + rest.delays)
      else
        RetryRun(Reraised(retryable), attempt, [])
  }

  /** `_perform_async_upload` after `get_request_params`, for
      `max_attempts` = `maxAttempts`. */
  function RetryLoop(maxAttempts: int, outcomes: seq<Attempt>): (r: RetryRun)
    requires maxAttempts <= |outcomes|
    ensures maxAttempts < 1 <==> r.outcome == NoResult
    ensures maxAttempts < 1 ==> r.attempts == 0 && r.delays == []
    ensures maxAttempts >= 1 ==> 1 <= r.attempts <= maxAttempts && |r.delays| == r.attempts - 1
  {
    if maxAttempts < 1 then RetryRun(NoResult, 0, [])
    else RetryFrom(maxAttempts, outcomes, 1)
  }

  // ---------------------------------------------------------------------------
  // Properties

  /** The first successful attempt is returned, provided every earlier
      attempt failed with a retryable error. */
  lemma ReturnsFirstSuccess(maxAttempts: int, outcomes: seq<Attempt>, k: nat)
    requires maxAttempts <= |outcomes|
    requires k < maxAttempts && k < OverflowAttempt
    requires outcomes[k].Parsed?
    requires forall j :: 0 <= j < k ==> outcomes[j] == Raised(true)
    ensures RetryLoop(maxAttempts, outcomes).outcome == Returned(outcomes[k].image, outcomes[k].thumb)
    ensures RetryLoop(maxAttempts, outcomes).attempts == k + 1
  {
    var r := RetryFrom(maxAttempts, outcomes, 1);
    var last := outcomes[r.attempts - 1];
  }

  /** Success is returned exactly when some attempt parsed and every attempt
      before it failed retryably, within the attempt limit and before the
      delay overflows. */
  lemma ReturnedIff(maxAttempts: int, outcomes: seq<Attempt>, image: string, thumb: string)
    requires maxAttempts <= |outcomes|
    ensures RetryLoop(maxAttempts, outcomes).outcome == Returned(image, thumb) <==>
              exists k :: 0 <= k < maxAttempts && k < OverflowAttempt && outcomes[k] == Parsed(image, thumb)
                          && forall j :: 0 <= j < k ==> outcomes[j] == Raised(true)
  {
    var r := RetryLoop(maxAttempts, outcomes);
    if r.outcome == Returned(image, thumb) {
      var k := r.attempts - 1;
      assert r == RetryFrom(maxAttempts, outcomes, 1);
      assert outcomes[k] == Parsed(image, thumb);
    }
    if exists k :: 0 <= k < maxAttempts && k < OverflowAttempt && outcomes[k] == Parsed(image, thumb)
                   && forall j :: 0 <= j < k ==> outcomes[j] == Raised(true) {
      var k :| 0 <= k < maxAttempts && k < OverflowAttempt && outcomes[k] == Parsed(image, thumb)
               && forall j :: 0 <= j < k ==> outcomes[j] == Raised(true);
      ReturnsFirstSuccess(maxAttempts, outcomes, k);
    }
  }

  /** A non-retryable error is re-raised at once: no further attempt, no sleep. */
  lemma NonRetryableStopsAtOnce(maxAttempts: int, outcomes: seq<Attempt>, k: nat)
    requires maxAttempts <= |outcomes|
    requires k < maxAttempts && outcomes[k] == Raised(false)
    requires forall j :: 0 <= j < k ==> outcomes[j] == Raised(true)
    requires k < OverflowAttempt
    ensures RetryLoop(maxAttempts, outcomes).outcome == Reraised(false)
    ensures RetryLoop(maxAttempts, outcomes).attempts == k + 1
  {
    var r := RetryFrom(maxAttempts, outcomes, 1);
    var last := outcomes[r.attempts - 1];
  }

  /** When every earlier attempt failed retryably, an error on the last
      permitted attempt is re-raised, whatever its kind. */
  lemma LastAttemptReraises(maxAttempts: int, outcomes: seq<Attempt>)
    requires 1 <= maxAttempts <= |outcomes| && maxAttempts <= OverflowAttempt
    requires forall j :: 0 <= j < maxAttempts - 1 ==> outcomes[j] == Raised(true)
    requires outcomes[maxAttempts - 1].Raised?
    ensures RetryLoop(maxAttempts, outcomes).attempts == maxAttempts
    ensures RetryLoop(maxAttempts, outcomes).outcome == Reraised(outcomes[maxAttempts - 1].retryable)
  {
    var r := RetryFrom(maxAttempts, outcomes, 1);
    var last := outcomes[r.attempts - 1];
  }

  /** With at most 1025 permitted attempts the delay never overflows. */
  lemma NoOverflowWithinLimit(maxAttempts: int, outcomes: seq<Attempt>)
    requires maxAttempts <= |outcomes| && maxAttempts <= OverflowAttempt
    ensures RetryLoop(maxAttempts, outcomes).outcome != BackoffOverflow
  {
    if maxAttempts >= 1 {
      var r := RetryFrom(maxAttempts, outcomes, 1);
      var last := outcomes[r.attempts - 1];
    }
  }

  lemma {:induction false} Pow2Monotone(m: nat, n: nat)
    requires m <= n
    ensures Pow2(m) <= Pow2(n)
    decreases n
  {
    if m < n {
      Pow2Monotone(m, n - 1);
    }
  }

  /** The delays run 2, 4, 8, 16 and then stay at 30. */
  lemma BackoffSchedule(attempt: nat)
    requires attempt >= 1
    ensures attempt <= 4 ==> Backoff(attempt) == Pow2(attempt)
    ensures attempt >= 5 ==> Backoff(attempt) == MaxDelay
    ensures Backoff(1) == 2 && Backoff(2) == 4 && Backoff(3) == 8 && Backoff(4) == 16 && Backoff(5) == 30
  {
    if attempt >= 5 {
      Pow2Monotone(4, attempt - 1);
    }
  }

  lemma BackoffMonotone(m: nat, n: nat)
    requires 1 <= m <= n
    ensures Backoff(m) <= Backoff(n)
  {
    Pow2Monotone(m - 1, n - 1);
  }

  /** One delay fewer than attempts; each delay is the backoff of its
      attempt; they never decrease and never exceed 30 seconds. */
  lemma DelaysNonDecreasing(maxAttempts: int, outcomes: seq<Attempt>)
    requires maxAttempts <= |outcomes|
    ensures var r := RetryLoop(maxAttempts, outcomes);
            && (r.attempts >= 1 ==> |r.delays| == r.attempts - 1)
            && (forall i :: 0 <= i < |r.delays| ==> 0 < r.delays[i] <= MaxDelay)
            && (forall i, j :: 0 <= i <= j < |r.delays| ==> r.delays[i] <= r.delays[j])
  {
    var r := RetryLoop(maxAttempts, outcomes);
    forall i, j | 0 <= i <= j < |r.delays|
      ensures r.delays[i] <= r.delays[j]
    {
      BackoffMonotone(1 + i, 1 + j);
    }
  }

  /** Two transient failures followed by a success: three attempts, sleeping
      2 and then 4 seconds. */
  lemma TransientTwiceThenSuccess()
    ensures RetryLoop(5, [Raised(true), Raised(true), Parsed("img", "th"), Raised(false), Raised(false)])
            == RetryRun(Returned("img", "th"), 3, [2, 4])
  {
    BackoffSchedule(1);
  }
}
