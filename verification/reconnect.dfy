/**
 * `reconnect_with_backoff`: before every connection attempt the client sleeps for
 * the current backoff, which starts at 1 second and doubles after each attempt, up
 * to 32 seconds. A session whose `run_forever` returns normally ends the loop; one
 * that raises is followed by another attempt.
 *
 * The loop is unbounded; the model runs it over a finite list of session outcomes
 * and records the delays it would sleep.
 */
module Reconnect {

  const InitialBackoff: nat := 1
  const MaxBackoff: nat := 32

  /** How one connection attempt ended. */
  datatype SessionEnd =
    | Returned   // run_forever returned: `break`
    | Raised     // an exception was caught: retry

  function Min(a: nat, b: nat): nat {
    if a <= b then a else b
  }

  /** `min(backoff * 2, max_backoff)`, run in the `finally` block after each attempt. */
  function NextBackoff(backoff: nat): (r: nat)
    ensures r <= MaxBackoff
    ensures r == MaxBackoff || r == 2 * backoff
    ensures backoff <= MaxBackoff ==> backoff <= r
  {
    Min(backoff * 2, MaxBackoff)
  }

  /** The backoff in force before attempt `k` (0-based). */
  function BackoffBefore(k: nat): (r: nat)
    ensures r <= MaxBackoff
    ensures r == MaxBackoff || r == Pow2(k)
  {
    if k == 0 then InitialBackoff else NextBackoff(BackoffBefore(k - 1))
  }

  function Pow2(k: nat): nat {
    if k == 0 then 1 else 2 * Pow2(k - 1)
  }

  /** The k-th delay is `min(2^k, 32)`. */
  lemma {:induction false} BackoffClosedForm(k: nat)
    ensures BackoffBefore(k) == Min(Pow2(k), MaxBackoff)
  {
    if k > 0 {
      BackoffClosedForm(k - 1);
    }
  }

  /** Every delay lies between 1 and 32 seconds. */
  lemma {:induction false} BackoffBounded(k: nat)
    ensures InitialBackoff <= BackoffBefore(k) <= MaxBackoff
  {
    if k > 0 {
      BackoffBounded(k - 1);
    }
  }

  /** The delays never decrease. */
  lemma {:induction false} BackoffMonotone(j: nat, k: nat)
    requires j <= k
    ensures BackoffBefore(j) <= BackoffBefore(k)
    decreases k - j
  {
    if j < k {
      BackoffMonotone(j, k - 1);
      BackoffBounded(k - 1);
    }
  }

  /** From the sixth attempt on, every delay is the 32-second cap. */
  lemma {:induction false} BackoffSaturates(k: nat)
    requires k >= 5
    ensures BackoffBefore(k) == MaxBackoff
  {
    if k > 5 {
      BackoffSaturates(k - 1);
    }
  }

  /** The first `n` delays, in the order they are slept. */
  function Schedule(n: nat): (delays: seq<nat>)
    ensures |delays| == n
  {
    if n == 0 then [] else Schedule(n - 1) + [BackoffBefore(n - 1)]
  }

  lemma {:induction false} ScheduleAt(n: nat, k: nat)
    requires k < n
    ensures Schedule(n)[k] == BackoffBefore(k)
  {
    if k < n - 1 {
      ScheduleAt(n - 1, k);
    }
  }

  /**
   * Runs the reconnect loop over the given session outcomes. `delays[k]` is the
   * sleep before attempt k; the loop stops after the first session that returns,
   * or when the outcomes run out.
   */
  method ReconnectWithBackoff(sessions: seq<SessionEnd>) returns (delays: seq<nat>, finished: bool)
    ensures finished <==> Returned in sessions
    ensures |delays| <= |sessions|
    ensures forall k :: 0 <= k < |delays| ==> delays[k] == BackoffBefore(k)
    ensures forall k :: 0 <= k < |delays| - 1 ==> sessions[k] == Raised
    ensures finished ==> |delays| >= 1 && sessions[|delays| - 1] == Returned
    ensures !finished ==> |delays| == |sessions|
  {
    var backoff := InitialBackoff;
    delays := [];
    finished := false;
    var attempt := 0;
    while attempt < |sessions|
      invariant attempt <= |sessions|
      invariant delays == Schedule(attempt)
      invariant backoff == BackoffBefore(attempt)
      invariant forall k :: 0 <= k < attempt ==> sessions[k] == Raised
    {
      delays := delays + [backoff];   // time.sleep(backoff), then connect
      assert delays == Schedule(attempt + 1);
      if sessions[attempt] == Returned {
        finished := true;
        assert sessions[attempt] in sessions;
        break;
      }
      assert NextBackoff(backoff) == BackoffBefore(attempt + 1);
      backoff := NextBackoff(backoff);   // the `finally` clause
      attempt := attempt + 1;
    }
    forall k | 0 <= k < |delays| ensures delays[k] == BackoffBefore(k) {
      ScheduleAt(|delays|, k);
    }
  }
}
