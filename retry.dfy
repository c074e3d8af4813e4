/**
 * The retrying fetcher `fetch_with_retry(url, data, retries, delay)`.
 *
 * Attempts are numbered 0 .. retries-1.  A failed attempt that is not the last
 * records its error text and sleeps `delay * 2^attempt`; a failed last attempt
 * re-raises; the first successful attempt returns its payload.  The upstream is
 * given as the sequence of its answers, one per attempt, and every sleep is
 * logged as its duration instead of being waited for.
 */
module Retry {
  import opened Wrappers
  import opened Attempt

  /**
   * How a call of the fetcher ends: with the payload; with the exception of the
   * last attempt, re-raised inside the loop (`raise`), which carries that
   * attempt's error text; or with the exception raised after the loop
   * (`raise Exception(last_error)`), which carries the last error as it stands
   * there (`None` if there was none).
   */
  datatype Fetch<J> = Fetched(data: J) | Raised(error: string) | Fallback(lastError: Option<string>)

  /** A whole run: how it ends, how many attempts it made, and the sleeps in order. */
  datatype Trace<J> = Trace(result: Fetch<J>, attempts: nat, sleeps: seq<int>)

  function Pow2(k: nat): (p: nat)
    ensures p >= 1
  {
    if k == 0 then 1 else 2 * Pow2(k - 1)
  }

  /** The sleep after failed attempt `attempt`: `delay * (2 ** attempt)`. */
  function Backoff(delay: int, attempt: nat): int {
    delay * Pow2(attempt)
  }

  /** The first `n` backoff durations. */
  function Schedule(delay: int, n: nat): (s: seq<int>)
    ensures |s| == n
    ensures forall k :: 0 <= k < n ==> s[k] == Backoff(delay, k)
  {
    if n == 0 then [] else Schedule(delay, n - 1) + [Backoff(delay, n - 1)]
  }

  function Sum(s: seq<int>): int {
    if s == [] then 0 else Sum(s[..|s| - 1]) + s[|s| - 1]
  }

  /**
   * The loop from iteration `attempt` on, with `lastError` as it stands there.
   * Its sleeps are those still to come.
   */
  function RunFrom<J>(rs: seq<Response<J>>, retries: int, delay: int, attempt: nat, lastError: Option<string>)
    : (t: Trace<J>)
    requires retries <= |rs|
    ensures attempt < retries ==> attempt < t.attempts <= retries
    ensures attempt < retries ==> |t.sleeps| == t.attempts - attempt - 1
    ensures attempt < retries ==> !t.result.Fallback?
    ensures attempt < retries && t.result.Raised? ==> t.attempts == retries
    ensures attempt >= retries ==> t.result == Fallback(lastError) && t.attempts == attempt && t.sleeps == []
    decreases retries - attempt
  {
    if attempt >= retries then Trace(Fallback(lastError), attempt, [])
    else
      match Classify(rs[attempt])
      case Ok(p) => Trace(Fetched(p), attempt + 1, [])
      case Err(m) =>
        if attempt == retries - 1 then Trace(Raised(m), attempt + 1, [])
        else
          var t := RunFrom(rs, retries, delay, attempt + 1, Some(m));
          Trace(t.result, t.attempts, [Backoff(delay, attempt)] + t.sleeps)
  }

  /** A whole call: `last_error = None`, then the loop from attempt 0. */
  function Run<J>(rs: seq<Response<J>>, retries: int, delay: int): Trace<J>
    requires retries <= |rs|
  {
    RunFrom(rs, retries, delay, 0, None)
  }

  /** The index of the first answer an attempt succeeds with, if any. */
  function FirstSuccess<J>(rs: seq<Response<J>>): (k: Option<nat>)
    ensures k.Some? ==> k.value < |rs| && !Fails(rs[k.value])
    ensures k.Some? ==> forall i :: 0 <= i < k.value ==> Fails(rs[i])
    ensures k.None? ==> forall i :: 0 <= i < |rs| ==> Fails(rs[i])
  {
    if rs == [] then None
    else if !Fails(rs[0]) then Some(0)
    else
      match FirstSuccess(rs[1..])
      case None => None
      case Some(k) => Some(k + 1)
  }

  /**
   * What a call does, stated without the loop: no attempt and `None` for a
   * non-positive budget; otherwise the first success among the attempts
   * allowed, after one sleep per earlier failure; otherwise every attempt, the
   * last one's error, and a sleep between each two attempts.
   */
  function Expected<J>(rs: seq<Response<J>>, retries: int, delay: int): Trace<J>
    requires retries <= |rs|
  {
    if retries <= 0 then Trace(Fallback(None), 0, [])
    else
      match FirstSuccess(rs[..retries])
      case Some(k) => Trace(Fetched(rs[k].body.value), k + 1, Schedule(delay, k))
      case None => Trace(Raised(Classify(rs[retries - 1]).message), retries, Schedule(delay, retries - 1))
  }

  // ---------------------------------------------------------------------------
  // The driver

  /** `fetch_with_retry`, with the upstream's answers in `rs` and the sleeps logged in `sleeps`. */
  method FetchWithRetry<J>(rs: seq<Response<J>>, retries: int, delay: int)
    returns (result: Fetch<J>, attempts: nat, sleeps: seq<int>)
    requires retries <= |rs|
    ensures Trace(result, attempts, sleeps) == Run(rs, retries, delay)
    ensures retries >= 1 ==> !result.Fallback?
    ensures retries <= 0 ==> result == Fallback(None)
  {
    var lastError: Option<string> := None;
    sleeps := [];
    var attempt: nat := 0;
    while attempt < retries
      invariant retries <= 0 ==> attempt == 0
      invariant retries > 0 ==> attempt < retries
      invariant attempt == 0 ==> lastError == None
      invariant |sleeps| == attempt
      invariant var t := RunFrom(rs, retries, delay, attempt, lastError);
        Run(rs, retries, delay) == Trace(t.result, t.attempts, sleeps + t.sleeps)
      decreases retries - attempt
    {
      match Classify(rs[attempt])
      case Ok(p) =>
        return Fetched(p), attempt + 1, sleeps;
      case Err(m) =>
        lastError := Some(m);
        if attempt == retries - 1 {
          return Raised(m), attempt + 1, sleeps;
        }
        ghost var rest := RunFrom(rs, retries, delay, attempt + 1, lastError);
        assert sleeps + ([Backoff(delay, attempt)] + rest.sleeps) == (sleeps + [Backoff(delay, attempt)]) + rest.sleeps;
        sleeps := sleeps + [Backoff(delay, attempt)];
        attempt := attempt + 1;
    }
    // The raise after the loop is reached only when no attempt was made.
    assert retries <= 0 && lastError == None;
    return Fallback(lastError), attempt, sleeps;
  }

  // ---------------------------------------------------------------------------
  // Properties of a run

  lemma ScheduleTail(delay: int, n: nat, a: nat)
    requires a < n
    ensures Schedule(delay, n)[a..] == [Backoff(delay, a)] + Schedule(delay, n)[a + 1..]
  {
  }

  /** From an attempt `a` before the first success `k`, the loop returns that success. */
  lemma {:induction false} RunFromReachesSuccess<J>(rs: seq<Response<J>>, retries: int, delay: int,
                                                    a: nat, e: Option<string>, k: nat)
    requires retries <= |rs|
    requires a <= k < retries && !Fails(rs[k])
    requires forall i :: a <= i < k ==> Fails(rs[i])
    ensures RunFrom(rs, retries, delay, a, e) == Trace(Fetched(rs[k].body.value), k + 1, Schedule(delay, k)[a..])
    decreases k - a
  {
    if a < k {
      var m := Classify(rs[a]).message;
      RunFromReachesSuccess(rs, retries, delay, a + 1, Some(m), k);
      ScheduleTail(delay, k, a);
    }
  }

  /** From an attempt `a`, when every attempt left fails, the loop raises the last one's error. */
  lemma {:induction false} RunFromExhausts<J>(rs: seq<Response<J>>, retries: int, delay: int,
                                             a: nat, e: Option<string>)
    requires retries <= |rs|
    requires a < retries
    requires forall i :: a <= i < retries ==> Fails(rs[i])
    ensures RunFrom(rs, retries, delay, a, e)
         == Trace(Raised(Classify(rs[retries - 1]).message), retries, Schedule(delay, retries - 1)[a..])
    decreases retries - a
  {
    if a < retries - 1 {
      var m := Classify(rs[a]).message;
      RunFromExhausts(rs, retries, delay, a + 1, Some(m));
      ScheduleTail(delay, retries - 1, a);
    }
  }

  /** The loop does exactly what the loop-free reference says. */
  lemma RunIsExpected<J>(rs: seq<Response<J>>, retries: int, delay: int)
    requires retries <= |rs|
    ensures Run(rs, retries, delay) == Expected(rs, retries, delay)
  {
    if retries > 0 {
      var prefix := rs[..retries];
      match FirstSuccess(prefix)
      case Some(k) =>
        assert forall i :: 0 <= i < k ==> Fails(rs[i]) by {
          forall i | 0 <= i < k ensures Fails(rs[i]) { assert prefix[i] == rs[i]; }
        }
        assert prefix[k] == rs[k];
        RunFromReachesSuccess(rs, retries, delay, 0, None, k);
      case None =>
        assert forall i :: 0 <= i < retries ==> Fails(rs[i]) by {
          forall i | 0 <= i < retries ensures Fails(rs[i]) { assert prefix[i] == rs[i]; }
        }
        RunFromExhausts(rs, retries, delay, 0, None);
    }
  }

  /** The total time slept before an attempt `n`: delay * (2^n - 1). */
  lemma {:induction false} ScheduleSum(delay: int, n: nat)
    ensures Sum(Schedule(delay, n)) == delay * (Pow2(n) - 1)
  {
    if n > 0 {
      var s := Schedule(delay, n);
      assert s[..|s| - 1] == Schedule(delay, n - 1);
      ScheduleSum(delay, n - 1);
      Doubling(delay, Pow2(n - 1));
    }
  }

  lemma Doubling(d: int, p: int)
    ensures d * (p - 1) + d * p == d * (2 * p - 1)
  {
  }

  /**
   * All attempts fail: exactly `retries` attempts, the error of the last one,
   * and the sleeps delay*2^0 .. delay*2^(retries-2), none after the last attempt.
   */
  lemma AllAttemptsFail<J>(rs: seq<Response<J>>, retries: int, delay: int)
    requires 1 <= retries <= |rs|
    requires forall i :: 0 <= i < retries ==> Fails(rs[i])
    ensures var t := Run(rs, retries, delay);
      && t.attempts == retries
      && t.result == Raised(Classify(rs[retries - 1]).message)
      && |t.sleeps| == retries - 1
      && (forall k :: 0 <= k < retries - 1 ==> t.sleeps[k] == delay * Pow2(k))
  {
    RunFromExhausts(rs, retries, delay, 0, None);
  }

  /**
   * The first success stops the loop: attempt `k`'s payload is returned after
   * `k + 1` attempts and `k` sleeps, which add up to delay * (2^k - 1).
   */
  lemma FirstSuccessStops<J>(rs: seq<Response<J>>, retries: int, delay: int, k: nat)
    requires retries <= |rs|
    requires k < retries && !Fails(rs[k])
    requires forall i :: 0 <= i < k ==> Fails(rs[i])
    ensures var t := Run(rs, retries, delay);
      && t.attempts == k + 1
      && t.result == Fetched(rs[k].body.value)
      && t.sleeps == Schedule(delay, k)
      && Sum(t.sleeps) == delay * (Pow2(k) - 1)
  {
    RunFromReachesSuccess(rs, retries, delay, 0, None, k);
    ScheduleSum(delay, k);
  }

  /** With no budget the loop body never runs and the exception carries `None`. */
  lemma NoBudget<J>(rs: seq<Response<J>>, retries: int, delay: int)
    requires retries <= 0 && retries <= |rs|
    ensures Run(rs, retries, delay) == Trace(Fallback(None), 0, [])
  {
  }

  /** With a positive budget the raise after the loop is never the way out. */
  lemma FallbackRaiseUnreachable<J>(rs: seq<Response<J>>, retries: int, delay: int)
    requires 1 <= retries <= |rs|
    ensures var t := Run(rs, retries, delay);
      !t.result.Fallback? && (t.result.Raised? ==> t.attempts == retries)
  {
  }

  /**
   * A run depends on the answers only through their classification, and only on
   * the answers of the attempts it made: answers after the stopping attempt are
   * never consumed, and a transport error, a non-2xx status and a malformed body
   * with the same text are interchangeable.
   */
  lemma {:induction false} RunSeesOnlyConsumedOutcomes<J>(rs1: seq<Response<J>>, rs2: seq<Response<J>>,
                                                          retries: int, delay: int)
    requires retries <= |rs1| && retries <= |rs2|
    requires forall i :: 0 <= i < Run(rs1, retries, delay).attempts ==> Classify(rs1[i]) == Classify(rs2[i])
    ensures Run(rs2, retries, delay) == Run(rs1, retries, delay)
  {
    RunFromSeesOnlyConsumed(rs1, rs2, retries, delay, 0, None);
  }

  lemma {:induction false} RunFromSeesOnlyConsumed<J>(rs1: seq<Response<J>>, rs2: seq<Response<J>>,
                                                      retries: int, delay: int, a: nat, e: Option<string>)
    requires retries <= |rs1| && retries <= |rs2|
    requires forall i :: a <= i < RunFrom(rs1, retries, delay, a, e).attempts ==> Classify(rs1[i]) == Classify(rs2[i])
    ensures RunFrom(rs2, retries, delay, a, e) == RunFrom(rs1, retries, delay, a, e)
    decreases retries - a
  {
    if a < retries {
      assert Classify(rs1[a]) == Classify(rs2[a]);
      match Classify(rs1[a])
      case Ok(_) =>
      case Err(m) =>
        if a < retries - 1 {
          RunFromSeesOnlyConsumed(rs1, rs2, retries, delay, a + 1, Some(m));
        }
    }
  }

  /** Replacing one failing answer by another failing answer with the same text changes nothing. */
  lemma FailureKindsUniform<J>(rs: seq<Response<J>>, retries: int, delay: int, i: nat, other: Response<J>)
    requires retries <= |rs| && i < |rs|
    requires Fails(rs[i]) && Fails(other)
    requires Classify(rs[i]).message == Classify(other).message
    ensures Run(rs[i := other], retries, delay) == Run(rs, retries, delay)
  {
    RunSeesOnlyConsumedOutcomes(rs, rs[i := other], retries, delay);
  }

  /**
   * How a call with a positive budget ends, in terms of the answers alone: it
   * returns a payload exactly when some attempt within the budget succeeds,
   * and then the payload of the first success after the schedule up to it;
   * otherwise it re-raises the last attempt's error after `retries - 1` sleeps.
   * It never ends with the raise after the loop.
   */
  lemma RunOutcome<J>(rs: seq<Response<J>>, retries: int, delay: int)
    requires 1 <= retries <= |rs|
    ensures !Run(rs, retries, delay).result.Fallback?
    ensures var t := Run(rs, retries, delay);
      t.result.Fetched? <==> exists k :: 0 <= k < retries && !Fails(rs[k])
    ensures var t := Run(rs, retries, delay);
      t.result.Fetched? ==>
        exists k :: 0 <= k < retries && !Fails(rs[k]) && (forall i :: 0 <= i < k ==> Fails(rs[i]))
          && t.result.data == rs[k].body.value && t.sleeps == Schedule(delay, k)
    ensures var t := Run(rs, retries, delay);
      t.result.Raised? ==>
        t.result == Raised(Classify(rs[retries - 1]).message) && t.sleeps == Schedule(delay, retries - 1)
  {
    RunIsExpected(rs, retries, delay);
    var prefix := rs[..retries];
    match FirstSuccess(prefix)
    case Some(k) =>
      assert prefix[k] == rs[k];
      forall i | 0 <= i < k ensures Fails(rs[i]) { assert prefix[i] == rs[i]; }
    case None =>
      forall k | 0 <= k < retries ensures Fails(rs[k]) { assert prefix[k] == rs[k]; }
  }
}
