/** The bounded retry wrapper around an asynchronous ledger operation. */
module Retry {

  /** The default options: three attempts, 500 ms between them. */
  const DefaultMaxRetryAttempts: int := 3
  const DefaultRetryDelayMilliseconds: int := 500

  /** What one invocation of the operation does, and whether cancellation had been
      requested by the time its failure reached the exception filter. */
  datatype Attempt = Succeeded | Failed(cancellationRequested: bool)

  /** How ExecuteAsync ends. */
  datatype Ending =
    | Returned     // the operation succeeded, or no attempt was allowed at all
    | Rethrown     // the last attempt failed and its exception was rethrown
    | Propagated   // a failure met a cancelled token and escaped the exception filter

  /** The observable course of one ExecuteAsync call: its ending, how often the
      operation was invoked, and how many RetryDelayMilliseconds waits were made. */
  datatype Trace = Trace(ending: Ending, invocations: nat, delays: nat)

  /** The retry loop from attempt number `attempt` on, where `outcome(k)` is what the
      k-th invocation does. A failure that is not the last one waits twice. */
  function Run(attempt: int, maxAttempts: int, outcome: int -> Attempt): (t: Trace)
    ensures t.ending == Rethrown ==> t.invocations >= 1 && t.delays == 2 * t.invocations - 1
    ensures t.ending != Rethrown ==> t.delays == 2 * (t.invocations - 1) || (t.invocations == 0 && t.delays == 0)
    decreases maxAttempts - attempt
  {
    if attempt > maxAttempts then Trace(Returned, 0, 0)
    else match outcome(attempt)
      case Succeeded => Trace(Returned, 1, 0)
      case Failed(cancelled) =>
        if cancelled then Trace(Propagated, 1, 0)
        else if attempt == maxAttempts then Trace(Rethrown, 1, 1)
        else
          var rest := Run(attempt + 1, maxAttempts, outcome);
          Trace(rest.ending, rest.invocations + 1, rest.delays + 2)
  }

  /** Every attempt numbered in [from, to) failed while no cancellation was requested. */
  ghost predicate QuietFailures(outcome: int -> Attempt, from: int, to: int)
  {
    forall k :: from <= k < to ==> outcome(k) == Failed(false)
  }

  /** The operation is invoked at most maxAttempts times, and never when maxAttempts <= 0. */
  lemma {:induction false} InvocationsBounded(attempt: int, maxAttempts: int, outcome: int -> Attempt)
    requires 1 <= attempt
    ensures var t := Run(attempt, maxAttempts, outcome);
      t.invocations <= if maxAttempts < attempt then 0 else maxAttempts - attempt + 1
    decreases maxAttempts - attempt
  {
    if attempt < maxAttempts {
      InvocationsBounded(attempt + 1, maxAttempts, outcome);
    }
  }

  /** With a budget of zero or less the loop body never runs: no invocation, no wait, and
      a normal return. */
  lemma NoBudgetReturnsAtOnce(maxAttempts: int, outcome: int -> Attempt)
    requires maxAttempts < 1
    ensures Run(1, maxAttempts, outcome) == Trace(Returned, 0, 0)
  {
  }

  /** The loop stops at the first attempt that does not fail quietly: a success returns
      at once, a failure under cancellation propagates at once without waiting, and the
      quiet failures before it cost two waits each. */
  lemma {:induction false} StopsAtFirstDecisiveAttempt(attempt: int, k: int, maxAttempts: int, outcome: int -> Attempt)
    requires attempt <= k <= maxAttempts
    requires QuietFailures(outcome, attempt, k)
    requires outcome(k) != Failed(false)
    ensures Run(attempt, maxAttempts, outcome) ==
      Trace(if outcome(k) == Succeeded then Returned else Propagated, k - attempt + 1, 2 * (k - attempt))
    decreases k - attempt
  {
    if attempt < k {
      assert outcome(attempt) == Failed(false);
      StopsAtFirstDecisiveAttempt(attempt + 1, k, maxAttempts, outcome);
    }
  }

  /** When every allowed attempt fails quietly, the last failure is rethrown after exactly
      maxAttempts invocations; the final failure waits once, every earlier one twice. */
  lemma {:induction false} ExhaustionRethrows(attempt: int, maxAttempts: int, outcome: int -> Attempt)
    requires attempt <= maxAttempts
    requires QuietFailures(outcome, attempt, maxAttempts + 1)
    ensures Run(attempt, maxAttempts, outcome) ==
      Trace(Rethrown, maxAttempts - attempt + 1, 2 * (maxAttempts - attempt) + 1)
    decreases maxAttempts - attempt
  {
    assert outcome(attempt) == Failed(false);
    if attempt < maxAttempts {
      ExhaustionRethrows(attempt + 1, maxAttempts, outcome);
    }
  }

  /** A normal return after at least one invocation means the last invocation succeeded,
      and a rethrow means exactly maxAttempts invocations were made. */
  lemma {:induction false} EndingExplained(attempt: int, maxAttempts: int, outcome: int -> Attempt)
    requires 1 <= attempt
    ensures var t := Run(attempt, maxAttempts, outcome);
      && (t.ending == Returned && t.invocations > 0 ==> outcome(attempt + t.invocations - 1) == Succeeded)
      && (t.ending == Returned && t.invocations == 0 ==> maxAttempts < attempt)
      && (t.ending == Rethrown ==> t.invocations == maxAttempts - attempt + 1)
      && (t.ending == Propagated ==> outcome(attempt + t.invocations - 1) == Failed(true))
    decreases maxAttempts - attempt
  {
    if attempt <= maxAttempts && outcome(attempt) == Failed(false) && attempt < maxAttempts {
      EndingExplained(attempt + 1, maxAttempts, outcome);
    }
  }

  /** Under the default options, an operation that always fails is invoked three times and
      waits five times, 2500 ms in all, before its last failure is rethrown. */
  lemma DefaultExhaustion(outcome: int -> Attempt)
    requires forall k :: outcome(k) == Failed(false)
    ensures var t := Run(1, DefaultMaxRetryAttempts, outcome);
      t == Trace(Rethrown, 3, 5) && t.delays * DefaultRetryDelayMilliseconds == 2500
  {
    ExhaustionRethrows(1, DefaultMaxRetryAttempts, outcome);
  }

  /** The policy with its two options: the attempt budget and the wait after a failure. */
  class RetryPolicy {
    const maxRetryAttempts: int
    const retryDelayMilliseconds: int

    constructor (maxRetryAttempts: int, retryDelayMilliseconds: int)
      ensures this.maxRetryAttempts == maxRetryAttempts
      ensures this.retryDelayMilliseconds == retryDelayMilliseconds
    {
      this.maxRetryAttempts := maxRetryAttempts;
      this.retryDelayMilliseconds := retryDelayMilliseconds;
    }

    /** Runs the operation whose k-th invocation does `outcome(k)`. */
    method ExecuteAsync(outcome: int -> Attempt) returns (t: Trace)
      ensures t == Run(1, maxRetryAttempts, outcome)
      ensures t.invocations <= if maxRetryAttempts < 1 then 0 else maxRetryAttempts
    {
      var attempt := 1;
      var invocations, delays := 0, 0;
      while attempt <= maxRetryAttempts
        invariant 1 <= attempt && (attempt == 1 || attempt <= maxRetryAttempts)
        invariant invocations == attempt - 1 && delays == 2 * (attempt - 1)
        invariant var rest := Run(attempt, maxRetryAttempts, outcome);
          Run(1, maxRetryAttempts, outcome) == Trace(rest.ending, rest.invocations + invocations, rest.delays + delays)
        decreases maxRetryAttempts - attempt
      {
        invocations := invocations + 1;
        var result := outcome(attempt);
        if result.Succeeded? {
          return Trace(Returned, invocations, delays);
        }
        if result.cancellationRequested {
          // the exception filter does not catch it: no wait, no further attempt
          return Trace(Propagated, invocations, delays);
        }
        delays := delays + 1;
        if attempt == maxRetryAttempts {
          InvocationsBounded(1, maxRetryAttempts, outcome);
          return Trace(Rethrown, invocations, delays);
        }
        delays := delays + 1;
        attempt := attempt + 1;
      }
      t := Trace(Returned, invocations, delays);
      InvocationsBounded(1, maxRetryAttempts, outcome);
    }
  }
}
