# Credit-gated API core: cache, refill sweep, session check, retry, ledger

This project models the core of a service that gates API calls by a per-user credit
balance. The balance lives in a slow legacy billing ledger, so the service keeps a cache
in front of it:

- **Credit cache** (`Credits.CreditService`). There is one entry per user, holding the
  cached `Credits` and an `IsInitialized` flag. The first touch loads the balance from
  the ledger. A deduction is refused when the cached balance is exactly zero. Otherwise
  it decrements the cache and dispatches a ledger `DeductCreditsAsync(user, 1)` through
  the retry policy without waiting for it. `SetCredits` overwrites the cached balance and
  then writes the ledger. `GetCredits` is a cache-aside read.
- **Refill sweep** (`Refill.CreditRefillService`). Each listed user's ledger balance is
  clamped into [minimum, maximum]. Only a balance that changes is written, first to the
  ledger and then, through `SetCredits`, to the cache (which writes the ledger again).
  Every exception for one user, cancellation included, is caught, and the sweep goes on.
- **Sliding session check** (`Authentication.AuthenticationService`). This is a map from
  user to the tick of the last accepted call. The first call inserts. A later call
  either renews the session or fails with `SessionExpired` when strictly more than the
  timeout has elapsed. A failed call leaves the record untouched.
- **Retry policy** (`Retry.RetryPolicy`). An attempt loop bounded by
  `MaxRetryAttempts`. A failure while cancellation is requested escapes the exception
  filter at once. A quiet failure waits, is rethrown if it was the last attempt, and
  otherwise waits a second time.
- **Ledger** (`Ledger.BillingRepository`). A dictionary with get (0 for an unknown user),
  overwrite, and conditional deduct. An unknown user is inserted with 0 and refused.

Each component is a class whose fields are the source's maps. Each method is proved to
move the state exactly as a pure transition function of the old state does: `Deduct`,
`Get` and `Set` for the cache, `Authenticate` for sessions, `Run` for the retry loop,
`RefillUser` and `RefillAll` for the sweep, and `Ledger.Deduct` for the ledger. The
properties are then proved as lemmas about those functions.

Modelling conventions:

- Time is an integer tick in microseconds passed to `AuthenticateAsync`.
- Waits are counted (`Trace.delays`), not performed.
- A ledger call that raises a transient failure is described by an input: `readFails` or
  `writeFails` for the credit service, a `Fault` per list position for the sweep. A failing call
  has no effect and is not recorded.
- The ledger's ghost field `calls` records every call that reached it, in the way a mock
  records invocations.
- A dispatched deduction is recorded in `CreditService.pending` and not carried out.
- The sweep handles users in list order. Its token is seen as cancelled from index
  `cancelFrom` on.
- In the real wiring the sweep and the credit service share one ledger object, and the
  sweep requires this.

Where the design text and the code differ, the model follows the code:

- `SetCredits` never sets `IsInitialized`. A set on a never-loaded entry is therefore
  reloaded from the ledger by the next read (`SetOnColdEntryIsReloaded`).
- The refusal test is `== 0`. A negative cached balance is still decremented.
- A non-final retry failure waits twice.
- The sweep catches cancellation instead of propagating it.
- A corrected user's ledger is written twice.

## Model

| member | source | states |
|---|---|---|
| `Ledger.Balance` | RivaAssessment/Repositories/LegacyBillingRepository.cs:32 | defined as the stored balance when the user is present and 0 otherwise, what GetCreditsAsync answers |
| `Ledger.Deduct` | RivaAssessment/Repositories/LegacyBillingRepository.cs:36-57 | the deduction succeeds iff the user is known and has at least `amount`; success subtracts it; an unknown user is inserted with 0; a refusal for a known user changes nothing; other users keep their balances |
| `Ledger.DeductKeepsNonNegative` | RivaAssessment/Repositories/LegacyBillingRepository.cs:49-55 | from a non-negative store, a non-negative deduction leaves every balance non-negative |
| `Ledger.DeductAsSeenByReads` | RivaAssessment/Repositories/LegacyBillingRepository.cs:32-55 | through GetCreditsAsync, a deduction changes only the deducted user's balance, and only when it succeeds; the inserted 0 reads like an absent user |
| `Ledger.SetThenBalance` | RivaAssessment/Repositories/LegacyBillingRepository.cs:66 | after an overwrite, GetCreditsAsync reads the amount set, of any sign; every other balance reads as before |
| `Ledger.InitialBalances` | RivaAssessment/Repositories/LegacyBillingRepository.cs:15-21 | the store is seeded with user1=10, user2=5, user3=0, user4=100; others read 0 |
| `Ledger.BillingRepository.constructor` | RivaAssessment/Repositories/LegacyBillingRepository.cs:15-21 | a new repository holds the seeded store and has received no call |
| `Ledger.BillingRepository.GetCreditsAsync` | RivaAssessment/Repositories/LegacyBillingRepository.cs:25-34 | returns the stored balance or 0; the store is unchanged; one get is recorded |
| `Ledger.BillingRepository.DeductCreditsAsync` | RivaAssessment/Repositories/LegacyBillingRepository.cs:36-57 | the new store and the returned flag are those of `Ledger.Deduct` |
| `Ledger.BillingRepository.SetCreditsAsync` | RivaAssessment/Repositories/LegacyBillingRepository.cs:59-68 | overwrites the user's balance with any amount, whatever its sign; other users unchanged |
| `Retry.Run` | RivaAssessment/Infrastructure/RetryPolicy.cs:42-61 | the loop from a given attempt number: a success returns, a failure under cancellation propagates, the last quiet failure waits once and is rethrown, an earlier one waits twice and the loop goes on; its contract: a rethrow follows 2n-1 waits after n invocations, any other ending 2(n-1) waits (none without an invocation) |
| `Retry.NoBudgetReturnsAtOnce` | RivaAssessment/Infrastructure/RetryPolicy.cs:42 | with MaxRetryAttempts <= 0 the operation is never invoked, nothing is waited for, and the call returns normally |
| `Retry.InvocationsBounded` | RivaAssessment/Infrastructure/RetryPolicy.cs:42 | the operation is invoked at most MaxRetryAttempts times, never when that is <= 0 |
| `Retry.StopsAtFirstDecisiveAttempt` | RivaAssessment/Infrastructure/RetryPolicy.cs:42-60 | at the first success the loop returns; at a failure under cancellation it propagates without waiting; k-1 earlier quiet failures cost 2(k-1) waits |
| `Retry.ExhaustionRethrows` | RivaAssessment/Infrastructure/RetryPolicy.cs:49-59 | if every attempt fails quietly, the failure is rethrown after exactly MaxRetryAttempts invocations and 2*MaxRetryAttempts-1 waits |
| `Retry.EndingExplained` | RivaAssessment/Infrastructure/RetryPolicy.cs:42-61 | a normal return means the last invocation succeeded or none was allowed; a rethrow means the budget was spent; a propagation means the last failure met cancellation |
| `Retry.DefaultExhaustion` | RivaAssessment/Models/CreditPersistenceOptions.cs:11-12 | with 3 attempts and 500 ms, a failing operation runs 3 times and waits 2500 ms before the rethrow |
| `Retry.RetryPolicy.constructor` | RivaAssessment/Infrastructure/RetryPolicy.cs:19-23 | the policy keeps its attempt budget and delay |
| `Retry.RetryPolicy.ExecuteAsync` | RivaAssessment/Infrastructure/RetryPolicy.cs:40-62 | the loop's ending, invocation count and wait count are those of `Retry.Run`; at most MaxRetryAttempts invocations |
| `Authentication.Renew` | RivaAssessment/Services/AuthenticationService.cs:36-42 | the update delegate accepts iff now - lastSeen <= timeout (an elapsed time equal to the timeout is accepted) and then yields now; otherwise SessionExpired |
| `Authentication.Authenticate` | RivaAssessment/Services/AuthenticationService.cs:35-43 | AddOrUpdate with the update delegate: succeeds iff the user is new or at most the timeout has elapsed, and then records now; on expiry the table is unchanged and SessionExpired is raised |
| `Authentication.Replay` | RivaAssessment/Services/AuthenticationService.cs:32-45 | successive authentications of one user at the given ticks, one result per call |
| `Authentication.AuthenticateSpec` | RivaAssessment/Services/AuthenticationService.cs:35-43 | first call inserts now and succeeds; a call within the timeout slides the record to now; an expired call fails and leaves the table unchanged; only the caller's record changes |
| `Authentication.ExpiredStaysExpired` | RivaAssessment/Services/AuthenticationService.cs:35-43 | after an expiry, with a non-decreasing clock, every later call fails and the stale tick is never overwritten |
| `Authentication.SlidingRenewal` | RivaAssessment/Services/AuthenticationService.cs:35-42 | calls each within the timeout of the previous one all succeed, however long the whole chain, and the record ends at the last tick |
| `Authentication.SessionTestScenarios` | RivaAssessment.Tests/AuthenticationTests.cs:29-62 | 50 ms timeout: calls at 0, 30 and 60 ms succeed; 10 microsecond timeout: a call one second and 10 microseconds after the first fails |
| `Authentication.DefaultTimeoutBoundary` | RivaAssessment/Models/AuthenticationOptions.cs:8 | with the 30-minute default, a call exactly 30 minutes after the last is accepted and one a microsecond later is refused |
| `Authentication.AuthenticationService.constructor` | RivaAssessment/Services/AuthenticationService.cs:26-30 | a new authenticator has its timeout and an empty activity table |
| `Authentication.AuthenticationService.AuthenticateAsync` | RivaAssessment/Services/AuthenticationService.cs:32-45 | the new activity table and the result are those of `Authentication.Authenticate` |
| `Credits.EntryOf` | RivaAssessment/Services/CreditService.cs:39 | defined as the user's entry, or the fresh entry (0 credits, not initialized) that GetOrAdd would create |
| `Credits.Loaded` | RivaAssessment/Services/CreditService.cs:44-49 | the cache-miss branch: the entry ends initialized, and an entry already initialized is left as it is |
| `Credits.Deduct` | RivaAssessment/Services/CreditService.cs:39-60 | the ledger is read iff the entry was not loaded; the deduction succeeds iff the loaded balance is not 0, and then it is one less; the entry ends loaded; other entries unchanged |
| `Credits.Get` | RivaAssessment/Services/CreditService.cs:97-108 | reads the ledger iff not loaded and answers the ledger value, else the cached one; the entry ends loaded with that value; other entries unchanged |
| `Credits.Set` | RivaAssessment/Services/CreditService.cs:71-75 | the user's cached balance becomes the given value, its initialized flag is kept; other entries unchanged |
| `Credits.RefusedAtZero` | RivaAssessment/Services/CreditService.cs:51-55 | a loaded balance of 0 is refused and a loaded entry is left unchanged |
| `Credits.NegativeStillDecremented` | RivaAssessment/Services/CreditService.cs:51-56 | because the guard is `== 0`, a cached negative balance is accepted and decremented |
| `Credits.DeductNeverBelowZero` | RivaAssessment/Services/CreditService.cs:51-56 | a deduction from a non-negative balance stays non-negative |
| `Credits.CachedReadIsPure` | RivaAssessment/Services/CreditService.cs:102-108 | a read of a loaded entry returns the cached value, changes nothing and makes no ledger read |
| `Credits.SetThenGet` | RivaAssessment/Services/CreditService.cs:69-108 | a read after a set answers the value set, when the entry was loaded or the ledger write took place |
| `Credits.SetOnColdEntryIsReloaded` | RivaAssessment/Services/CreditService.cs:75 | SetCredits does not mark the entry loaded, so the next read goes to the ledger and answers what it holds |
| `Credits.DeductRepeatedly` | RivaAssessment/Services/CreditService.cs:39-60 | n deductions of one user one after another; at most n succeed, the ledger is read at most once, and never when the entry was already loaded |
| `Credits.SerialDeductions` | RivaAssessment/Services/CreditService.cs:39-60 | N serialised deductions from balance B >= 0 succeed min(B, N) times, leave max(B - N, 0), read the ledger at most once (only if not yet loaded) and leave other users alone |
| `Credits.OneCreditTenCallers` | RivaAssessment.Tests/CreditServiceTests.cs:43-55 | ten deductions on a balance of 1 give exactly one success and one ledger read |
| `Credits.CreditService.constructor` | RivaAssessment/Services/CreditService.cs:22-31 | a new service has an empty cache, no dispatched deduction, and the given ledger |
| `Credits.CreditService.TryDeductCreditAsync` | RivaAssessment/Services/CreditService.cs:32-67 | the cache, result and ledger reads are those of `Credits.Deduct`; a success dispatches one deduction for the user; a failed load leaves a fresh uninitialized entry and raises |
| `Credits.CreditService.SetCredits` | RivaAssessment/Services/CreditService.cs:69-84 | the cache becomes `Credits.Set` even when the ledger write then fails; a good write overwrites the ledger balance |
| `Credits.CreditService.PersistDeduction` | RivaAssessment/Services/CreditService.cs:86-93 | records one dispatched DeductCreditsAsync(user, 1), not awaited |
| `Credits.CreditService.GetCredits` | RivaAssessment/Services/CreditService.cs:95-114 | the cache, result and ledger reads are those of `Credits.Get`; a failed load leaves an uninitialized entry and raises |
| `Refill.Clamp` | RivaAssessment/Services/CreditRefillService.cs:61 | with min <= max the result is the nearest value of [min, max] (unchanged when inside); with min > max it raises |
| `Refill.RefillUser` | RivaAssessment/Services/CreditRefillService.cs:55-74 | one user's body: only earlier calls are kept and new ones appended; no other user's balance or entry changes; a cancelled user is untouched |
| `Refill.RefillAll` | RivaAssessment/Services/CreditRefillService.cs:53-75 | the sweep over the users in order: calls are only appended, and a user not in the list keeps its balance and entry |
| `Refill.HealthyStepInRange` | RivaAssessment/Services/CreditRefillService.cs:58-68 | a user processed without a fault and before cancellation ends with its balance in range |
| `Refill.RefillUserSpec` | RivaAssessment/Services/CreditRefillService.cs:57-68 | without faults the ledger ends clamped; an out-of-range balance is written to the ledger twice and to the cache; an in-range one is only read; other users untouched |
| `Refill.DefaultBoundsExamples` | RivaAssessment.Tests/CreditRefillServiceTests.cs:57-114 | with bounds 5..20: 2 becomes 5, 25 becomes 20, 10 causes no write |
| `Refill.RefillUserKeepsRange` | RivaAssessment/Services/CreditRefillService.cs:55-74 | processing any user, with any fault, keeps every in-range balance in range |
| `Refill.InRangeStepOnlyReads` | RivaAssessment/Services/CreditRefillService.cs:60-63 | a user already in range is at most read: no balance or entry changes |
| `Refill.InRangeSweepOnlyReads` | RivaAssessment/Services/CreditRefillService.cs:60-63 | a sweep over in-range users changes no balance or entry and makes only reads |
| `Refill.SweepClampsHealthyUsers` | RivaAssessment/Services/CreditRefillService.cs:53-75 | every user processed before cancellation without a fault ends in range, whatever happens to the others |
| `Refill.SweepIsIdempotent` | RivaAssessment/Services/CreditRefillService.cs:60-63 | after a fault-free sweep, a second sweep writes nothing and changes nothing |
| `Refill.CancelledUsersUntouched` | RivaAssessment/Services/CreditRefillService.cs:57 | users reached after cancellation are not read or written; the sweep equals one over the list cut at that point |
| `Refill.InvertedBoundsWriteNothing` | RivaAssessment/Services/CreditRefillService.cs:61-71 | with min > max every user is skipped with no write, and the sweep completes |
| `Refill.FailureIsIsolated` | RivaAssessment.Tests/CreditRefillServiceTests.cs:123-137 | with two users where one user's read fails, the other user at 2 is still refilled to 5 in ledger and cache, in the test's order (the failing user second) and in the mirrored order; the failing user is left as it was |
| `Refill.CreditRefillService.constructor` | RivaAssessment/Services/CreditRefillService.cs:28-38 | the sweep keeps its bounds, its ledger and its credit service |
| `Refill.CreditRefillService.RefillCreditsForAllUsersAsync` | RivaAssessment/Services/CreditRefillService.cs:51-76 | the ledger, cache and ledger calls end as `Refill.RefillAll` says; the sweep itself never raises |
| `Refill.CreditRefillService.RefillUserAsync` | RivaAssessment/Services/CreditRefillService.cs:55-74 | one user's body with its catch-all handler moves the state as `Refill.RefillUser` |

## Left out

- Concurrency: the per-user `SemaphoreSlim`, the `ConcurrentDictionary` atomicity and
  `Parallel.ForEachAsync` are not modelled. Each locked body, each `AddOrUpdate` and
  each per-user body of the sweep is one atomic step, and the sweep handles users in
  list order.
- Entries are map values, not shared objects. No aliasing is observable, because the
  cache owns its entries.
- The detached deduction task is not run. `pending` records that it was dispatched;
  `Retry.RetryPolicy.ExecuteAsync` models what the policy does with it. Races between it
  and the sweep's writes are out of scope.
- `Retry.RetryPolicy.ExecuteAsync`: a negative `RetryDelayMilliseconds` is not modelled.
  The model assumes a delay of at least 0. With -1 the source's `Task.Delay` waits
  forever; below -1 it raises ArgumentOutOfRangeException at the first quiet failure.
- Cancellation requested during a `Task.Delay` wait of the retry loop (the delay then
  raises) is not modelled. Cancellation is observed only at the exception filter.
- Latency, real waiting, the clock and logging are left out. Waits are counted and the
  clock is an integer tick.
- `Authentication.AuthenticationService.AuthenticateAsync`: the source reads the clock
  twice, once for the inserted value and once inside the update delegate. The model uses
  one tick for both.
- A ledger call that raises is not recorded in `calls` and has no effect on the store.
- HTTP middleware, controller, program wiring, the refill background timer and the
  static user list are not part of this model.
- Integer width: `int` and `DateTime` arithmetic are unbounded here. The wrap-around of a
  32-bit `Credits--` at the minimum value, or of a huge `SetCredits` value, is not modelled.
