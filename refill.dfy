/** The refill sweep: every listed user's ledger balance is clamped into
    [minimum, maximum], and a corrected balance is written to the ledger and pushed
    into the credit cache. */
module Refill {
  import opened Outcomes
  import Ledger
  import Credits

  /** The default bounds of the refill options. */
  const DefaultMinimumCredits: int := 5
  const DefaultMaximumCredits: int := 20

  /** Math.Clamp: the nearest value of [lo, hi], or an ArgumentException when lo > hi. */
  function Clamp(value: int, lo: int, hi: int): (r: Result<int>)
    ensures r.Ok? <==> lo <= hi
    ensures r.Err? ==> r.error == InvalidRange
    ensures r.Ok? ==> lo <= r.value <= hi
    ensures r.Ok? && lo <= value <= hi ==> r.value == value
    ensures r.Ok? && value < lo ==> r.value == lo
    ensures r.Ok? && hi < value ==> r.value == hi
  {
    if lo > hi then Err(InvalidRange)
    else if value < lo then Ok(lo)
    else if hi < value then Ok(hi)
    else Ok(value)
  }

  /** Where the processing of one user raises a transient failure, if anywhere. */
  datatype Fault =
    | NoFault
    | ReadFails        // GetCreditsAsync raises
    | WriteFails       // the sweep's own SetCreditsAsync raises
    | CacheWriteFails  // the ledger write inside the credit service's SetCredits raises

  /** The fault met at list position `i`; a user listed twice may fare differently on
      each visit. */
  function FaultAt(faults: map<nat, Fault>, i: nat): Fault
  {
    if i in faults then faults[i] else NoFault
  }

  /** What the sweep can change or be observed by: the ledger's balances, the credit
      cache, and the calls that reached the ledger. */
  datatype World = World(store: map<string, int>, cache: map<string, Credits.Entry>, calls: seq<Ledger.Call>)

  /** The per-user body: any exception, including the cancellation raised when the token
      is `cancelled`, is caught and ends this user's processing only. */
  function RefillUser(w: World, user: string, lo: int, hi: int, cancelled: bool, fault: Fault): (r: World)
    ensures |w.calls| <= |r.calls| && r.calls[..|w.calls|] == w.calls
    ensures forall u :: u != user ==>
      Ledger.Balance(r.store, u) == Ledger.Balance(w.store, u) && Credits.EntryOf(r.cache, u) == Credits.EntryOf(w.cache, u)
    ensures cancelled ==> r == w
  {
    if cancelled || fault == ReadFails then w
    else
      var credits := Ledger.Balance(w.store, user);
      var read := w.(calls := w.calls + [Ledger.GetCall(user)]);
      match Clamp(credits, lo, hi)
      case Err(_) => read
      case Ok(target) =>
        if target == credits || fault == WriteFails then read
        else
          var written := World(read.store[user := target], read.cache, read.calls + [Ledger.SetCall(user, target)]);
          var cached := written.(cache := Credits.Set(written.cache, user, target));
          if fault == CacheWriteFails then cached
          else cached.(store := cached.store[user := target], calls := cached.calls + [Ledger.SetCall(user, target)])
  }

  /** The sweep over `users` in order; the token is seen cancelled from index `cancelFrom` on. */
  function RefillAll(w: World, users: seq<string>, lo: int, hi: int, cancelFrom: nat, faults: map<nat, Fault>): (r: World)
    ensures |w.calls| <= |r.calls| && r.calls[..|w.calls|] == w.calls
    ensures forall u :: u !in users ==>
      Ledger.Balance(r.store, u) == Ledger.Balance(w.store, u) && Credits.EntryOf(r.cache, u) == Credits.EntryOf(w.cache, u)
    decreases |users|
  {
    if |users| == 0 then w
    else
      var i := |users| - 1;
      RefillUser(RefillAll(w, users[..i], lo, hi, cancelFrom, faults), users[i], lo, hi, i >= cancelFrom, FaultAt(faults, i))
  }

  ghost predicate InRange(store: map<string, int>, user: string, lo: int, hi: int)
  {
    lo <= Ledger.Balance(store, user) <= hi
  }

  /** The calls a sweep step added write nothing. */
  ghost predicate OnlyReads(calls: seq<Ledger.Call>)
  {
    forall i :: 0 <= i < |calls| ==> calls[i].GetCall?
  }

  /** One user without faults: the ledger ends at the clamped balance. When it was out of
      range, the ledger is written twice with it (once by the sweep, once by SetCredits)
      and the cache holds it; when it was in range, the user's ledger is read and nothing
      is written. No other user's balance or entry changes. */
  lemma RefillUserSpec(w: World, user: string, lo: int, hi: int)
    requires lo <= hi
    ensures var b := Ledger.Balance(w.store, user);
      var target := Clamp(b, lo, hi).value;
      var r := RefillUser(w, user, lo, hi, false, NoFault);
      && lo <= target <= hi
      && (target == b ==> r == w.(calls := w.calls + [Ledger.GetCall(user)]))
      && (target != b ==>
            && r.store == w.store[user := target]
            && Credits.EntryOf(r.cache, user).credits == target
            && r.calls == w.calls + [Ledger.GetCall(user), Ledger.SetCall(user, target), Ledger.SetCall(user, target)])
      && (forall u :: u != user ==>
            Ledger.Balance(r.store, u) == Ledger.Balance(w.store, u) && Credits.EntryOf(r.cache, u) == Credits.EntryOf(w.cache, u))
  {
  }

  /** The cases of the tests with the default bounds 5..20: 2 becomes 5, 25 becomes 20,
      and 10 is left alone with no write. */
  lemma DefaultBoundsExamples(w: World, user: string)
    ensures Ledger.Balance(w.store, user) == 2 ==>
      RefillUser(w, user, DefaultMinimumCredits, DefaultMaximumCredits, false, NoFault).store == w.store[user := 5]
    ensures Ledger.Balance(w.store, user) == 25 ==>
      RefillUser(w, user, DefaultMinimumCredits, DefaultMaximumCredits, false, NoFault).store == w.store[user := 20]
    ensures Ledger.Balance(w.store, user) == 10 ==>
      RefillUser(w, user, DefaultMinimumCredits, DefaultMaximumCredits, false, NoFault) == w.(calls := w.calls + [Ledger.GetCall(user)])
  {
  }

  /** A user processed without a fault and before cancellation ends in range. */
  lemma HealthyStepInRange(w: World, user: string, lo: int, hi: int)
    requires lo <= hi
    ensures InRange(RefillUser(w, user, lo, hi, false, NoFault).store, user, lo, hi)
  {
  }

  /** A user whose balance is in range is never written, whatever the faults; and a step
      keeps every in-range user in range. */
  lemma RefillUserKeepsRange(w: World, user: string, lo: int, hi: int, cancelled: bool, fault: Fault, v: string)
    requires InRange(w.store, v, lo, hi)
    ensures InRange(RefillUser(w, user, lo, hi, cancelled, fault).store, v, lo, hi)
  {
  }

  /** One step on a user in range changes nothing and at most reads that user. */
  lemma InRangeStepOnlyReads(w: World, user: string, lo: int, hi: int, cancelled: bool, fault: Fault)
    requires InRange(w.store, user, lo, hi)
    ensures var r := RefillUser(w, user, lo, hi, cancelled, fault);
      r.store == w.store && r.cache == w.cache && OnlyReads(r.calls[|w.calls|..])
  {
  }

  lemma OnlyReadsAppend(calls: seq<Ledger.Call>, k: nat, more: seq<Ledger.Call>)
    requires k <= |calls| && OnlyReads(calls[k..]) && OnlyReads(more)
    ensures OnlyReads((calls + more)[k..])
  {
    assert (calls + more)[k..] == calls[k..] + more;
  }

  /** With every listed user in range, a sweep only reads: it changes no balance and no
      cache entry, and every call it makes is a GetCreditsAsync. */
  lemma {:induction false} InRangeSweepOnlyReads(w: World, users: seq<string>, lo: int, hi: int, cancelFrom: nat, faults: map<nat, Fault>)
    requires forall i :: 0 <= i < |users| ==> InRange(w.store, users[i], lo, hi)
    ensures var r := RefillAll(w, users, lo, hi, cancelFrom, faults);
      r.store == w.store && r.cache == w.cache && OnlyReads(r.calls[|w.calls|..])
    decreases |users|
  {
    if |users| > 0 {
      var i := |users| - 1;
      var prefix := users[..i];
      assert forall j :: 0 <= j < |prefix| ==> prefix[j] == users[j];
      InRangeSweepOnlyReads(w, prefix, lo, hi, cancelFrom, faults);
      var mid := RefillAll(w, prefix, lo, hi, cancelFrom, faults);
      InRangeStepOnlyReads(mid, users[i], lo, hi, i >= cancelFrom, FaultAt(faults, i));
      var r := RefillUser(mid, users[i], lo, hi, i >= cancelFrom, FaultAt(faults, i));
      assert r.calls == mid.calls + r.calls[|mid.calls|..];
      OnlyReadsAppend(mid.calls, |w.calls|, r.calls[|mid.calls|..]);
    }
  }

  /** Every user processed without a fault and before cancellation ends in range, and stays
      so however the other users fail: one user's failure does not stop the others. */
  lemma {:induction false} SweepClampsHealthyUsers(w: World, users: seq<string>, lo: int, hi: int, cancelFrom: nat, faults: map<nat, Fault>)
    requires lo <= hi
    ensures var r := RefillAll(w, users, lo, hi, cancelFrom, faults);
      forall i :: 0 <= i < |users| && i < cancelFrom && FaultAt(faults, i) == NoFault ==>
        InRange(r.store, users[i], lo, hi)
    decreases |users|
  {
    if |users| > 0 {
      var n := |users| - 1;
      var prefix := users[..n];
      var mid := RefillAll(w, prefix, lo, hi, cancelFrom, faults);
      SweepClampsHealthyUsers(w, prefix, lo, hi, cancelFrom, faults);
      var r := RefillUser(mid, users[n], lo, hi, n >= cancelFrom, FaultAt(faults, n));
      forall i | 0 <= i < |users| && i < cancelFrom && FaultAt(faults, i) == NoFault
        ensures InRange(r.store, users[i], lo, hi)
      {
        if i < n {
          assert prefix[i] == users[i];
          RefillUserKeepsRange(mid, users[n], lo, hi, n >= cancelFrom, FaultAt(faults, n), users[i]);
        } else {
          HealthyStepInRange(mid, users[n], lo, hi);
        }
      }
    }
  }

  /** The sweep is idempotent: after a sweep without faults or cancellation, a second sweep
      over the same users changes nothing and writes nothing, whatever befalls it. */
  lemma SweepIsIdempotent(w: World, users: seq<string>, lo: int, hi: int, faults: map<nat, Fault>, cancelFrom: nat, faults2: map<nat, Fault>)
    requires lo <= hi
    requires forall i :: 0 <= i < |users| ==> FaultAt(faults, i) == NoFault
    ensures var once := RefillAll(w, users, lo, hi, |users|, faults);
      var twice := RefillAll(once, users, lo, hi, cancelFrom, faults2);
      twice.store == once.store && twice.cache == once.cache
      && |once.calls| <= |twice.calls| && OnlyReads(twice.calls[|once.calls|..])
  {
    SweepClampsHealthyUsers(w, users, lo, hi, |users|, faults);
    var once := RefillAll(w, users, lo, hi, |users|, faults);
    InRangeSweepOnlyReads(once, users, lo, hi, cancelFrom, faults2);
  }

  /** Users reached after cancellation are not processed at all: the sweep behaves as if
      the list stopped at the first cancelled index. */
  lemma {:induction false} CancelledUsersUntouched(w: World, users: seq<string>, lo: int, hi: int, cancelFrom: nat, faults: map<nat, Fault>)
    requires cancelFrom <= |users|
    ensures RefillAll(w, users, lo, hi, cancelFrom, faults) == RefillAll(w, users[..cancelFrom], lo, hi, cancelFrom, faults)
    decreases |users|
  {
    if |users| > cancelFrom {
      var n := |users| - 1;
      assert users[..n][..cancelFrom] == users[..cancelFrom];
      CancelledUsersUntouched(w, users[..n], lo, hi, cancelFrom, faults);
    } else {
      assert users[..cancelFrom] == users;
    }
  }

  /** With minimum above maximum the clamp throws for every user: nothing is written and
      the sweep still completes. */
  lemma {:induction false} InvertedBoundsWriteNothing(w: World, users: seq<string>, lo: int, hi: int, cancelFrom: nat, faults: map<nat, Fault>)
    requires lo > hi
    ensures var r := RefillAll(w, users, lo, hi, cancelFrom, faults);
      r.store == w.store && r.cache == w.cache && OnlyReads(r.calls[|w.calls|..])
    decreases |users|
  {
    if |users| > 0 {
      var i := |users| - 1;
      InvertedBoundsWriteNothing(w, users[..i], lo, hi, cancelFrom, faults);
      var mid := RefillAll(w, users[..i], lo, hi, cancelFrom, faults);
      var r := RefillUser(mid, users[i], lo, hi, i >= cancelFrom, FaultAt(faults, i));
      assert r.store == mid.store && r.cache == mid.cache && OnlyReads(r.calls[|mid.calls|..]);
      assert r.calls == mid.calls + r.calls[|mid.calls|..];
      OnlyReadsAppend(mid.calls, |w.calls|, r.calls[|mid.calls|..]);
    }
  }

  /** Two users with the default bounds, one of whose ledger reads fails: the other one,
      at balance 2, is still refilled to 5 in the ledger and in the cache, whichever of the
      two comes first, and the failing one is left as it was. */
  lemma FailureIsIsolated(w: World, good: string, bad: string)
    requires good != bad && Ledger.Balance(w.store, good) == 2
    ensures var r := RefillAll(w, [good, bad], DefaultMinimumCredits, DefaultMaximumCredits, 2, map[1 := ReadFails]);
      && Ledger.Balance(r.store, good) == 5 && Credits.EntryOf(r.cache, good).credits == 5
      && Ledger.Balance(r.store, bad) == Ledger.Balance(w.store, bad)
    ensures var r := RefillAll(w, [bad, good], DefaultMinimumCredits, DefaultMaximumCredits, 2, map[0 := ReadFails]);
      && Ledger.Balance(r.store, good) == 5 && Credits.EntryOf(r.cache, good).credits == 5
      && Ledger.Balance(r.store, bad) == Ledger.Balance(w.store, bad)
  {
    var lo, hi := DefaultMinimumCredits, DefaultMaximumCredits;
    RefillUserSpec(w, good, lo, hi);
    var refilled := RefillUser(w, good, lo, hi, false, NoFault);
    assert [good, bad][..1] == [good] && [good][..0] == [] && [bad, good][..1] == [bad] && [bad][..0] == [];
    assert RefillAll(w, [good], lo, hi, 2, map[1 := ReadFails]) == refilled;
    assert RefillAll(w, [good, bad], lo, hi, 2, map[1 := ReadFails]) == RefillUser(refilled, bad, lo, hi, false, ReadFails) == refilled;
    assert RefillAll(w, [bad], lo, hi, 2, map[0 := ReadFails]) == RefillUser(w, bad, lo, hi, false, ReadFails) == w;
    assert RefillAll(w, [bad, good], lo, hi, 2, map[0 := ReadFails]) == refilled;
  }

  /** The sweep service, wired to the same ledger as the credit service it pushes to. */
  class CreditRefillService {
    const minimumCredits: int
    const maximumCredits: int
    const ledger: Ledger.BillingRepository
    const creditService: Credits.CreditService

    constructor (minimumCredits: int, maximumCredits: int, ledger: Ledger.BillingRepository, creditService: Credits.CreditService)
      ensures this.minimumCredits == minimumCredits && this.maximumCredits == maximumCredits
      ensures this.ledger == ledger && this.creditService == creditService
    {
      this.minimumCredits := minimumCredits;
      this.maximumCredits := maximumCredits;
      this.ledger := ledger;
      this.creditService := creditService;
    }

    /** The observable state the sweep works on. */
    ghost function Observed(): World
      reads ledger, creditService
    {
      World(ledger.creditStore, creditService.cache, ledger.calls)
    }

    /** Refills every user in `users`; the token is seen cancelled from index `cancelFrom`
        on and `faults` says where the processing at each list position raises. Never raises itself. */
    method RefillCreditsForAllUsersAsync(users: seq<string>, cancelFrom: nat, faults: map<nat, Fault>)
      requires creditService.ledger == ledger
      modifies ledger, creditService`cache
      ensures Observed() == RefillAll(old(Observed()), users, minimumCredits, maximumCredits, cancelFrom, faults)
    {
      ghost var start := Observed();
      var i := 0;
      while i < |users|
        invariant i <= |users|
        invariant Observed() == RefillAll(start, users[..i], minimumCredits, maximumCredits, cancelFrom, faults)
      {
        RefillUserAsync(users[i], i >= cancelFrom, FaultAt(faults, i));
        assert users[..i + 1][..i] == users[..i];
        i := i + 1;
      }
      assert users[..i] == users;
    }

    /** The per-user body of the sweep, with its catch-all handler. */
    method RefillUserAsync(user: string, cancelled: bool, fault: Fault)
      requires creditService.ledger == ledger
      modifies ledger, creditService`cache
      ensures Observed() == RefillUser(old(Observed()), user, minimumCredits, maximumCredits, cancelled, fault)
    {
      if cancelled || fault == ReadFails {
        return;
      }
      var credits := ledger.GetCreditsAsync(user);
      var clamped := Clamp(credits, minimumCredits, maximumCredits);
      if clamped.Err? {
        return;
      }
      var newCredits := clamped.value;
      if credits != newCredits {
        if fault == WriteFails {
          return;
        }
        ledger.SetCreditsAsync(user, newCredits);
        var _ := creditService.SetCredits(user, newCredits, fault == CacheWriteFails);
      }
    }
  }
}
