/** The credit cache: one entry per user holding the cached balance and whether it has
    been loaded from the ledger; deductions are answered from the cache and persisted to
    the ledger out of band. */
module Credits {
  import opened Outcomes
  import Ledger

  /** A cache entry: the cached balance and whether it was loaded from the ledger. */
  datatype Entry = Entry(credits: int, initialized: bool)

  /** The entry GetOrAdd creates on first touch. */
  const Fresh: Entry := Entry(0, false)

  /** The entry GetOrAdd yields for `user`. */
  function EntryOf(cache: map<string, Entry>, user: string): Entry
  {
    if user in cache then cache[user] else Fresh
  }

  /** The entry after the cache-miss branch, given what the ledger holds for the user. */
  function Loaded(e: Entry, stored: int): (r: Entry)
    ensures r.initialized
    ensures e.initialized ==> r == e
  {
    if e.initialized then e else Entry(stored, true)
  }

  /** The cache after an operation on one user, what the operation returns and whether
      it read the ledger. */
  datatype Step<T> = Step(cache: map<string, Entry>, value: T, read: bool)

  /** TryDeductCreditAsync, when the ledger holds `stored` for the user. */
  function Deduct(cache: map<string, Entry>, user: string, stored: int): (r: Step<bool>)
    ensures r.read <==> !EntryOf(cache, user).initialized
    ensures r.value <==> Loaded(EntryOf(cache, user), stored).credits != 0
    ensures r.cache.Keys == cache.Keys + {user} && r.cache[user].initialized
    ensures r.cache[user].credits == Loaded(EntryOf(cache, user), stored).credits - (if r.value then 1 else 0)
    ensures forall u :: u in cache && u != user ==> r.cache[u] == cache[u]
  {
    var e := Loaded(EntryOf(cache, user), stored);
    if e.credits == 0 then Step(cache[user := e], false, !EntryOf(cache, user).initialized)
    else Step(cache[user := e.(credits := e.credits - 1)], true, !EntryOf(cache, user).initialized)
  }

  /** GetCredits, when the ledger holds `stored` for the user. */
  function Get(cache: map<string, Entry>, user: string, stored: int): (r: Step<int>)
    ensures r.read <==> !EntryOf(cache, user).initialized
    ensures r.value == (if r.read then stored else EntryOf(cache, user).credits)
    ensures r.cache.Keys == cache.Keys + {user} && r.cache[user] == Entry(r.value, true)
    ensures forall u :: u in cache && u != user ==> r.cache[u] == cache[u]
    ensures EntryOf(cache, user).initialized ==> r.cache == cache[user := EntryOf(cache, user)]
  {
    var e := Loaded(EntryOf(cache, user), stored);
    Step(cache[user := e], e.credits, !EntryOf(cache, user).initialized)
  }

  /** The cache part of SetCredits: the balance is overwritten, the initialized flag is
      left as it was. */
  function Set(cache: map<string, Entry>, user: string, credits: int): (r: map<string, Entry>)
    ensures r.Keys == cache.Keys + {user}
    ensures EntryOf(r, user) == Entry(credits, EntryOf(cache, user).initialized)
    ensures forall u :: u != user ==> EntryOf(r, u) == EntryOf(cache, u)
  {
    cache[user := EntryOf(cache, user).(credits := credits)]
  }

  /** A cached zero is refused and the entry keeps its (loaded) value. */
  lemma RefusedAtZero(cache: map<string, Entry>, user: string, stored: int)
    requires Loaded(EntryOf(cache, user), stored).credits == 0
    ensures var r := Deduct(cache, user, stored);
      !r.value && r.cache == cache[user := Loaded(EntryOf(cache, user), stored)]
    ensures EntryOf(cache, user).initialized ==> Deduct(cache, user, stored).cache == cache[user := EntryOf(cache, user)]
  {
  }

  /** The refusal test is `== 0`: a cached negative balance is still decremented. */
  lemma NegativeStillDecremented(cache: map<string, Entry>, user: string, stored: int)
    requires EntryOf(cache, user).initialized && EntryOf(cache, user).credits < 0
    ensures Deduct(cache, user, stored).value
    ensures Deduct(cache, user, stored).cache[user].credits == EntryOf(cache, user).credits - 1
  {
  }

  /** A deduction never takes a non-negative balance below zero. */
  lemma DeductNeverBelowZero(cache: map<string, Entry>, user: string, stored: int)
    requires Loaded(EntryOf(cache, user), stored).credits >= 0
    ensures Deduct(cache, user, stored).cache[user].credits >= 0
  {
  }

  /** A read on an initialized entry changes nothing and does not touch the ledger. */
  lemma CachedReadIsPure(cache: map<string, Entry>, user: string, stored: int)
    requires user in cache && cache[user].initialized
    ensures Get(cache, user, stored) == Step(cache, cache[user].credits, false)
  {
  }

  /** SetCredits followed by GetCredits answers the value set, provided the entry had been
      loaded or the ledger now holds that value (which a successful SetCredits ensures). */
  lemma SetThenGet(cache: map<string, Entry>, user: string, credits: int, stored: int)
    requires EntryOf(cache, user).initialized || stored == credits
    ensures Get(Set(cache, user, credits), user, stored).value == credits
  {
  }

  /** Because SetCredits never marks the entry initialized, a set on a never-loaded entry
      is forgotten: the next read goes to the ledger and answers whatever it holds. */
  lemma SetOnColdEntryIsReloaded(cache: map<string, Entry>, user: string, credits: int, stored: int)
    requires !EntryOf(cache, user).initialized
    ensures var r := Get(Set(cache, user, credits), user, stored);
      r.read && r.value == stored
  {
  }

  /** The tally of n deductions of one user issued one after the other. */
  datatype Tally = Tally(cache: map<string, Entry>, successes: nat, loads: nat)

  /** n serialised TryDeductCreditAsync calls for `user`, the ledger holding `stored`. */
  function DeductRepeatedly(cache: map<string, Entry>, user: string, stored: int, n: nat): (t: Tally)
    ensures t.successes <= n && t.loads <= 1
    ensures EntryOf(cache, user).initialized ==> t.loads == 0
    decreases n
  {
    if n == 0 then Tally(cache, 0, 0)
    else
      var first := Deduct(cache, user, stored);
      var rest := DeductRepeatedly(first.cache, user, stored, n - 1);
      Tally(rest.cache, rest.successes + (if first.value then 1 else 0), rest.loads + (if first.read then 1 else 0))
  }

  function Min(a: int, b: int): int { if a <= b then a else b }
  function Max(a: int, b: int): int { if a >= b then a else b }

  /** n serialised deductions from a balance B >= 0 succeed exactly min(B, n) times and
      leave max(B - n, 0); the ledger is read at most once, and only if the entry had not
      been loaded; no other user's entry changes. */
  lemma {:induction false} SerialDeductions(cache: map<string, Entry>, user: string, stored: int, n: nat)
    requires Loaded(EntryOf(cache, user), stored).credits >= 0
    ensures var b := Loaded(EntryOf(cache, user), stored).credits;
      var t := DeductRepeatedly(cache, user, stored, n);
      && t.successes == Min(b, n)
      && EntryOf(t.cache, user) == (if n == 0 then EntryOf(cache, user) else Entry(Max(b - n, 0), true))
      && t.loads == (if n > 0 && !EntryOf(cache, user).initialized then 1 else 0)
      && forall u :: u != user ==> EntryOf(t.cache, u) == EntryOf(cache, u)
    decreases n
  {
    if n > 0 {
      var first := Deduct(cache, user, stored);
      assert forall u :: u != user ==> EntryOf(first.cache, u) == EntryOf(cache, u);
      SerialDeductions(first.cache, user, stored, n - 1);
    }
  }

  /** Ten callers on a balance of one: exactly one succeeds, with a single ledger read. */
  lemma OneCreditTenCallers(cache: map<string, Entry>, user: string)
    requires user !in cache
    ensures DeductRepeatedly(cache, user, 1, 10).successes == 1
    ensures DeductRepeatedly(cache, user, 1, 10).loads == 1
  {
    SerialDeductions(cache, user, 1, 10);
  }

  /** The credit service: the cache of entries, the ledger it loads from and writes to, and
      the deductions it has dispatched to the ledger through the retry policy but that
      have not been carried out. */
  class CreditService {
    var cache: map<string, Entry>
    /** One user id per dispatched DeductCreditsAsync(user, 1), oldest first. */
    var pending: seq<string>
    const ledger: Ledger.BillingRepository

    constructor (ledger: Ledger.BillingRepository)
      ensures this.ledger == ledger && cache == map[] && pending == []
    {
      this.ledger := ledger;
      cache := map[];
      pending := [];
    }

    /** Deducts one credit from `user`; `readFails` says whether the ledger read of a
        cache miss raises a transient failure. */
    method TryDeductCreditAsync(user: string, readFails: bool) returns (r: Result<bool>)
      modifies this`cache, this`pending, ledger`calls
      ensures var e := EntryOf(old(cache), user);
        if !e.initialized && readFails then
          && r == Err(LedgerFailure)
          && cache == old(cache)[user := e] && pending == old(pending)
          && ledger.calls == old(ledger.calls)
        else
          var s := Deduct(old(cache), user, Ledger.Balance(ledger.creditStore, user));
          && r == Ok(s.value)
          && cache == s.cache
          && pending == old(pending) + (if s.value then [user] else [])
          && ledger.calls == old(ledger.calls) + (if s.read then [Ledger.GetCall(user)] else [])
    {
      var entry := EntryOf(cache, user);
      cache := cache[user := entry];
      if !entry.initialized {
        if readFails {
          return Err(LedgerFailure);
        }
        var credits := ledger.GetCreditsAsync(user);
        entry := Entry(credits, true);
        cache := cache[user := entry];
      }
      if entry.credits == 0 {
        return Ok(false);
      }
      entry := entry.(credits := entry.credits - 1);
      cache := cache[user := entry];
      PersistDeduction(user);
      r := Ok(true);
    }

    /** Overwrites the cached balance, then writes the ledger; `writeFails` says whether
        the ledger write raises, in which case the cache keeps the new value. */
    method SetCredits(user: string, credits: int, writeFails: bool) returns (r: Result<()>)
      modifies this`cache, ledger
      ensures cache == Set(old(cache), user, credits)
      ensures r == if writeFails then Err(LedgerFailure) else Ok(())
      ensures writeFails ==> ledger.creditStore == old(ledger.creditStore) && ledger.calls == old(ledger.calls)
      ensures !writeFails ==> ledger.creditStore == old(ledger.creditStore)[user := credits]
      ensures !writeFails ==> ledger.calls == old(ledger.calls) + [Ledger.SetCall(user, credits)]
    {
      var entry := EntryOf(cache, user);
      cache := cache[user := entry.(credits := credits)];
      if writeFails {
        return Err(LedgerFailure);
      }
      ledger.SetCreditsAsync(user, credits);
      r := Ok(());
    }

    /** Dispatches the ledger deduction of one credit without waiting for it. */
    method PersistDeduction(user: string)
      modifies this`pending
      ensures pending == old(pending) + [user]
    {
      pending := pending + [user];
    }

    /** Reads the balance of `user`, loading it from the ledger on a cache miss. */
    method GetCredits(user: string, readFails: bool) returns (r: Result<int>)
      modifies this`cache, ledger`calls
      ensures var e := EntryOf(old(cache), user);
        if !e.initialized && readFails then
          && r == Err(LedgerFailure)
          && cache == old(cache)[user := e]
          && ledger.calls == old(ledger.calls)
        else
          var s := Get(old(cache), user, Ledger.Balance(ledger.creditStore, user));
          && r == Ok(s.value)
          && cache == s.cache
          && ledger.calls == old(ledger.calls) + (if s.read then [Ledger.GetCall(user)] else [])
    {
      var entry := EntryOf(cache, user);
      cache := cache[user := entry];
      if !entry.initialized {
        if readFails {
          return Err(LedgerFailure);
        }
        var credits := ledger.GetCreditsAsync(user);
        entry := Entry(credits, true);
        cache := cache[user := entry];
      }
      r := Ok(entry.credits);
    }
  }
}
