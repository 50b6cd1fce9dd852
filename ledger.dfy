/** The slow legacy billing store: a dictionary from user id to balance. */
module Ledger {

  /** A ledger call that completed, as a mock of the repository records it. */
  datatype Call =
    | GetCall(user: string)
    | SetCall(user: string, amount: int)
    | DeductCall(user: string, amount: int)

  /** The balances the repository is seeded with. */
  const InitialStore: map<string, int> :=
    map["user1" := 10, "user2" := 5, "user3" := 0, "user4" := 100]

  /** What GetCreditsAsync answers: the stored balance, or 0 for an unknown user. */
  function Balance(store: map<string, int>, user: string): int
  {
    if user in store then store[user] else 0
  }

  /** The store after a conditional deduction, and whether it took place. */
  datatype Deduction = Deduction(store: map<string, int>, ok: bool)

  /** DeductCreditsAsync on a store: an unknown user is inserted with 0 and refused,
      an insufficient balance is refused, otherwise the amount is subtracted. */
  function Deduct(store: map<string, int>, user: string, amount: int): (r: Deduction)
    ensures r.ok <==> user in store && amount <= store[user]
    ensures r.store.Keys == store.Keys + {user}
    ensures r.ok ==> r.store[user] == store[user] - amount
    ensures !r.ok ==> r.store[user] == Balance(store, user)
    ensures forall u :: u in store && u != user ==> r.store[u] == store[u]
  {
    if user !in store then Deduction(store[user := 0], false)
    else if store[user] < amount then Deduction(store, false)
    else Deduction(store[user := store[user] - amount], true)
  }

  ghost predicate NonNegative(store: map<string, int>)
  {
    forall u :: u in store ==> store[u] >= 0
  }

  /** A deduction of a non-negative amount never drives a non-negative store below zero. */
  lemma DeductKeepsNonNegative(store: map<string, int>, user: string, amount: int)
    requires NonNegative(store) && 0 <= amount
    ensures NonNegative(Deduct(store, user, amount).store)
    ensures Deduct(store, user, amount).ok ==> Balance(Deduct(store, user, amount).store, user) >= 0
  {
  }

  /** The 0 inserted for an unknown user is invisible to a later read: every balance
      reads as before, except the deducted one when the deduction succeeded. */
  lemma DeductAsSeenByReads(store: map<string, int>, user: string, amount: int, other: string)
    ensures var d := Deduct(store, user, amount);
      Balance(d.store, other) ==
        if d.ok && other == user then Balance(store, user) - amount else Balance(store, other)
  {
  }

  /** SetCreditsAsync is read back by GetCreditsAsync, whatever the amount's sign, and no
      other balance changes. */
  lemma SetThenBalance(store: map<string, int>, user: string, amount: int, other: string)
    ensures Balance(store[user := amount], other) == if other == user then amount else Balance(store, other)
  {
  }

  /** The seeded balances. */
  lemma InitialBalances()
    ensures Balance(InitialStore, "user1") == 10 && Balance(InitialStore, "user2") == 5
    ensures Balance(InitialStore, "user3") == 0 && Balance(InitialStore, "user4") == 100
    ensures Balance(InitialStore, "user5") == 0
  {
  }

  /** The repository object shared by the credit cache and the refill sweep. */
  class BillingRepository {
    var creditStore: map<string, int>
    /** Every call that reached the repository, oldest first. */
    ghost var calls: seq<Call>

    constructor ()
      ensures creditStore == InitialStore && calls == []
    {
      creditStore := InitialStore;
      calls := [];
    }

    method GetCreditsAsync(user: string) returns (credits: int)
      modifies this`calls
      ensures credits == Balance(creditStore, user)
      ensures creditStore == old(creditStore)
      ensures calls == old(calls) + [GetCall(user)]
    {
      credits := if user in creditStore then creditStore[user] else 0;
      calls := calls + [GetCall(user)];
    }

    method DeductCreditsAsync(user: string, amount: int) returns (ok: bool)
      modifies this
      ensures creditStore == Deduct(old(creditStore), user, amount).store
      ensures ok == Deduct(old(creditStore), user, amount).ok
      ensures calls == old(calls) + [DeductCall(user, amount)]
    {
      calls := calls + [DeductCall(user, amount)];
      if user !in creditStore {
        creditStore := creditStore[user := 0];
        return false;
      }
      var current := creditStore[user];
      if current < amount {
        return false;
      }
      creditStore := creditStore[user := current - amount];
      ok := true;
    }

    method SetCreditsAsync(user: string, amount: int)
      modifies this
      ensures creditStore == old(creditStore)[user := amount]
      ensures calls == old(calls) + [SetCall(user, amount)]
    {
      creditStore := creditStore[user := amount];
      calls := calls + [SetCall(user, amount)];
    }
  }
}
