/**
 The state of the in-memory repository: a map from account id to balance.
 An account is stored under its own id, so the map's key and the account's
 id never differ and a balance is all the map needs to hold.
 */
module Ledgers {

  /** An account as callers see it. Balances are whole `BigDecimal` values; fractional ones are not modelled. */
  datatype Account = Account(id: string, balance: int)
  {
    /** `Account.withdraw`: the balance drops by the amount. */
    function Withdraw(amount: int): (a: Account)
      ensures a.id == id && a.balance + amount == balance
    {
      this.(balance := balance - amount)
    }

    /** `Account.deposit`: the balance grows by the amount. */
    function Deposit(amount: int): (a: Account)
      ensures a.id == id && a.balance - amount == balance
    {
      this.(balance := balance + amount)
    }
  }

  type Ledger = map<string, int>

  /** Every committed balance is non-negative. */
  predicate NonNegative(l: Ledger)
  {
    forall id :: id in l ==> l[id] >= 0
  }

  ghost function Pick(ids: set<string>): (id: string)
    requires ids != {}
    ensures id in ids
  {
    var id :| id in ids; id
  }

  /** The sum of every balance in the ledger. */
  ghost function Total(l: Ledger): int
    decreases |l|
  {
    if l == map[] then 0
    else
      var id := Pick(l.Keys);
      assert |l - {id}| < |l| by { assert (l - {id}).Keys == l.Keys - {id}; }
      l[id] + Total(l - {id})
  }

  /** The sum does not depend on which account is taken out first. */
  lemma {:induction false} TotalRemove(l: Ledger, id: string)
    requires id in l
    ensures Total(l) == l[id] + Total(l - {id})
    decreases |l|
  {
    var first := Pick(l.Keys);
    if first != id {
      assert (l - {first}).Keys == l.Keys - {first};
      assert (l - {id}).Keys == l.Keys - {id};
      TotalRemove(l - {first}, id);
      TotalRemove(l - {id}, first);
      assert l - {first} - {id} == l - {id} - {first};
    }
  }

  /** Changing one balance changes the total by exactly the difference. */
  lemma TotalUpdate(l: Ledger, id: string, v: int)
    requires id in l
    ensures Total(l[id := v]) == Total(l) - l[id] + v
  {
    TotalRemove(l, id);
    TotalRemove(l[id := v], id);
    assert l[id := v] - {id} == l - {id};
  }

  /** Adding a new account adds its balance to the total. */
  lemma TotalInsert(l: Ledger, id: string, v: int)
    requires id !in l
    ensures Total(l[id := v]) == Total(l) + v
  {
    TotalRemove(l[id := v], id);
    assert l[id := v] - {id} == l;
  }
}
