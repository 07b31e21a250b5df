/**
 `AccountsRepositoryInMemory`: create, look up and clear accounts, and move
 money between two of them. The repository holds one lock around every
 transfer, so transfers are serialized with each other. Each call is modelled
 as one whole step: a pure function from the ledger before the call to the ledger
 after it, together with what the call threw.
 */
module AccountsRepository {
  import opened Options
  import opened Text
  import opened TransferRequests
  import opened Ledgers

  /** The exceptions a repository call can end in. */
  datatype Thrown =
    | DuplicateAccountId(id: string)
    | AccountNotFound(id: string)
    | SameAccount(from: string, to: string)
    | InsufficientFunds(id: string, amount: int)
      /** A `null` id or amount reaching the map lookup or the comparison. */
    | NullPointer

  const AccountIdLead := "Account id "
  const SameAccountLead := "AccountFrom "

  /**
   The exception's message. A `NullPointerException` raised by the map or by
   `compareTo` carries none; every exception the repository raises itself
   names the account it is about right after a fixed lead-in.
   */
  function Message(e: Thrown): (m: Option<string>)
    ensures m.None? <==> e.NullPointer?
    ensures e.DuplicateAccountId? || e.AccountNotFound? || e.InsufficientFunds? ==>
      m.Some? && |m.value| > |AccountIdLead| + |e.id|
      && m.value[..|AccountIdLead|] == AccountIdLead
      && m.value[|AccountIdLead|..|AccountIdLead| + |e.id|] == e.id
    ensures e.SameAccount? ==>
      m.Some? && |m.value| > |SameAccountLead| + |e.from|
      && m.value[..|SameAccountLead|] == SameAccountLead
      && m.value[|SameAccountLead|..|SameAccountLead| + |e.from|] == e.from
  {
    match e
    case DuplicateAccountId(id) => Some(AccountIdLead + id + " already exists!")
    case AccountNotFound(id) => Some(AccountIdLead + id + " not found")
    case SameAccount(from, to) => Some(SameAccountLead + from + " is same as accountTo " + to)
    case InsufficientFunds(id, amount) =>
      Some(AccountIdLead + id + " balance is less than " + IntToDecimal(amount))
    case NullPointer => None
  }

  /** The message of an insufficient-funds failure reads back as the requested amount. */
  lemma InsufficientFundsMessageAmount(id: string, amount: int)
    ensures var m := Message(InsufficientFunds(id, amount)).value;
      var tail := |AccountIdLead + id + " balance is less than "|;
      |m| > tail && SignedValue(m[tail..]) == amount
  {
    var m := Message(InsufficientFunds(id, amount)).value;
    var tail := |AccountIdLead + id + " balance is less than "|;
    assert m[tail..] == IntToDecimal(amount);
    IntToDecimalRoundTrip(amount);
  }

  /** The ledger after a call and what the call threw, if anything. */
  datatype Outcome = Outcome(ledger: Ledger, thrown: Option<Thrown>)

  /**
   `createAccount`: `putIfAbsent` under the account's id. A fresh id is added
   with its balance and nothing else changes; an id already present is
   refused and the first account stays as it was.
   */
  function CreateAccount(l: Ledger, account: Account): (r: Outcome)
    ensures account.id !in l ==>
      && r.thrown.None?
      && r.ledger.Keys == l.Keys + {account.id}
      && GetAccount(r.ledger, account.id) == Some(account)
      && (forall id :: id in l ==> r.ledger[id] == l[id])
    ensures account.id in l ==>
      r.thrown == Some(DuplicateAccountId(account.id)) && r.ledger == l
    ensures r.thrown.Some? ==> Message(r.thrown.value) == Some(AccountIdLead + account.id + " already exists!")
  {
    if account.id in l then Outcome(l, Some(DuplicateAccountId(account.id)))
    else Outcome(l[account.id := account.balance], None)
  }

  /** `getAccount`: the account stored under exactly this id (case matters), or `null`. */
  function GetAccount(l: Ledger, id: string): (r: Option<Account>)
    ensures r.Some? <==> id in l
    ensures r.Some? ==> r.value.id == id && r.value.balance == l[id]
  {
    if id in l then Some(Account(id, l[id])) else None
  }

  /** `clearAccounts`: afterwards no id finds an account. */
  function ClearAccounts(l: Ledger): (r: Ledger)
    ensures forall id :: GetAccount(r, id) == None
  {
    map[]
  }

  /** `getTwoAccountBalance`: the combined balance of the two accounts of a transfer. */
  function TwoAccountBalance(from: Account, to: Account): (s: int)
    ensures forall l: Ledger :: GetAccount(l, from.id) == Some(from) && GetAccount(l, to.id) == Some(to) ==>
      s == l[from.id] + l[to.id]
  {
    from.balance + to.balance
  }

  /** `BigDecimal.compareTo`: exactly -1, 0 or 1 as the first value is below, equal to or above the second. */
  function CompareAmount(a: int, b: int): (c: int)
    ensures c == -1 <==> a < b
    ensures c == 0 <==> a == b
    ensures c == 1 <==> a > b
  {
    if a < b then -1 else if a > b then 1 else 0
  }

  /** A notification handed to the e-mail service: the account after the move and a description. */
  datatype Notice = Notice(account: Account, description: string)

  /** The ledger after a transfer, what it threw, and the notifications it sent. */
  datatype TransferOutcome = TransferOutcome(ledger: Ledger, thrown: Option<Thrown>, notices: seq<Notice>)

  /** Both ids of a request are present: neither lookup meets a `null`. */
  predicate HasIds(req: TransferRequest)
  {
    req.accountFrom.Some? && req.accountTo.Some?
  }

  /** Both ids are present, both accounts exist, and they are different accounts ignoring case. */
  predicate Distinct(l: Ledger, req: TransferRequest)
  {
    && HasIds(req)
    && req.accountFrom.value in l
    && req.accountTo.value in l
    && !SameIgnoringCase(req.accountFrom.value, req.accountTo.value)
  }

  /**
   `transferMoney`. Both accounts are looked up first; then the checks run in
   order: source found, target found, not the same account ignoring case.
   The amount is then compared with the source balance: below it, the source
   is debited and the target credited and, the two-account sum matching, both
   accounts are notified; above it, the call fails; equal to it, the call
   returns normally having done nothing. A refused call changes nothing.
   */
  function TransferMoney(l: Ledger, req: TransferRequest): (r: TransferOutcome)
    ensures r.thrown.Some? ==> r.ledger == l && r.notices == []
    ensures r.ledger.Keys == l.Keys
    ensures !HasIds(req) ==> r.thrown == Some(NullPointer)
    ensures HasIds(req) && req.accountFrom.value !in l ==>
      r.thrown == Some(AccountNotFound(req.accountFrom.value))
    ensures HasIds(req) && req.accountFrom.value in l && req.accountTo.value !in l ==>
      r.thrown == Some(AccountNotFound(req.accountTo.value))
    ensures (&& HasIds(req) && req.accountFrom.value in l && req.accountTo.value in l
             && SameIgnoringCase(req.accountFrom.value, req.accountTo.value)) ==>
      r.thrown == Some(SameAccount(req.accountFrom.value, req.accountTo.value))
    ensures Distinct(l, req) && req.amount.None? ==> r.thrown == Some(NullPointer)
    ensures Distinct(l, req) && req.amount.Some? ==>
      var from, to, amount := req.accountFrom.value, req.accountTo.value, req.amount.value;
      && (amount < l[from] ==>
            && r.thrown.None?
            && r.ledger[from] == l[from] - amount
            && r.ledger[to] == l[to] + amount
            && (forall id :: id in l && id != from && id != to ==> r.ledger[id] == l[id])
            && r.notices == [Notice(Account(from, r.ledger[from]), " withdraw sucess"),
                             Notice(Account(to, r.ledger[to]), " deposit sucess")])
      && (amount > l[from] ==> r.thrown == Some(InsufficientFunds(from, amount)))
      && (amount == l[from] ==> r == TransferOutcome(l, None, []))
  {
    if !HasIds(req) then TransferOutcome(l, Some(NullPointer), [])
    else
      var accountFrom := GetAccount(l, req.accountFrom.value);
      var accountTo := GetAccount(l, req.accountTo.value);
      if accountFrom.None? then TransferOutcome(l, Some(AccountNotFound(req.accountFrom.value)), [])
      else if accountTo.None? then TransferOutcome(l, Some(AccountNotFound(req.accountTo.value)), [])
      else
        var from, to := accountFrom.value, accountTo.value;
        if CompareToIgnoreCase(from.id, to.id) == 0 then
          TransferOutcome(l, Some(SameAccount(from.id, to.id)), [])
        else
          var beforeTotal := TwoAccountBalance(from, to);
          if req.amount.None? then TransferOutcome(l, Some(NullPointer), [])
          else
            var amount := req.amount.value;
            if CompareAmount(amount, from.balance) == -1 then
              var from', to' := from.Withdraw(amount), to.Deposit(amount);
              var l' := l[from.id := from'.balance][to.id := to'.balance];
              var notices :=
                if beforeTotal == TwoAccountBalance(from', to') then
                  [Notice(from', " withdraw sucess"), Notice(to', " deposit sucess")]
                else [];
              TransferOutcome(l', None, notices)
            else if CompareAmount(amount, from.balance) == 1 then
              TransferOutcome(l, Some(InsufficientFunds(req.accountFrom.value, amount)), [])
            else
              TransferOutcome(l, None, [])
  }

  /** No transfer creates or destroys money: the ledger-wide total is the same afterwards. */
  lemma TransferConservesTotal(l: Ledger, req: TransferRequest)
    ensures Total(TransferMoney(l, req).ledger) == Total(l)
  {
    var r := TransferMoney(l, req);
    if r.ledger != l {
      var from, to, amount := req.accountFrom.value, req.accountTo.value, req.amount.value;
      var l1 := l[from := l[from] - amount];
      TotalUpdate(l, from, l[from] - amount);
      TotalUpdate(l1, to, l[to] + amount);
      assert r.ledger == l1[to := l[to] + amount];
    }
  }

  /** A transfer that moves money keeps the sum of its two accounts. */
  lemma TransferConservesPair(l: Ledger, req: TransferRequest)
    requires Distinct(l, req)
    ensures var r := TransferMoney(l, req);
      var from, to := req.accountFrom.value, req.accountTo.value;
      r.ledger[from] + r.ledger[to] == l[from] + l[to]
  {
  }

  /**
   With a valid request, non-negative balances stay non-negative, and a
   source that was debited keeps a strictly positive balance.
   */
  lemma TransferKeepsNonNegative(l: Ledger, req: TransferRequest)
    requires NonNegative(l) && req.Valid()
    ensures NonNegative(TransferMoney(l, req).ledger)
    ensures var r := TransferMoney(l, req);
      Distinct(l, req) && req.amount.value < l[req.accountFrom.value] ==> r.ledger[req.accountFrom.value] > 0
  {
  }

  /** Without validation a negative amount moves money the wrong way and can overdraw the target. */
  lemma NegativeAmountOverdraws()
    ensures var l := map["A" := 10, "B" := 0];
      var r := TransferMoney(l, TransferRequest(Some("A"), Some("B"), Some(-5)));
      NonNegative(l) && r.thrown.None? && r.ledger["B"] == -5
  {
  }

  /** Two ids that differ only in case are distinct accounts, but never transfer to each other. */
  lemma CaseVariantsAreSameAccount()
    ensures var l := map["id1" := 100, "ID1" := 100];
      var r := TransferMoney(l, TransferRequest(Some("id1"), Some("ID1"), Some(10)));
      |l| == 2 && r.thrown == Some(SameAccount("id1", "ID1")) && r.ledger == l
  {
  }

  /** The service test's duplicate: the second creation of one id fails with the message the test expects. */
  lemma DuplicateCreateScenario(l: Ledger, a: Account, again: Account)
    requires again.id == a.id
    ensures var r := CreateAccount(CreateAccount(l, a).ledger, again);
      && r.thrown == Some(DuplicateAccountId(a.id))
      && Message(r.thrown.value) == Some(AccountIdLead + a.id + " already exists!")
      && GetAccount(r.ledger, a.id) == GetAccount(CreateAccount(l, a).ledger, a.id)
  {
  }

  /**
   The two accounts of a transfer hold exactly the part of the ledger-wide
   total that the rest of the ledger does not.
   */
  lemma TwoAccountShare(l: Ledger, from: string, to: string)
    requires from in l && to in l && from != to
    ensures TwoAccountBalance(GetAccount(l, from).value, GetAccount(l, to).value) + Total(l - {from} - {to}) == Total(l)
  {
    TotalRemove(l, from);
    TotalRemove(l - {from}, to);
  }
}
