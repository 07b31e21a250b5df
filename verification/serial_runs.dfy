/**
 Sequences of repository calls, each applied as one whole step. The lock
 makes any history of transfers alone such a sequence. This module runs
 sequences of calls and states what holds across all of them.
 */
module SerialRuns {
  import opened Options
  import opened Text
  import opened TransferRequests
  import opened Ledgers
  import opened AccountsRepository

  datatype Call =
    | Create(account: Account)
    | Transfer(request: TransferRequest)
    | Clear

  /** The ledger after one call. */
  function Step(l: Ledger, c: Call): Ledger
  {
    match c
    case Create(a) => CreateAccount(l, a).ledger
    case Transfer(req) => TransferMoney(l, req).ledger
    case Clear => ClearAccounts(l)
  }

  /** The ledger after the calls, in order. */
  function Run(l: Ledger, calls: seq<Call>): Ledger
    decreases |calls|
  {
    if |calls| == 0 then l else Run(Step(l, calls[0]), calls[1..])
  }

  predicate AllTransfers(calls: seq<Call>)
  {
    forall i :: 0 <= i < |calls| ==> calls[i].Transfer?
  }

  /** A call that validation would admit: non-negative opening balance, or a valid transfer request. */
  predicate Admitted(c: Call)
  {
    match c
    case Create(a) => a.balance >= 0
    case Transfer(req) => req.Valid()
    case Clear => true
  }

  /**
   Any number of transfers, whichever succeed and whichever fail, leave the
   same accounts holding the same total.
   */
  lemma {:induction false} TransfersConserveTotal(l: Ledger, calls: seq<Call>)
    requires AllTransfers(calls)
    ensures Run(l, calls).Keys == l.Keys
    ensures Total(Run(l, calls)) == Total(l)
    decreases |calls|
  {
    if |calls| > 0 {
      TransferConservesTotal(l, calls[0].request);
      TransfersConserveTotal(Step(l, calls[0]), calls[1..]);
    }
  }

  /** Admitted calls never commit a negative balance. */
  lemma {:induction false} AdmittedCallsKeepNonNegative(l: Ledger, calls: seq<Call>)
    requires NonNegative(l)
    requires forall i :: 0 <= i < |calls| ==> Admitted(calls[i])
    ensures NonNegative(Run(l, calls))
    decreases |calls|
  {
    if |calls| > 0 {
      if calls[0].Transfer? {
        TransferKeepsNonNegative(l, calls[0].request);
      }
      AdmittedCallsKeepNonNegative(Step(l, calls[0]), calls[1..]);
    }
  }

  /** Creating an account adds its opening balance to the total; a refused creation adds nothing. */
  lemma CreateAddsBalance(l: Ledger, a: Account)
    ensures Total(CreateAccount(l, a).ledger) == Total(l) + (if a.id in l then 0 else a.balance)
  {
    if a.id !in l {
      TotalInsert(l, a.id, a.balance);
    }
  }

  /** The service test's scenario: two accounts of 1000, then 10 moved from the first to the second. */
  lemma ServiceTransferScenario()
    ensures var req := SetAmount(SetAccountTo(SetAccountFrom(NewTransferRequest(), Some("Id1")), Some("Id2")), Some(10));
      Run(map[], [Create(Account("Id1", 1000)), Create(Account("Id2", 1000)), Transfer(req)])
        == map["Id1" := 990, "Id2" := 1010]
  {
    assert "Id1" != "Id2" by { assert "Id1"[2] != "Id2"[2]; }
    assert !SameIgnoringCase("Id1", "Id2") by { assert ToLower("Id1"[2]) != ToLower("Id2"[2]); }
    var req := SetAmount(SetAccountTo(SetAccountFrom(NewTransferRequest(), Some("Id1")), Some("Id2")), Some(10));
    var calls := [Create(Account("Id1", 1000)), Create(Account("Id2", 1000)), Transfer(req)];
    var l1 := map["Id1" := 1000];
    var l2 := l1["Id2" := 1000];
    assert Step(map[], calls[0]) == l1;
    assert Step(l1, calls[1]) == l2;
    assert Step(l2, calls[2]) == map["Id1" := 990, "Id2" := 1010];
    assert Run(l2, calls[2..]) == map["Id1" := 990, "Id2" := 1010] by { assert calls[2..][1..] == []; }
    assert Run(l1, calls[1..]) == Run(l2, calls[2..]) by { assert calls[1..][1..] == calls[2..]; }
  }
}
