/**
 The body of a transfer request: two account ids and an amount, each of which
 a JSON client may leave out (`null`), together with the Bean Validation
 constraints declared on the fields.
 */
module TransferRequests {
  import opened Options

  datatype TransferRequest = TransferRequest(
    accountFrom: Option<string>,
    accountTo: Option<string>,
    amount: Option<int>)
  {
    /** The request passes validation when no constraint is violated. */
    predicate Valid()
    {
      Violations(this) == {}
    }
  }

  /** `setAccountFrom`: replaces the source id and nothing else. */
  function SetAccountFrom(req: TransferRequest, v: Option<string>): (r: TransferRequest)
    ensures r.accountFrom == v
    ensures r.accountTo == req.accountTo && r.amount == req.amount
  {
    req.(accountFrom := v)
  }

  /** `setAccountTo`: replaces the target id and nothing else. */
  function SetAccountTo(req: TransferRequest, v: Option<string>): (r: TransferRequest)
    ensures r.accountTo == v
    ensures r.accountFrom == req.accountFrom && r.amount == req.amount
  {
    req.(accountTo := v)
  }

  /** `setAmount`: replaces the amount and nothing else. */
  function SetAmount(req: TransferRequest, v: Option<int>): (r: TransferRequest)
    ensures r.amount == v
    ensures r.accountFrom == req.accountFrom && r.accountTo == req.accountTo
  {
    req.(amount := v)
  }

  /** `new TransferRequest()`: every field starts out `null`. */
  function NewTransferRequest(): (r: TransferRequest)
    ensures r.accountFrom.None? && r.accountTo.None? && r.amount.None?
    ensures !r.Valid()
  {
    TransferRequest(None, None, None)
  }

  datatype Field = AccountFrom | AccountTo | Amount

  /** `@NotNull`, `@NotEmpty` and `@DecimalMin("0.0")`. */
  datatype Constraint = NotNull | NotEmpty | DecimalMin

  datatype Violation = Violation(field: Field, constraint: Constraint)

  /** An id field breaks `@NotEmpty` when it is null or has no characters. */
  predicate EmptyId(v: Option<string>)
  {
    v.None? || |v.value| == 0
  }

  /**
   The constraint violations a validator reports for a request. `@NotEmpty`
   also rejects `null`; `@DecimalMin` accepts `null` and is inclusive, so an
   amount of zero passes.
   */
  function Violations(r: TransferRequest): (v: set<Violation>)
    ensures Violation(AccountFrom, NotNull) in v <==> r.accountFrom.None?
    ensures Violation(AccountFrom, NotEmpty) in v <==> EmptyId(r.accountFrom)
    ensures Violation(AccountTo, NotNull) in v <==> r.accountTo.None?
    ensures Violation(AccountTo, NotEmpty) in v <==> EmptyId(r.accountTo)
    ensures Violation(Amount, NotNull) in v <==> r.amount.None?
    ensures Violation(Amount, DecimalMin) in v <==> r.amount.Some? && r.amount.value < 0
    ensures v <= {Violation(AccountFrom, NotNull), Violation(AccountFrom, NotEmpty),
                  Violation(AccountTo, NotNull), Violation(AccountTo, NotEmpty),
                  Violation(Amount, NotNull), Violation(Amount, DecimalMin)}
  {
    (if r.accountFrom.None? then {Violation(AccountFrom, NotNull)} else {})
    + (if EmptyId(r.accountFrom) then {Violation(AccountFrom, NotEmpty)} else {})
    + (if r.accountTo.None? then {Violation(AccountTo, NotNull)} else {})
    + (if EmptyId(r.accountTo) then {Violation(AccountTo, NotEmpty)} else {})
    + (if r.amount.None? then {Violation(Amount, NotNull)} else {})
    + (if r.amount.Some? && r.amount.value < 0 then {Violation(Amount, DecimalMin)} else {})
  }

  /** What validity means field by field: two non-empty ids and a non-negative amount. */
  lemma ValidIff(r: TransferRequest)
    ensures r.Valid() <==>
      && r.accountFrom.Some? && |r.accountFrom.value| > 0
      && r.accountTo.Some? && |r.accountTo.value| > 0
      && r.amount.Some? && r.amount.value >= 0
  {
  }
}
