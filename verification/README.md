# In-memory accounts ledger

A Dafny model of the ledger behind the account-transfer service: the
in-memory repository (`AccountsRepositoryInMemory`) that creates, looks up
and clears accounts and moves money between two of them, and the
`TransferRequest` record with its validation constraints.

The repository guards every transfer with one lock, so transfers are
serialized with each other. The model treats every call as one step and
states each call as a pure function from the ledger
before the call to the ledger after it, together with the exception the
call raised (if any) and, for a transfer, the notifications it sent.

Files:

- `options.dfy`: `Option`, a Java reference that may be `null`.
- `text.dfy`: ASCII case folding, `String.compareToIgnoreCase`, and the
  decimal rendering of an amount in an error message.
- `transfer_request.dfy`: the request record, its setters, and its Bean
  Validation constraints as a set of violations.
- `ledger.dfy`: accounts, the ledger (a map from id to balance), and the
  ledger-wide total with its update lemmas.
- `accounts_repository.dfy`: `createAccount`, `getAccount`,
  `clearAccounts`, `transferMoney` with `getTwoAccountBalance`, and the
  exception messages.
- `serial_runs.dfy`: sequences of calls, each applied as one whole step.

Balances and amounts are `BigDecimal` in the source. Here they are `int`,
standing for whole `BigDecimal` values such as `new BigDecimal(1000)`.
`compareTo` on such values is exactly integer comparison. Fractional values
such as `new BigDecimal("123.45")` are not modelled (see "Left out").

Behaviours of the code that the model keeps as written:

- An amount equal to the source balance is a silent no-op
  (`AccountsRepositoryInMemory.java` lines 97-108). The call returns
  normally, moves nothing and notifies no one: the `compareTo` chain has
  branches for -1 and 1 only.
- The repository has no check that the amount is positive. A negative
  amount moves money from the target to the source
  (`NegativeAmountOverdraws`). Only request validation keeps it out, so
  non-negativity is proved under `Valid()`.
- If the two-account sum differs after the move (line 101), the code only
  skips the notification; it raises nothing. The model keeps this. It also proves
  that the sums always match, so both notifications are always sent
  after a move.
- A `null` id or amount is not caught. It reaches `ConcurrentHashMap.get`
  or `BigDecimal.compareTo` and raises a `NullPointerException`, which is
  modelled as `NullPointer`. Both lookups run before either not-found
  check. So a `null` target id raises `NullPointer` even when the source
  is missing.

## Model

| member | source | states |
|---|---|---|
| `Text.CompareToIgnoreCase` | src/main/java/com/db/awmd/challenge/repository/AccountsRepositoryInMemory.java:90 | the comparison is zero exactly when the two ids have the same length and the same letters after ASCII case folding |
| `Text.CompareToIgnoreCaseAntisymmetric` | src/main/java/com/db/awmd/challenge/repository/AccountsRepositoryInMemory.java:90 | swapping source and target negates the comparison, so the same-account test does not depend on argument order |
| `Text.IntToDecimalRoundTrip` | src/main/java/com/db/awmd/challenge/repository/AccountsRepositoryInMemory.java:106-107 | the amount printed into the message reads back as the same number |
| `TransferRequests.SetAccountFrom` | src/main/java/com/db/awmd/challenge/domain/TransferRequest.java:29-35 | after setting the source id the getter returns it; target and amount are unchanged |
| `TransferRequests.SetAccountTo` | src/main/java/com/db/awmd/challenge/domain/TransferRequest.java:37-43 | after setting the target id the getter returns it; source and amount are unchanged |
| `TransferRequests.SetAmount` | src/main/java/com/db/awmd/challenge/domain/TransferRequest.java:45-51 | after setting the amount the getter returns it; both ids are unchanged |
| `TransferRequests.NewTransferRequest` | src/main/java/com/db/awmd/challenge/domain/TransferRequest.java:16-27 | a fresh request has all three fields null and does not pass validation |
| `TransferRequests.Violations` | src/main/java/com/db/awmd/challenge/domain/TransferRequest.java:17-27 | each constraint is reported exactly when broken: null ids break `@NotNull` and `@NotEmpty`, empty ids `@NotEmpty`, a null amount only `@NotNull`, and a negative amount `@DecimalMin` (zero passes) |
| `TransferRequests.ValidIff` | src/main/java/com/db/awmd/challenge/domain/TransferRequest.java:17-27 | a request is valid exactly when both ids are non-null and non-empty and the amount is non-null and at least zero |
| `AccountsRepository.Message` | src/main/java/com/db/awmd/challenge/repository/AccountsRepositoryInMemory.java:83-108 | every exception the repository raises has a non-empty message naming its account right after the fixed lead-in; a null-pointer failure has none |
| `AccountsRepository.InsufficientFundsMessageAmount` | src/main/java/com/db/awmd/challenge/repository/AccountsRepositoryInMemory.java:105-107 | the insufficient-funds message ends with the requested amount, which reads back exactly |
| `AccountsRepository.CreateAccount` | src/main/java/com/db/awmd/challenge/repository/AccountsRepositoryInMemory.java:38-43 | an absent id is added with its balance, every other entry is kept, and a lookup then returns the account; a present id fails with "Account id <id> already exists!" and leaves the ledger unchanged |
| `AccountsRepository.GetAccount` | src/main/java/com/db/awmd/challenge/repository/AccountsRepositoryInMemory.java:54-57 | an account is found exactly when its id (case-sensitive) is stored, with that id and the stored balance |
| `AccountsRepository.ClearAccounts` | src/main/java/com/db/awmd/challenge/repository/AccountsRepositoryInMemory.java:59-62 | after clearing, no id finds an account |
| `AccountsRepository.TwoAccountBalance` | src/main/java/com/db/awmd/challenge/repository/AccountsRepositoryInMemory.java:122-132 | for two accounts as looked up in a ledger, the result is the sum of their stored balances |
| `AccountsRepository.TwoAccountShare` | src/main/java/com/db/awmd/challenge/repository/AccountsRepositoryInMemory.java:122-132 | the two accounts' combined balance plus the total of every other account is the ledger-wide total |
| `Ledgers.Account.Withdraw` | src/main/java/com/db/awmd/challenge/repository/AccountsRepositoryInMemory.java:98 | withdrawing keeps the id and lowers the balance by exactly the amount |
| `Ledgers.Account.Deposit` | src/main/java/com/db/awmd/challenge/repository/AccountsRepositoryInMemory.java:99 | depositing keeps the id and raises the balance by exactly the amount |
| `AccountsRepository.CompareAmount` | src/main/java/com/db/awmd/challenge/repository/AccountsRepositoryInMemory.java:97-105 | `compareTo` yields -1, 0 or 1 exactly as the amount is below, equal to or above the balance |
| `AccountsRepository.TransferMoney` | src/main/java/com/db/awmd/challenge/repository/AccountsRepositoryInMemory.java:73-113 | the checks run in order (null, source found, target found, not the same ignoring case); any failure changes nothing; below the balance the source loses and the target gains the amount, all else is unchanged and both accounts are notified; above it fails with insufficient funds; equal to it returns normally with nothing changed; the set of ids never changes |
| `AccountsRepository.TransferConservesTotal` | src/main/java/com/db/awmd/challenge/repository/AccountsRepositoryInMemory.java:95-101 | every transfer, successful or not, leaves the ledger-wide total unchanged |
| `AccountsRepository.TransferConservesPair` | src/main/java/com/db/awmd/challenge/repository/AccountsRepositoryInMemory.java:122-132 | once both accounts are found and distinct, their combined balance is the same after the call, so the post-check always holds |
| `AccountsRepository.TransferKeepsNonNegative` | src/main/java/com/db/awmd/challenge/repository/AccountsRepositoryInMemory.java:97-99 | with a valid request non-negative balances stay non-negative, and the source of any transfer below its balance (amount zero included) stays strictly positive |
| `AccountsRepository.NegativeAmountOverdraws` | src/main/java/com/db/awmd/challenge/repository/AccountsRepositoryInMemory.java:97-99 | without validation a negative amount succeeds and drives the target below zero |
| `AccountsRepository.CaseVariantsAreSameAccount` | src/main/java/com/db/awmd/challenge/repository/AccountsRepositoryInMemory.java:90-92 | "id1" and "ID1" are two stored accounts, yet a transfer between them fails as the same account and changes nothing |
| `AccountsRepository.DuplicateCreateScenario` | src/test/java/com/db/awmd/challenge/AccountsServiceTest.java:43-56 | creating one id twice fails with the exact message the test expects and keeps the first account |
| `SerialRuns.TransfersConserveTotal` | src/main/java/com/db/awmd/challenge/repository/AccountsRepositoryInMemory.java:75-112 | any sequence of serialized transfers keeps both the set of accounts and the total |
| `SerialRuns.AdmittedCallsKeepNonNegative` | src/main/java/com/db/awmd/challenge/repository/AccountsRepositoryInMemory.java:38-112 | creations with non-negative balances, valid transfers and clears never commit a negative balance |
| `SerialRuns.CreateAddsBalance` | src/main/java/com/db/awmd/challenge/repository/AccountsRepositoryInMemory.java:38-43 | a successful creation adds its opening balance to the total; a refused one adds nothing |
| `SerialRuns.ServiceTransferScenario` | src/test/java/com/db/awmd/challenge/AccountsServiceTest.java:58-78 | two accounts of 1000 with 10 moved between them end at 990 and 1010 |

## Left out

- Locking (`ReentrantLock`, including its reentrant use in `getTwoAccountBalance`) and `ConcurrentHashMap`'s per-key atomicity. Only `transferMoney` takes the lock, so the model's one-step reading is exact for transfers among themselves and nothing more.
- Unlocked reads: `getAccount` takes no lock and returns the stored, mutable `Account` object, so a concurrent reader can see a transfer half-applied, after `withdraw` (line 98) and before `deposit` (line 99). The model's lookups return value snapshots between whole steps and cannot show this.
- Shared mutable accounts: `createAccount` stores the caller's own object, and whoever holds it can still call `setBalance` and change a stored balance outside any transfer. The model's ledger changes only through its own calls.
- The e-mail notification service is not part of this model. It is fire-and-forget, so a call's notifications are recorded as data in its outcome and nothing more.
- `Account.java` is not part of this model: `withdraw` is taken to subtract and `deposit` to add, an account is stored under its own id, and ids are never null.
- Fractional `BigDecimal` amounts. Comparison and arithmetic would be the same over the rationals; only the rendering of the amount in the insufficient-funds message would change.
- Text.CompareToIgnoreCase: folds ASCII letters only, where Java folds all of Unicode.
- AccountsRepository.Message: states the lead-in and the named account of each message, not the full text; `CreateAccount` states the full duplicate-id message.
- The HTTP controller, Spring bootstrap, JSON binding and the Bean Validation engine. Validation is modelled only as the constraint set on the request.
- The randomized bulk-transfer test.
