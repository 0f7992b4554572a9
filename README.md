# Verified model of a double-entry ledger service

This project models the core of a small ledger service in Dafny. The service
keeps accounts, transactions and an append-only table of ledger entries. It
moves money in three ways: `transfer` between two user accounts, `deposit` from
a designated system account into a user account, and `withdraw` from a user
account into the system account.

Each operation runs inside one database transaction (BEGIN … COMMIT) and makes
its checks in a fixed order:

1. both accounts exist;
2. the accounts are active;
3. the currencies match;
4. the balance is sufficient (transfer and withdraw only).

If every check passes, the operation inserts a `pending` transaction row. It
then writes a debit on the paying account and a credit on the receiving
account, both for the amount, marks the row `completed` and commits. Any
failure rolls everything back. The catch block reports errors the service
raised itself as they are, and reports anything else as the 500 "Internal
server error".

A balance is the signed sum of an account's entries: credits count as plus and
debits as minus, and an account with no entries has balance 0. The account
service uses the same rule. It also creates accounts, which always start
`active`, reads one account with its balance, and lists one account's ledger.

## Structure

- `outcomes.dfy`, module `Outcomes`: `Option` and `Result`.
- `ledger.dfy`, module `Ledger`: the rows of the three tables; `Store`, the
  committed contents of the database; `WellFormed`, the invariant between
  operations; `Commit`, the effect of one completed operation; and the class
  `LedgerDb`, whose fields are the tables.
- `balances.dfy`, module `Balances`: `Balance`, the signed sum used by
  `getBalanceInTx`. It also holds an independent definition of the balance as
  credits minus debits, the per-account filter `AccountEntries`, and sums over
  several accounts.
- `double_entry.dfy`, module `DoubleEntry`: what the invariant gives. Each
  committed transaction owns exactly its two entries. The ledger is in
  `created_at` order. Every entry names an existing account. All balances add
  up to zero. A commit keeps the invariant.
- `transaction_service.dfy`, module `TransactionService`: the error kinds with
  their HTTP statuses and messages, and the catch-block mapping `Reported`.
  The pure functions `TransferResult`, `DepositResult` and `WithdrawResult`
  give each operation's outcome. The class `TransactionEngine` runs each
  operation step by step on a `LedgerDb` and is proved to agree with those
  functions.
- `transaction_properties.dfy`, module `TransactionProperties`: the order of
  the checks, how database failures are reported, and the effect of a
  completed operation on balances.
- `account_service.dfy`, module `AccountService`: `CreateAccount`,
  `GetAccountWithBalance` and `GetAccountLedger`.

Modelling choices:

- The system account id is a constructor parameter of `TransactionEngine`.
  The environment variable it comes from is not modelled.
- A database call that fails is modelled as the parameter `fault`. It names
  the first call of this invocation that throws (`Lock`, `ReadAccounts`,
  `ReadBalance`, `InsertTransaction`, `InsertDebit`, `InsertCredit`,
  `MarkCompleted`, `CommitWork`). A fault at a call the operation never reaches
  has no effect.
- Rollback restores the state saved at BEGIN. The methods insert the pending
  row and the entries before a later call may fail, so the proof covers undoing
  partial writes.
- Amounts are integers in minor units. The service never checks that an amount
  is positive, and neither does the model. `NegativeTransferLowersDestination`
  shows what that allows.
- Database-generated values are modelled as deterministic ones. An account id
  comes from the counter `nextAccountId`. A transaction's id is its position in
  `transactions`. Entry ids are `2*id` and `2*id+1`, which are also their
  positions. `created_at` comes from the counter `clock`, which each commit
  advances; a transaction and its two entries share one value.
- The two reads are functions of the database object. They therefore change
  nothing by construction.

In these points the model follows the code as written:

- Deposit and withdraw check only the user account's status
  (src/services/transactionService.js:125 and :193). The system account may be
  inactive.
- For deposit and withdraw, a missing account, or a user account equal to the
  system account, gives 500 "System account not configured", not 404
  (src/services/transactionService.js:120 and :188).
- The system account is looked up on every call, not once at start-up
  (src/services/transactionService.js:116-120 and :184-188).
- Entry amounts are not forced to be positive: the only test on the amount is
  the funds check (src/services/transactionService.js:52-55 and :200-202), and
  the entries carry the amount as given (:67-80, :140-150, :214-224).

## Model

| member | source | states |
|---|---|---|
| `Balances.Balance` | src/services/transactionService.js:6-16 | an account that no entry names has balance 0; src/services/accountService.js:23-30 computes the same sum |
| `Balances.BalanceIsCreditsMinusDebits` | src/services/transactionService.js:6-16 | the signed sum over an account's entries equals the sum of its credit amounts minus the sum of its debit amounts, and is 0 when the account has no entries |
| `Balances.BalanceAppend` | src/services/transactionService.js:6-16 | the balance over two ledger segments is the sum of the balances over each |
| `Balances.AccountEntries` | src/services/accountService.js:38-46 | the result holds exactly the entries whose account id matches, each as many times as in the ledger, and none of any other account |
| `Balances.NetSumOfAccountEntries` | src/services/accountService.js:23-46 | the signed sum of an account's listed entries is its balance |
| `Balances.AccountEntriesChronological` | src/services/accountService.js:38-46 | filtering a ledger that is in `created_at` order keeps that order |
| `Balances.CommitBalances` | src/services/transactionService.js:67-80 | after a commit, the source balance is lower by the amount, the destination balance is higher by it, and every other balance is unchanged |
| `Balances.CommitPreservesSumBalances` | src/services/transactionService.js:67-80 | a commit leaves unchanged the total balance of any duplicate-free list of accounts that includes both of its accounts |
| `Balances.SumBalancesIsNetSum` | src/services/transactionService.js:6-16 | over a duplicate-free list that names every account in the ledger, the total of the balances is the signed sum of the whole ledger |
| `DoubleEntry.TransactionPostings` | src/services/transactionService.js:58-80 | in a well-formed ledger, the entries carrying transaction k's id are exactly its debit and its credit |
| `DoubleEntry.DoubleEntryConservation` | src/services/transactionService.js:67-80 | every committed transaction has exactly two entries: a debit on its source and a credit on its destination, on different accounts, each for its amount; its credits and its debits each total its amount |
| `DoubleEntry.EntriesChronological` | src/services/accountService.js:38-46 | in a well-formed database the ledger is in non-decreasing `created_at` order |
| `DoubleEntry.EntriesReferenceAccounts` | src/services/transactionService.js:32-38 | every entry names an existing account, because entries are written only after both accounts were found |
| `DoubleEntry.NextAccountHasNoEntries` | src/services/accountService.js:5-13 | the id given to the next new account has no entries and balance 0 |
| `DoubleEntry.TotalBalanceIsZero` | src/services/transactionService.js:67-80 | in a well-formed database, the balances of all accounts add up to zero |
| `DoubleEntry.CommitPreservesWellFormed` | src/services/transactionService.js:58-92 | committing a completed transaction between two different existing accounts of its currency, with the next id and the current clock, keeps the invariant |
| `TransactionService.ErrorKind.Status` | src/services/transactionService.js:37-201 | each thrown error's status (404 "One or both accounts not found", 422 "Account is not active", 400 "Currency mismatch", 422 "Insufficient funds", 500 "System account not configured", 500 "Internal server error" at :97) is one of 400, 404, 422, 500 and never 0 |
| `TransactionService.ErrorKind.Message` | src/services/transactionService.js:37-201 | every error carries a non-empty message; the strings themselves are the ones the source throws |
| `TransactionService.ErrorsDistinguishable` | src/services/transactionService.js:37-201 | different errors carry different messages, including the two that share 422 |
| `TransactionService.Reported` | src/services/transactionService.js:93-97 | an error the service raised is reported unchanged; a database failure becomes InternalError |
| `TransactionService.StoredDescription` | src/services/transactionService.js:63 | the stored description is null exactly when the given one is missing or empty, and the given one otherwise |
| `TransactionService.Posted` | src/services/transactionService.js:57-97 | the posting phase fails exactly when one of its calls fails, and then with InternalError; otherwise it yields the pending row marked completed |
| `TransactionService.TransferResult` | src/services/transactionService.js:19-101 | a success is the completed `transfer` record with the next id, the request's accounts, amount and currency, the stored description and the current clock, from a source whose balance covers the amount; a failure carries status 400, 404, 422 or 500 |
| `TransactionService.DepositResult` | src/services/transactionService.js:104-170 | a success is the completed `deposit` record from the system account to the user account with the request's amount and currency; a failure carries status 400, 422 or 500, never 404 |
| `TransactionService.WithdrawResult` | src/services/transactionService.js:173-244 | a success is the completed `withdrawal` record from the user account to the system account, whose balance covers the amount; a failure carries status 400, 422 or 500, never 404 |
| `TransactionService.RowCount` | src/services/transactionService.js:32-38 | the lookup returns two rows exactly when both ids exist and differ, so a transfer to the same account fails the two-rows test |
| `Ledger.LedgerDb.Restore` | src/services/transactionService.js:93-94 | ROLLBACK: every table returns to the saved state |
| `TransactionService.TransactionEngine.constructor` | src/services/transactionService.js:4 | the engine uses the given database and the given system account id |
| `TransactionService.TransactionEngine.Rollback` | src/services/transactionService.js:93-97 | restores the saved state and returns the error that was raised, or InternalError for a database failure |
| `TransactionService.TransactionEngine.Post` | src/services/transactionService.js:57-92 | inserts the pending row, the debit and the credit, marks the row completed and commits; a failure at any of these calls leaves the saved state and reports InternalError; success leaves exactly `Commit(saved, completed)` and keeps the invariant |
| `TransactionService.TransactionEngine.Transfer` | src/services/transactionService.js:19-101 | the result is `TransferResult` of the old state; on success the state is the old one plus one completed row and its two entries, and on any failure it is unchanged; the invariant is kept |
| `TransactionService.TransactionEngine.Deposit` | src/services/transactionService.js:104-170 | the result is `DepositResult` of the old state and the system account; on success one row and two entries are appended, and on failure the state is unchanged; the invariant is kept |
| `TransactionService.TransactionEngine.Withdraw` | src/services/transactionService.js:173-244 | the result is `WithdrawResult` of the old state and the system account; on success one row and two entries are appended, and on failure the state is unchanged; the invariant is kept |
| `TransactionProperties.TransferValidation` | src/services/transactionService.js:32-55 | with no database failure: 404 exactly when an account is missing or source = destination; otherwise 422 "not active" exactly when either account is inactive; otherwise 400 exactly on a currency mismatch; otherwise "Insufficient funds" exactly when balance < amount; success exactly when all checks pass, including balance = amount |
| `TransactionProperties.DepositValidation` | src/services/transactionService.js:116-128 | "System account not configured" exactly when the user or system account is missing or they coincide; otherwise 422 exactly when the user account is inactive; otherwise 400 exactly on a currency mismatch; success then follows, whatever the system account's status or any balance |
| `TransactionProperties.WithdrawValidation` | src/services/transactionService.js:184-202 | the same account checks as deposit, then "Insufficient funds" exactly when the user's balance < amount, and success otherwise |
| `TransactionProperties.TransferFaults` | src/services/transactionService.js:93-97 | a database failure either comes after a check that already failed, and changes nothing, or gives InternalError (500); no InternalError arises without a failure; a transfer that would complete fails if any of its calls fails |
| `TransactionProperties.DepositFaults` | src/services/transactionService.js:162-166 | as for transfer; a failure of the balance read cannot affect a deposit, which never reads a balance |
| `TransactionProperties.WithdrawFaults` | src/services/transactionService.js:236-240 | as for transfer |
| `TransactionProperties.CommitMovesFunds` | src/services/transactionService.js:67-80 | committing moves the amount from source to destination, leaves the other balances alone, and keeps the total over any list naming both accounts |
| `TransactionProperties.TransferEffect` | src/services/transactionService.js:57-92 | a successful transfer had no failure; its record is a completed `transfer` from source to destination with the amount, the currency and the normalised description; it appends a debit on the source and a credit on the destination sharing its id; the source ends with a non-negative balance; the invariant is kept |
| `TransactionProperties.DepositEffect` | src/services/transactionService.js:130-161 | a successful deposit records system → user, debits the system account and credits the user; the system balance falls by the amount with no lower bound; the invariant is kept |
| `TransactionProperties.WithdrawEffect` | src/services/transactionService.js:204-235 | a successful withdrawal records user → system, debits the user, who is not overdrawn, and credits the system account; the invariant is kept |
| `TransactionProperties.NegativeTransferLowersDestination` | src/services/transactionService.js:52-55 | a negative amount between valid accounts passes the funds check when the source balance is not negative, and it lowers the destination's balance |
| `TransactionProperties.DepositOverdrawsInactiveSystemAccount` | src/services/transactionService.js:120-150 | a deposit of 500 through a `frozen` system account with no entries completes; the system balance becomes -500 and the user's becomes 500 |
| `AccountService.AddAccountPreservesWellFormed` | src/services/accountService.js:5-13 | inserting an account under the next id keeps the invariant |
| `AccountService.GetAccountWithBalance` | src/services/accountService.js:16-34 | null exactly for an unknown id; otherwise the account row with balance = credits − debits of its entries, and 0 when it has none, the same rule as `getBalanceInTx` |
| `AccountService.GetAccountLedger` | src/services/accountService.js:38-46 | exactly the entries whose account id matches, each as many times as it is stored, in non-decreasing `created_at` order; their signed sum is the balance that `getAccountWithBalance` reports |
| `AccountService.CreateAccount` | src/services/accountService.js:5-13 | adds exactly one account under a previously unused id, with the given user, type and currency and status `active`; transactions and entries are unchanged; reading it back gives balance 0 |

## Left out

- Row locking (`SELECT … FOR UPDATE`), lock order and any interleaving of concurrent operations: concurrency. Each operation is one atomic step.
- HTTP routing and request parsing. The routes reject only missing or falsy fields. The model assumes nothing about the amount beyond what the service checks.
- Acquiring and releasing the client connection, the BEGIN statement itself, a failing ROLLBACK, and `console.error` logging: I/O. The one exception is database failures during the operation, which the `fault` parameter models.
- `Number(...)` conversion of balances and amounts: floating point. Amounts are integers.
- Generated UUIDs or sequence values, and the real clock. These become counters and positions. A sequence that advances even when the transaction rolls back is not modelled.
- Ids are assumed to reach the service in the same form as the database returns them. The source matches rows with `===` (src/services/transactionService.js:40-41, :122-123, :190-191). An id written differently, such as `SYSTEM_ACCOUNT_ID`, which the environment always supplies as a string (line 4), finds no row. The first access to a field of the missing row then throws a TypeError, which the catch block reports as 500 "Internal server error". That access comes only after the checks on the row that was found pass: in deposit and withdraw the missing system row is first read at `sysAcc.currency` (:126, :194), after the user's status check (:125, :193) and the user's currency test, whose `||` stops on a mismatch, so an inactive user still gets 422 and a currency mismatch 400; in transfer a missing `dst` is first read at :43 only when `src` is active, and otherwise 422 comes first. The model's ids are numbers compared by value, so it has no such path.
- Database failures in the account service: the INSERT of `createAccount` (src/services/accountService.js:6-11) and the reads of `getAccountWithBalance` and `getAccountLedger` (:17-30, :39-44) can throw, and the error reaches the caller uncaught; a failed single-statement INSERT leaves the tables unchanged. In the model `CreateAccount` always succeeds and the two reads cannot fail.
- Reading `SYSTEM_ACCOUNT_ID` from the environment. It is a constructor parameter. An unset variable behaves like an id that names no account.
- Changes of account status or currency: no operation in the core makes them. Accounts created by `CreateAccount` are therefore all `active`. Every property is nevertheless proved for any well-formed database, whatever its accounts' statuses.
- Columns of the account and transaction rows that the core never reads, such as the account's creation time.
- GetAccountLedger: `ORDER BY created_at` leaves the order of entries with equal `created_at` to the database. The model returns them in ledger order, which is one of the orders the query allows.
