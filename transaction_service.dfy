/** The transaction engine: transfer, deposit and withdraw. Each runs its
    checks in a fixed order inside one database transaction and either
    commits one completed transaction with its debit and its credit, or
    rolls everything back and reports a typed error. */
module TransactionService {
  import opened Outcomes
  import opened Ledger
  import opened Balances
  import opened DoubleEntry

  /** The errors the service throws, each with the HTTP status and message it carries. */
  datatype ErrorKind =
    | AccountsNotFound
    | AccountNotActive
    | CurrencyMismatch
    | InsufficientFunds
    | SystemAccountNotConfigured
    | InternalError
  {
    /** Every error carries a client (4xx) or server (5xx) status, never 0,
        so the catch block always rethrows it as it is. */
    function Status(): (r: int)
      ensures r in {400, 404, 422, 500}
    {
      match this
      case AccountsNotFound => 404
      case AccountNotActive => 422
      case CurrencyMismatch => 400
      case InsufficientFunds => 422
      case SystemAccountNotConfigured => 500
      case InternalError => 500
    }

    function Message(): (r: string)
      ensures r != ""
    {
      match this
      case AccountsNotFound => "One or both accounts not found"
      case AccountNotActive => "Account is not active"
      case CurrencyMismatch => "Currency mismatch"
      case InsufficientFunds => "Insufficient funds"
      case SystemAccountNotConfigured => "System account not configured"
      case InternalError => "Internal server error"
    }
  }

  /** Two different errors never carry the same message, so a caller can tell
      them apart even where they share a status. */
  lemma ErrorsDistinguishable(a: ErrorKind, b: ErrorKind)
    ensures a != b ==> a.Message() != b.Message()
  {
  }

  /** The database calls an operation makes after BEGIN, in order. */
  datatype Step =
    | Lock | ReadAccounts | ReadBalance
    | InsertTransaction | InsertDebit | InsertCredit | MarkCompleted | CommitWork
  {
    /** A call that writes the transaction, its entries or the COMMIT. */
    predicate IsPosting()
    {
      InsertTransaction? || InsertDebit? || InsertCredit? || MarkCompleted? || CommitWork?
    }
  }

  /** What reaches a catch block: an error the service raised, or a failure
      of the database call at `step`, which carries no status. */
  datatype Thrown = Raised(error: ErrorKind) | StoreFailure(step: Step)

  /** The catch block: an error that has a status is rethrown as it is;
      anything else becomes the 500 "Internal server error". Every error the
      service raises has a status, so it always survives unchanged. */
  function Reported(t: Thrown): (r: ErrorKind)
    ensures t.Raised? ==> r == t.error
    ensures t.StoreFailure? ==> r == InternalError
  {
    if t.Raised? && t.error.Status() != 0 then t.error else InternalError
  }

  /** `fault` names the first database call that fails on this invocation, if any. */
  predicate Throws(fault: Option<Step>, step: Step)
  {
    fault == Some(step)
  }

  datatype TransferRequest = TransferRequest(
    sourceAccountId: AccountId,
    destinationAccountId: AccountId,
    amount: int,
    currency: string,
    description: Option<string>)

  /** A deposit into, or a withdrawal from, one user account. */
  datatype MovementRequest = MovementRequest(
    accountId: AccountId,
    amount: int,
    currency: string,
    description: Option<string>)

  /** The account rows whose id is `a` or `b`: each stored account at most once. */
  function MatchingRows(accounts: map<AccountId, Account>, a: AccountId, b: AccountId): set<AccountId>
  {
    set id | id in accounts && (id == a || id == b)
  }

  predicate BothExist(accounts: map<AccountId, Account>, a: AccountId, b: AccountId)
  {
    a in accounts && b in accounts && a != b
  }

  /** Fewer than two rows come back exactly when an account is missing or the two ids coincide. */
  lemma RowCount(accounts: map<AccountId, Account>, a: AccountId, b: AccountId)
    ensures |MatchingRows(accounts, a, b)| == 2 <==> BothExist(accounts, a, b)
  {
    var rows := MatchingRows(accounts, a, b);
    if BothExist(accounts, a, b) {
      assert rows == {a, b};
    } else if a in accounts {
      assert rows == {a};
    } else if b in accounts {
      assert rows == {b};
    } else {
      assert rows == {};
    }
  }

  /** The description column: a missing or empty description is stored as null,
      any other one as given. */
  function StoredDescription(d: Option<string>): (r: Option<string>)
    ensures r.Some? <==> d.Some? && d.value != ""
    ensures r.Some? ==> r == d
  {
    if d.Some? && d.value != "" then d else None
  }

  /** The `pending` row an operation inserts. */
  function PendingTransaction(s: Store, txType: TxType, source: AccountId, destination: AccountId,
                              amount: int, currency: string, description: Option<string>): Transaction
  {
    Transaction(|s.transactions|, txType, source, destination, amount, currency,
                Pending, StoredDescription(description), s.clock)
  }

  /** The posting phase: insert, debit, credit, mark completed, commit. */
  function Posted(pending: Transaction, fault: Option<Step>): (r: Result<Transaction, ErrorKind>)
    ensures r.Failure? <==> fault.Some? && fault.value.IsPosting()
    ensures r.Failure? ==> r.error == InternalError
    ensures r.Success? ==> r.value == pending.(status := Completed)
  {
    if fault.Some? && fault.value.IsPosting() then Failure(Reported(StoreFailure(fault.value)))
    else Success(pending.(status := Completed))
  }

  /** What `transfer` returns, as a function of the committed state before it. */
  function TransferResult(s: Store, q: TransferRequest, fault: Option<Step>): (r: Result<Transaction, ErrorKind>)
    ensures r.Success? ==>
      r.value == Transaction(|s.transactions|, TxType.Transfer, q.sourceAccountId, q.destinationAccountId,
                             q.amount, q.currency, Completed, StoredDescription(q.description), s.clock)
    ensures r.Success? ==> Balance(s.entries, q.sourceAccountId) >= q.amount
    ensures r.Failure? ==> r.error.Status() in {400, 404, 422, 500}
  {
    var a, b := q.sourceAccountId, q.destinationAccountId;
    if Throws(fault, Lock) || Throws(fault, ReadAccounts) then
      Failure(Reported(StoreFailure(fault.value)))
    else if |MatchingRows(s.accounts, a, b)| != 2 then
      Failure(Reported(Raised(AccountsNotFound)))
    else
      RowCount(s.accounts, a, b);
      var src, dst := s.accounts[a], s.accounts[b];
      if !IsActive(src) || !IsActive(dst) then Failure(Reported(Raised(AccountNotActive)))
      else if src.currency != q.currency || dst.currency != q.currency then
        Failure(Reported(Raised(CurrencyMismatch)))
      else if Throws(fault, ReadBalance) then Failure(Reported(StoreFailure(ReadBalance)))
      else if Balance(s.entries, a) < q.amount then Failure(Reported(Raised(InsufficientFunds)))
      else Posted(PendingTransaction(s, TxType.Transfer, a, b, q.amount, q.currency, q.description), fault)
  }

  /** What `deposit` returns: the system account `sys` pays, the user account receives. */
  function DepositResult(s: Store, sys: AccountId, q: MovementRequest, fault: Option<Step>): (r: Result<Transaction, ErrorKind>)
    ensures r.Success? ==>
      r.value == Transaction(|s.transactions|, TxType.Deposit, sys, q.accountId,
                             q.amount, q.currency, Completed, StoredDescription(q.description), s.clock)
    ensures r.Failure? ==> r.error.Status() in {400, 422, 500}
  {
    var u := q.accountId;
    if Throws(fault, Lock) || Throws(fault, ReadAccounts) then
      Failure(Reported(StoreFailure(fault.value)))
    else if |MatchingRows(s.accounts, u, sys)| != 2 then
      Failure(Reported(Raised(SystemAccountNotConfigured)))
    else
      RowCount(s.accounts, u, sys);
      var user, system := s.accounts[u], s.accounts[sys];
      if !IsActive(user) then Failure(Reported(Raised(AccountNotActive)))
      else if user.currency != q.currency || system.currency != q.currency then
        Failure(Reported(Raised(CurrencyMismatch)))
      else Posted(PendingTransaction(s, TxType.Deposit, sys, u, q.amount, q.currency, q.description), fault)
  }

  /** What `withdraw` returns: the user account pays, the system account `sys` receives. */
  function WithdrawResult(s: Store, sys: AccountId, q: MovementRequest, fault: Option<Step>): (r: Result<Transaction, ErrorKind>)
    ensures r.Success? ==>
      r.value == Transaction(|s.transactions|, TxType.Withdrawal, q.accountId, sys,
                             q.amount, q.currency, Completed, StoredDescription(q.description), s.clock)
    ensures r.Success? ==> Balance(s.entries, q.accountId) >= q.amount
    ensures r.Failure? ==> r.error.Status() in {400, 422, 500}
  {
    var u := q.accountId;
    if Throws(fault, Lock) || Throws(fault, ReadAccounts) then
      Failure(Reported(StoreFailure(fault.value)))
    else if |MatchingRows(s.accounts, u, sys)| != 2 then
      Failure(Reported(Raised(SystemAccountNotConfigured)))
    else
      RowCount(s.accounts, u, sys);
      var user, system := s.accounts[u], s.accounts[sys];
      if !IsActive(user) then Failure(Reported(Raised(AccountNotActive)))
      else if user.currency != q.currency || system.currency != q.currency then
        Failure(Reported(Raised(CurrencyMismatch)))
      else if Throws(fault, ReadBalance) then Failure(Reported(StoreFailure(ReadBalance)))
      else if Balance(s.entries, u) < q.amount then Failure(Reported(Raised(InsufficientFunds)))
      else Posted(PendingTransaction(s, TxType.Withdrawal, u, sys, q.amount, q.currency, q.description), fault)
  }

  /** The engine over one database, with the system (counterparty) account
      for deposits and withdrawals fixed when it is built. */
  class TransactionEngine {
    const db: LedgerDb
    const systemAccountId: AccountId

    constructor (db: LedgerDb, systemAccountId: AccountId)
      ensures this.db == db && this.systemAccountId == systemAccountId
    {
      this.db := db;
      this.systemAccountId := systemAccountId;
    }

    /** ROLLBACK, then the catch block's mapping of what was thrown. */
    method Rollback(saved: Store, thrown: Thrown) returns (r: Result<Transaction, ErrorKind>)
      modifies db
      ensures db.View() == saved
      ensures r == Failure(Reported(thrown))
    {
      db.Restore(saved);
      r := Failure(Reported(thrown));
    }

    /** Inserts the pending row, the debit and the credit, marks the row
        completed and commits; a failing call rolls all of it back. */
    method Post(saved: Store, pending: Transaction, fault: Option<Step>) returns (r: Result<Transaction, ErrorKind>)
      requires db.View() == saved && WellFormed(saved)
      requires pending.status == Pending
      requires Committable(saved, pending.(status := Completed))
      modifies db
      ensures r == Posted(pending, fault)
      ensures db.View() == if r.Success? then Commit(saved, r.value) else saved
      ensures WellFormed(db.View())
    {
      if Throws(fault, InsertTransaction) {
        r := Rollback(saved, StoreFailure(InsertTransaction));
        return;
      }
      db.transactions := db.transactions + [pending];
      if Throws(fault, InsertDebit) {
        r := Rollback(saved, StoreFailure(InsertDebit));
        return;
      }
      db.entries := db.entries + [LedgerEntry(|db.entries|, pending.sourceAccountId, pending.id,
                                              Debit, pending.amount, db.clock)];
      if Throws(fault, InsertCredit) {
        r := Rollback(saved, StoreFailure(InsertCredit));
        return;
      }
      db.entries := db.entries + [LedgerEntry(|db.entries|, pending.destinationAccountId, pending.id,
                                              Credit, pending.amount, db.clock)];
      if Throws(fault, MarkCompleted) {
        r := Rollback(saved, StoreFailure(MarkCompleted));
        return;
      }
      var completed := pending.(status := Completed);
      db.transactions := db.transactions[pending.id := completed];
      if Throws(fault, CommitWork) {
        r := Rollback(saved, StoreFailure(CommitWork));
        return;
      }
      db.clock := db.clock + 1;
      r := Success(completed);
      AllPostingsLength(saved.transactions);
      assert db.entries == saved.entries + Postings(completed);
      assert db.transactions == saved.transactions + [completed];
      CommitPreservesWellFormed(saved, completed);
    }

    method Transfer(q: TransferRequest, fault: Option<Step>) returns (r: Result<Transaction, ErrorKind>)
      requires db.Valid()
      modifies db
      ensures db.Valid()
      ensures r == TransferResult(old(db.View()), q, fault)
      ensures db.View() == if r.Success? then Commit(old(db.View()), r.value) else old(db.View())
    {
      var saved := db.View();
      var a, b := q.sourceAccountId, q.destinationAccountId;
      if Throws(fault, Lock) || Throws(fault, ReadAccounts) {
        r := Rollback(saved, StoreFailure(fault.value));
        return;
      }
      if |MatchingRows(db.accounts, a, b)| != 2 {
        r := Rollback(saved, Raised(AccountsNotFound));
        return;
      }
      RowCount(db.accounts, a, b);
      var src, dst := db.accounts[a], db.accounts[b];
      if !IsActive(src) || !IsActive(dst) {
        r := Rollback(saved, Raised(AccountNotActive));
        return;
      }
      if src.currency != q.currency || dst.currency != q.currency {
        r := Rollback(saved, Raised(CurrencyMismatch));
        return;
      }
      if Throws(fault, ReadBalance) {
        r := Rollback(saved, StoreFailure(ReadBalance));
        return;
      }
      var srcBalance := Balance(db.entries, a);
      if srcBalance < q.amount {
        r := Rollback(saved, Raised(InsufficientFunds));
        return;
      }
      var pending := PendingTransaction(saved, TxType.Transfer, a, b, q.amount, q.currency, q.description);
      r := Post(saved, pending, fault);
    }

    method Deposit(q: MovementRequest, fault: Option<Step>) returns (r: Result<Transaction, ErrorKind>)
      requires db.Valid()
      modifies db
      ensures db.Valid()
      ensures r == DepositResult(old(db.View()), systemAccountId, q, fault)
      ensures db.View() == if r.Success? then Commit(old(db.View()), r.value) else old(db.View())
    {
      var saved := db.View();
      var u, sys := q.accountId, systemAccountId;
      if Throws(fault, Lock) || Throws(fault, ReadAccounts) {
        r := Rollback(saved, StoreFailure(fault.value));
        return;
      }
      if |MatchingRows(db.accounts, u, sys)| != 2 {
        r := Rollback(saved, Raised(SystemAccountNotConfigured));
        return;
      }
      RowCount(db.accounts, u, sys);
      var user, system := db.accounts[u], db.accounts[sys];
      if !IsActive(user) {
        r := Rollback(saved, Raised(AccountNotActive));
        return;
      }
      if user.currency != q.currency || system.currency != q.currency {
        r := Rollback(saved, Raised(CurrencyMismatch));
        return;
      }
      var pending := PendingTransaction(saved, TxType.Deposit, sys, u, q.amount, q.currency, q.description);
      r := Post(saved, pending, fault);
    }

    method Withdraw(q: MovementRequest, fault: Option<Step>) returns (r: Result<Transaction, ErrorKind>)
      requires db.Valid()
      modifies db
      ensures db.Valid()
      ensures r == WithdrawResult(old(db.View()), systemAccountId, q, fault)
      ensures db.View() == if r.Success? then Commit(old(db.View()), r.value) else old(db.View())
    {
      var saved := db.View();
      var u, sys := q.accountId, systemAccountId;
      if Throws(fault, Lock) || Throws(fault, ReadAccounts) {
        r := Rollback(saved, StoreFailure(fault.value));
        return;
      }
      if |MatchingRows(db.accounts, u, sys)| != 2 {
        r := Rollback(saved, Raised(SystemAccountNotConfigured));
        return;
      }
      RowCount(db.accounts, u, sys);
      var user, system := db.accounts[u], db.accounts[sys];
      if !IsActive(user) {
        r := Rollback(saved, Raised(AccountNotActive));
        return;
      }
      if user.currency != q.currency || system.currency != q.currency {
        r := Rollback(saved, Raised(CurrencyMismatch));
        return;
      }
      if Throws(fault, ReadBalance) {
        r := Rollback(saved, StoreFailure(ReadBalance));
        return;
      }
      var userBalance := Balance(db.entries, u);
      if userBalance < q.amount {
        r := Rollback(saved, Raised(InsufficientFunds));
        return;
      }
      var pending := PendingTransaction(saved, TxType.Withdrawal, u, sys, q.amount, q.currency, q.description);
      r := Post(saved, pending, fault);
    }
  }
}
