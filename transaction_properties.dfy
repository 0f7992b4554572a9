/** What the transaction engine promises, stated over its specification
    functions: the order of its checks, the mapping of database failures to
    500, the effect of a completed operation on balances, and conservation. */
module TransactionProperties {
  import opened Outcomes
  import opened Ledger
  import opened Balances
  import opened DoubleEntry
  import opened TransactionService

  /** Both transfer accounts exist and differ, are active and hold the requested currency. */
  ghost predicate TransferAccountsValid(s: Store, q: TransferRequest)
  {
    var a, b := q.sourceAccountId, q.destinationAccountId;
    && BothExist(s.accounts, a, b)
    && IsActive(s.accounts[a]) && IsActive(s.accounts[b])
    && s.accounts[a].currency == q.currency && s.accounts[b].currency == q.currency
  }

  /** The user and system accounts exist and differ, the USER account is
      active, and both hold the requested currency. The system account's
      status is not part of it. */
  ghost predicate MovementAccountsValid(s: Store, sys: AccountId, q: MovementRequest)
  {
    var u := q.accountId;
    && BothExist(s.accounts, u, sys)
    && IsActive(s.accounts[u])
    && s.accounts[u].currency == q.currency && s.accounts[sys].currency == q.currency
  }

  /** With no database failure, `transfer` reports the first failing check,
      in the order existence, activity, currency, funds; a balance equal to
      the amount is enough. */
  lemma TransferValidation(s: Store, q: TransferRequest)
    ensures var r, a, b := TransferResult(s, q, None), q.sourceAccountId, q.destinationAccountId;
      && (r == Failure(AccountsNotFound) <==> !BothExist(s.accounts, a, b))
      && (r == Failure(AccountNotActive) <==>
            BothExist(s.accounts, a, b) && !(IsActive(s.accounts[a]) && IsActive(s.accounts[b])))
      && (r == Failure(CurrencyMismatch) <==>
            && BothExist(s.accounts, a, b) && IsActive(s.accounts[a]) && IsActive(s.accounts[b])
            && !(s.accounts[a].currency == q.currency && s.accounts[b].currency == q.currency))
      && (r == Failure(InsufficientFunds) <==>
            TransferAccountsValid(s, q) && Balance(s.entries, a) < q.amount)
      && (r.Success? <==> TransferAccountsValid(s, q) && q.amount <= Balance(s.entries, a))
  {
    RowCount(s.accounts, q.sourceAccountId, q.destinationAccountId);
  }

  /** With no database failure, `deposit` reports a missing user or system
      account, or the two being one account, as "System account not
      configured"; it checks only the user's status and never a balance. */
  lemma DepositValidation(s: Store, sys: AccountId, q: MovementRequest)
    ensures var r, u := DepositResult(s, sys, q, None), q.accountId;
      && (r == Failure(SystemAccountNotConfigured) <==> !BothExist(s.accounts, u, sys))
      && (r == Failure(AccountNotActive) <==> BothExist(s.accounts, u, sys) && !IsActive(s.accounts[u]))
      && (r == Failure(CurrencyMismatch) <==>
            && BothExist(s.accounts, u, sys) && IsActive(s.accounts[u])
            && !(s.accounts[u].currency == q.currency && s.accounts[sys].currency == q.currency))
      && (r.Success? <==> MovementAccountsValid(s, sys, q))
      && r != Failure(AccountsNotFound) && r != Failure(InsufficientFunds)
  {
    RowCount(s.accounts, q.accountId, sys);
  }

  /** `withdraw` runs the same account checks as `deposit`, then refuses
      exactly when the user's balance is strictly below the amount. */
  lemma WithdrawValidation(s: Store, sys: AccountId, q: MovementRequest)
    ensures var r, u := WithdrawResult(s, sys, q, None), q.accountId;
      && (r == Failure(SystemAccountNotConfigured) <==> !BothExist(s.accounts, u, sys))
      && (r == Failure(AccountNotActive) <==> BothExist(s.accounts, u, sys) && !IsActive(s.accounts[u]))
      && (r == Failure(CurrencyMismatch) <==>
            && BothExist(s.accounts, u, sys) && IsActive(s.accounts[u])
            && !(s.accounts[u].currency == q.currency && s.accounts[sys].currency == q.currency))
      && (r == Failure(InsufficientFunds) <==>
            MovementAccountsValid(s, sys, q) && Balance(s.entries, u) < q.amount)
      && (r.Success? <==> MovementAccountsValid(s, sys, q) && q.amount <= Balance(s.entries, u))
      && r != Failure(AccountsNotFound)
  {
    RowCount(s.accounts, q.accountId, sys);
  }

  /** A failing database call is reported as the 500 internal error, unless
      a check fails before the call is reached; no internal error arises
      without one; and a completed transfer fails if any of its calls fails. */
  lemma TransferFaults(s: Store, q: TransferRequest, step: Step)
    ensures TransferResult(s, q, None) != Failure(InternalError)
    ensures TransferResult(s, q, Some(step)) in {TransferResult(s, q, None), Failure(InternalError)}
    ensures TransferResult(s, q, None).Success? ==> TransferResult(s, q, Some(step)) == Failure(InternalError)
    ensures TransferResult(s, q, None).Failure? && step.IsPosting() ==>
      TransferResult(s, q, Some(step)) == TransferResult(s, q, None)
  {
    RowCount(s.accounts, q.sourceAccountId, q.destinationAccountId);
  }

  /** As for transfer; `deposit` never reads a balance, so a failure of that call cannot reach it. */
  lemma DepositFaults(s: Store, sys: AccountId, q: MovementRequest, step: Step)
    ensures DepositResult(s, sys, q, None) != Failure(InternalError)
    ensures DepositResult(s, sys, q, Some(step)) in {DepositResult(s, sys, q, None), Failure(InternalError)}
    ensures DepositResult(s, sys, q, None).Success? && step != ReadBalance ==>
      DepositResult(s, sys, q, Some(step)) == Failure(InternalError)
    ensures DepositResult(s, sys, q, Some(ReadBalance)) == DepositResult(s, sys, q, None)
    ensures DepositResult(s, sys, q, None).Failure? && step.IsPosting() ==>
      DepositResult(s, sys, q, Some(step)) == DepositResult(s, sys, q, None)
  {
    RowCount(s.accounts, q.accountId, sys);
  }

  lemma WithdrawFaults(s: Store, sys: AccountId, q: MovementRequest, step: Step)
    ensures WithdrawResult(s, sys, q, None) != Failure(InternalError)
    ensures WithdrawResult(s, sys, q, Some(step)) in {WithdrawResult(s, sys, q, None), Failure(InternalError)}
    ensures WithdrawResult(s, sys, q, None).Success? ==> WithdrawResult(s, sys, q, Some(step)) == Failure(InternalError)
    ensures WithdrawResult(s, sys, q, None).Failure? && step.IsPosting() ==>
      WithdrawResult(s, sys, q, Some(step)) == WithdrawResult(s, sys, q, None)
  {
    RowCount(s.accounts, q.accountId, sys);
  }

  /** The balances after committing `tx`: its source loses the amount, its
      destination gains it, every other account is untouched, and the total
      over any list naming both accounts once is unchanged. */
  ghost predicate MovesFunds(s: Store, tx: Transaction)
  {
    var t, a, b := Commit(s, tx), tx.sourceAccountId, tx.destinationAccountId;
    && Balance(t.entries, a) == Balance(s.entries, a) - tx.amount
    && Balance(t.entries, b) == Balance(s.entries, b) + tx.amount
    && (forall id | id != a && id != b :: Balance(t.entries, id) == Balance(s.entries, id))
    && (forall ids | NoDuplicates(ids) && a in ids && b in ids ::
          SumBalances(ids, t.entries) == SumBalances(ids, s.entries))
  }

  lemma CommitMovesFunds(s: Store, tx: Transaction)
    requires tx.sourceAccountId != tx.destinationAccountId
    ensures MovesFunds(s, tx)
  {
    CommitBalances(s, tx, tx.sourceAccountId);
    CommitBalances(s, tx, tx.destinationAccountId);
    forall id | id != tx.sourceAccountId && id != tx.destinationAccountId
      ensures Balance(Commit(s, tx).entries, id) == Balance(s.entries, id)
    {
      CommitBalances(s, tx, id);
    }
    forall ids | NoDuplicates(ids) && tx.sourceAccountId in ids && tx.destinationAccountId in ids
      ensures SumBalances(ids, Commit(s, tx).entries) == SumBalances(ids, s.entries)
    {
      CommitPreservesSumBalances(s, tx, ids);
    }
  }

  /** A completed transfer is one `completed` transfer row from the source to
      the destination with its two entries; the source is not overdrawn, the
      invariant and the total of all balances are kept. */
  lemma TransferEffect(s: Store, q: TransferRequest, fault: Option<Step>)
    requires WellFormed(s)
    requires TransferResult(s, q, fault).Success?
    ensures var tx, t := TransferResult(s, q, fault).value, Commit(s, TransferResult(s, q, fault).value);
      && fault == None
      && tx == Transaction(|s.transactions|, TxType.Transfer, q.sourceAccountId, q.destinationAccountId,
                           q.amount, q.currency, Completed, StoredDescription(q.description), s.clock)
      && t.entries == s.entries + [
           LedgerEntry(2 * tx.id, q.sourceAccountId, tx.id, Debit, q.amount, s.clock),
           LedgerEntry(2 * tx.id + 1, q.destinationAccountId, tx.id, Credit, q.amount, s.clock)]
      && MovesFunds(s, tx)
      && Balance(t.entries, q.sourceAccountId) >= 0
      && WellFormed(t)
  {
    RowCount(s.accounts, q.sourceAccountId, q.destinationAccountId);
    var tx := TransferResult(s, q, fault).value;
    CommitMovesFunds(s, tx);
    CommitPreservesWellFormed(s, tx);
  }

  /** A completed deposit debits the system account and credits the user
      account. Nothing bounds the system account's balance from below. */
  lemma DepositEffect(s: Store, sys: AccountId, q: MovementRequest, fault: Option<Step>)
    requires WellFormed(s)
    requires DepositResult(s, sys, q, fault).Success?
    ensures var tx, t := DepositResult(s, sys, q, fault).value, Commit(s, DepositResult(s, sys, q, fault).value);
      && (fault == None || fault == Some(ReadBalance))
      && tx == Transaction(|s.transactions|, TxType.Deposit, sys, q.accountId,
                           q.amount, q.currency, Completed, StoredDescription(q.description), s.clock)
      && t.entries == s.entries + [
           LedgerEntry(2 * tx.id, sys, tx.id, Debit, q.amount, s.clock),
           LedgerEntry(2 * tx.id + 1, q.accountId, tx.id, Credit, q.amount, s.clock)]
      && MovesFunds(s, tx)
      && WellFormed(t)
  {
    RowCount(s.accounts, q.accountId, sys);
    var tx := DepositResult(s, sys, q, fault).value;
    CommitMovesFunds(s, tx);
    CommitPreservesWellFormed(s, tx);
  }

  /** A completed withdrawal debits the user account, which is not
      overdrawn, and credits the system account. */
  lemma WithdrawEffect(s: Store, sys: AccountId, q: MovementRequest, fault: Option<Step>)
    requires WellFormed(s)
    requires WithdrawResult(s, sys, q, fault).Success?
    ensures var tx, t := WithdrawResult(s, sys, q, fault).value, Commit(s, WithdrawResult(s, sys, q, fault).value);
      && fault == None
      && tx == Transaction(|s.transactions|, TxType.Withdrawal, q.accountId, sys,
                           q.amount, q.currency, Completed, StoredDescription(q.description), s.clock)
      && t.entries == s.entries + [
           LedgerEntry(2 * tx.id, q.accountId, tx.id, Debit, q.amount, s.clock),
           LedgerEntry(2 * tx.id + 1, sys, tx.id, Credit, q.amount, s.clock)]
      && MovesFunds(s, tx)
      && Balance(t.entries, q.accountId) >= 0
      && WellFormed(t)
  {
    RowCount(s.accounts, q.accountId, sys);
    var tx := WithdrawResult(s, sys, q, fault).value;
    CommitMovesFunds(s, tx);
    CommitPreservesWellFormed(s, tx);
  }

  /** The service does not reject a negative amount: such a transfer passes
      the funds check whenever the source's balance is not negative, and it
      then lowers the destination's balance, which may fall below zero. */
  lemma NegativeTransferLowersDestination(s: Store, q: TransferRequest)
    requires TransferAccountsValid(s, q)
    requires q.amount < 0 <= Balance(s.entries, q.sourceAccountId)
    ensures TransferResult(s, q, None).Success?
    ensures var t := Commit(s, TransferResult(s, q, None).value);
      Balance(t.entries, q.destinationAccountId) < Balance(s.entries, q.destinationAccountId)
  {
    TransferValidation(s, q);
    CommitBalances(s, TransferResult(s, q, None).value, q.destinationAccountId);
  }

  /** A deposit through an inactive system account with no funds completes
      and leaves that account's balance negative. */
  lemma DepositOverdrawsInactiveSystemAccount()
    ensures var s := Store(map[0 := Account(0, "alice", "checking", "USD", ActiveStatus),
                               1 := Account(1, "bank", "system", "USD", "frozen")], [], [], 2, 0);
      var r := DepositResult(s, 1, MovementRequest(0, 500, "USD", None), None);
      && r.Success?
      && Balance(Commit(s, r.value).entries, 1) == -500
      && Balance(Commit(s, r.value).entries, 0) == 500
  {
    var s := Store(map[0 := Account(0, "alice", "checking", "USD", ActiveStatus),
                       1 := Account(1, "bank", "system", "USD", "frozen")], [], [], 2, 0);
    var q := MovementRequest(0, 500, "USD", None);
    DepositValidation(s, 1, q);
    var tx := DepositResult(s, 1, q, None).value;
    CommitBalances(s, tx, 0);
    CommitBalances(s, tx, 1);
  }
}
