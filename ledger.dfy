/** The database the two services share: the `accounts`, `transactions`
    and `ledger_entries` tables, the well-formedness invariant that every
    committed operation keeps, and the object that holds the tables. */
module Ledger {
  import opened Outcomes

  type AccountId = nat
  type TransactionId = nat
  type EntryId = nat

  /** The only status the transaction engine accepts. */
  const ActiveStatus: string := "active"

  /** A row of `accounts`; `status` is free text, of which only "active" matters. */
  datatype Account = Account(
    id: AccountId,
    userId: string,
    accountType: string,
    currency: string,
    status: string)

  predicate IsActive(a: Account)
  {
    a.status == ActiveStatus
  }

  datatype EntryType = Debit | Credit

  /** A row of `ledger_entries`. */
  datatype LedgerEntry = LedgerEntry(
    id: EntryId,
    accountId: AccountId,
    transactionId: TransactionId,
    entryType: EntryType,
    amount: int,
    createdAt: nat)

  datatype TxType = Transfer | Deposit | Withdrawal

  datatype TxStatus = Pending | Completed

  /** A row of `transactions`; the source is the debited account and the
      destination the credited one. */
  datatype Transaction = Transaction(
    id: TransactionId,
    txType: TxType,
    sourceAccountId: AccountId,
    destinationAccountId: AccountId,
    amount: int,
    currency: string,
    status: TxStatus,
    description: Option<string>,
    createdAt: nat)

  /** The committed contents of the database. `nextAccountId` stands for the
      generator of account ids and `clock` for the database clock. */
  datatype Store = Store(
    accounts: map<AccountId, Account>,
    transactions: seq<Transaction>,
    entries: seq<LedgerEntry>,
    nextAccountId: nat,
    clock: nat)

  /** The two ledger rows one operation writes for `tx`: a debit on the
      paying account, then a credit on the receiving one, for the same amount. */
  function Postings(tx: Transaction): seq<LedgerEntry>
  {
    [LedgerEntry(2 * tx.id, tx.sourceAccountId, tx.id, Debit, tx.amount, tx.createdAt),
     LedgerEntry(2 * tx.id + 1, tx.destinationAccountId, tx.id, Credit, tx.amount, tx.createdAt)]
  }

  /** The ledger that a sequence of committed transactions leaves behind. */
  function AllPostings(ts: seq<Transaction>): seq<LedgerEntry>
  {
    if ts == [] then [] else AllPostings(ts[..|ts| - 1]) + Postings(ts[|ts| - 1])
  }

  /** Entries listed in non-decreasing `created_at` order. */
  ghost predicate Chronological(es: seq<LedgerEntry>)
  {
    forall i, j | 0 <= i < j < |es| :: es[i].createdAt <= es[j].createdAt
  }

  /** The i-th transaction is a completed movement between two different
      existing accounts of its own currency. */
  ghost predicate Recorded(s: Store, i: nat)
    requires i < |s.transactions|
  {
    var tx := s.transactions[i];
    && tx.id == i
    && tx.status == Completed
    && tx.sourceAccountId in s.accounts
    && tx.destinationAccountId in s.accounts
    && tx.sourceAccountId != tx.destinationAccountId
    && s.accounts[tx.sourceAccountId].currency == tx.currency
    && s.accounts[tx.destinationAccountId].currency == tx.currency
    && tx.createdAt < s.clock
  }

  /** What holds of the database between operations. */
  ghost predicate WellFormed(s: Store)
  {
    && (forall id | id in s.accounts :: s.accounts[id].id == id && id < s.nextAccountId)
    && (forall i | 0 <= i < |s.transactions| :: Recorded(s, i))
    && (forall i, j | 0 <= i < j < |s.transactions| ::
          s.transactions[i].createdAt <= s.transactions[j].createdAt)
    && s.entries == AllPostings(s.transactions)
  }

  /** The database after one operation commits `tx`. */
  function Commit(s: Store, tx: Transaction): Store
  {
    s.(transactions := s.transactions + [tx],
       entries := s.entries + Postings(tx),
       clock := s.clock + 1)
  }

  /** The database. Its tables are fields that the services reassign. */
  class LedgerDb {
    var accounts: map<AccountId, Account>
    var transactions: seq<Transaction>
    var entries: seq<LedgerEntry>
    var nextAccountId: nat
    var clock: nat

    /** An empty database. */
    constructor ()
      ensures View() == Store(map[], [], [], 0, 0)
      ensures Valid()
    {
      accounts := map[];
      transactions := [];
      entries := [];
      nextAccountId := 0;
      clock := 0;
    }

    function View(): Store
      reads this
    {
      Store(accounts, transactions, entries, nextAccountId, clock)
    }

    ghost predicate Valid()
      reads this
    {
      WellFormed(View())
    }

    /** ROLLBACK: every table returns to the state saved at BEGIN. */
    method Restore(saved: Store)
      modifies this
      ensures View() == saved
    {
      accounts := saved.accounts;
      transactions := saved.transactions;
      entries := saved.entries;
      nextAccountId := saved.nextAccountId;
      clock := saved.clock;
    }
  }
}
