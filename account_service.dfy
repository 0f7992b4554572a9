/** The account operations over the same database: opening an account,
    reading an account with its balance, and listing its ledger. */
module AccountService {
  import opened Outcomes
  import opened Ledger
  import opened Balances
  import opened DoubleEntry

  /** An account row together with its computed balance. */
  datatype AccountWithBalance = AccountWithBalance(account: Account, balance: int)

  /** Adding a fresh account keeps the invariant. */
  lemma AddAccountPreservesWellFormed(s: Store, a: Account)
    requires WellFormed(s)
    requires a.id == s.nextAccountId
    ensures WellFormed(s.(accounts := s.accounts[a.id := a], nextAccountId := a.id + 1))
  {
    var t := s.(accounts := s.accounts[a.id := a], nextAccountId := a.id + 1);
    forall i | 0 <= i < |t.transactions| ensures Recorded(t, i) {
      assert Recorded(s, i);
    }
  }

  /** The row of account `id` with its balance, or null for an unknown id.
      The balance is the account's credits minus its debits and 0 when it
      has no entries: the rule the transaction engine uses. */
  function GetAccountWithBalance(db: LedgerDb, id: AccountId): (r: Option<AccountWithBalance>)
    reads db
    ensures r.None? <==> id !in db.accounts
    ensures r.Some? ==> r.value.account == db.accounts[id]
    ensures r.Some? ==>
      r.value.balance == CreditSum(AccountEntries(db.entries, id)) - DebitSum(AccountEntries(db.entries, id))
    ensures r.Some? && AccountEntries(db.entries, id) == [] ==> r.value.balance == 0
  {
    if id !in db.accounts then None
    else
      BalanceIsCreditsMinusDebits(db.entries, id);
      Some(AccountWithBalance(db.accounts[id], Balance(db.entries, id)))
  }

  /** The entries of account `id`: exactly those naming it, each once per
      ledger row, oldest first; their signed sum is the account's balance. */
  function GetAccountLedger(db: LedgerDb, id: AccountId): (r: seq<LedgerEntry>)
    reads db
    requires db.Valid()
    ensures forall e :: e in r <==> e in db.entries && e.accountId == id
    ensures forall x :: multiset(r)[x] == if x.accountId == id then multiset(db.entries)[x] else 0
    ensures Chronological(r)
    ensures NetSum(r) == Balance(db.entries, id)
  {
    EntriesChronological(db.View());
    AccountEntriesChronological(db.entries, id);
    NetSumOfAccountEntries(db.entries, id);
    AccountEntries(db.entries, id)
  }

  /** Inserts a new `active` account with the given owner, type and
      currency under a fresh id; nothing else changes and its balance is 0. */
  method CreateAccount(db: LedgerDb, userId: string, accountType: string, currency: string)
    returns (account: Account)
    requires db.Valid()
    modifies db
    ensures db.Valid()
    ensures account == Account(old(db.nextAccountId), userId, accountType, currency, ActiveStatus)
    ensures account.id !in old(db.accounts)
    ensures db.View() == old(db.View()).(accounts := old(db.accounts)[account.id := account],
                                         nextAccountId := account.id + 1)
    ensures GetAccountWithBalance(db, account.id) == Some(AccountWithBalance(account, 0))
  {
    NextAccountHasNoEntries(db.View());
    account := Account(db.nextAccountId, userId, accountType, currency, ActiveStatus);
    AddAccountPreservesWellFormed(db.View(), account);
    db.accounts := db.accounts[account.id := account];
    db.nextAccountId := db.nextAccountId + 1;
  }
}
