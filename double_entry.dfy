/** Consequences of the database invariant: every committed transaction owns
    exactly its debit and its credit, the ledger is in `created_at` order,
    every entry names an existing account, the balances of all accounts sum
    to zero, and one more committed operation keeps all of this. */
module DoubleEntry {
  import opened Ledger
  import opened Balances

  /** The entries that belong to transaction `txId`, in ledger order. */
  function EntriesOfTransaction(es: seq<LedgerEntry>, txId: TransactionId): (r: seq<LedgerEntry>)
    ensures forall e :: e in r <==> e in es && e.transactionId == txId
  {
    if es == [] then []
    else if es[0].transactionId == txId then [es[0]] + EntriesOfTransaction(es[1..], txId)
    else EntriesOfTransaction(es[1..], txId)
  }

  lemma {:induction false} EntriesOfTransactionAppend(a: seq<LedgerEntry>, b: seq<LedgerEntry>, txId: TransactionId)
    ensures EntriesOfTransaction(a + b, txId) == EntriesOfTransaction(a, txId) + EntriesOfTransaction(b, txId)
  {
    if a == [] {
      assert a + b == b;
    } else {
      assert (a + b)[0] == a[0];
      assert (a + b)[1..] == a[1..] + b;
      EntriesOfTransactionAppend(a[1..], b, txId);
    }
  }

  lemma {:induction false} AllPostingsLength(ts: seq<Transaction>)
    ensures |AllPostings(ts)| == 2 * |ts|
  {
    if ts != [] {
      AllPostingsLength(ts[..|ts| - 1]);
    }
  }

  /** Entry j of the ledger is row j % 2 of the postings of transaction j / 2. */
  lemma {:induction false} PostingAt(ts: seq<Transaction>, j: nat)
    requires j < 2 * |ts|
    ensures |AllPostings(ts)| == 2 * |ts|
    ensures AllPostings(ts)[j] == Postings(ts[j / 2])[j % 2]
  {
    AllPostingsLength(ts);
    var n := |ts| - 1;
    var init := ts[..n];
    AllPostingsLength(init);
    assert AllPostings(ts) == AllPostings(init) + Postings(ts[n]);
    if j < 2 * n {
      PostingAt(init, j);
      assert init[j / 2] == ts[j / 2];
    } else {
      assert j / 2 == n;
    }
  }

  /** Transaction ids are positions in the transaction table. */
  ghost predicate IdsAreIndices(ts: seq<Transaction>)
  {
    forall i | 0 <= i < |ts| :: ts[i].id == i
  }

  lemma RecordedIdsAreIndices(s: Store)
    requires WellFormed(s)
    ensures IdsAreIndices(s.transactions)
  {
    forall i | 0 <= i < |s.transactions| ensures s.transactions[i].id == i {
      assert Recorded(s, i);
    }
  }

  lemma TransactionIdsBelow(ts: seq<Transaction>)
    requires IdsAreIndices(ts)
    ensures forall e | e in AllPostings(ts) :: e.transactionId < |ts|
  {
    AllPostingsLength(ts);
    forall e | e in AllPostings(ts) ensures e.transactionId < |ts| {
      var j :| 0 <= j < |AllPostings(ts)| && AllPostings(ts)[j] == e;
      PostingAt(ts, j);
    }
  }

  lemma {:induction false} EntriesOfTransactionAbsent(es: seq<LedgerEntry>, txId: TransactionId)
    requires forall e | e in es :: e.transactionId != txId
    ensures EntriesOfTransaction(es, txId) == []
  {
    if EntriesOfTransaction(es, txId) != [] {
      assert EntriesOfTransaction(es, txId)[0] in EntriesOfTransaction(es, txId);
    }
  }

  /** The entries of the k-th transaction are exactly its two postings. */
  lemma {:induction false} TransactionPostings(ts: seq<Transaction>, k: nat)
    requires IdsAreIndices(ts)
    requires k < |ts|
    ensures EntriesOfTransaction(AllPostings(ts), k) == Postings(ts[k])
  {
    var n := |ts| - 1;
    var init := ts[..n];
    var last := ts[n];
    var p := Postings(last);
    assert AllPostings(ts) == AllPostings(init) + p;
    EntriesOfTransactionAppend(AllPostings(init), p, k);
    assert p[1..] == [p[1]];
    assert p[1..][1..] == [];
    assert IdsAreIndices(init) by {
      forall i | 0 <= i < |init| ensures init[i].id == i {
        assert init[i] == ts[i];
      }
    }
    if k == n {
      TransactionIdsBelow(init);
      EntriesOfTransactionAbsent(AllPostings(init), k);
      assert EntriesOfTransaction(p[1..], k) == p[1..];
    } else {
      TransactionPostings(init, k);
      assert init[k] == ts[k];
      assert EntriesOfTransaction(p[1..], k) == [];
    }
  }

  /** Double entry: every committed transaction has exactly two entries, a
      debit on its source and a credit on its destination, each for its
      amount, so its credits and its debits both total its amount. */
  lemma DoubleEntryConservation(s: Store, k: nat)
    requires WellFormed(s)
    requires k < |s.transactions|
    ensures var tx := s.transactions[k];
      var es := EntriesOfTransaction(s.entries, tx.id);
      && |es| == 2
      && es[0].entryType == Debit && es[0].accountId == tx.sourceAccountId && es[0].amount == tx.amount
      && es[1].entryType == Credit && es[1].accountId == tx.destinationAccountId && es[1].amount == tx.amount
      && es[0].accountId != es[1].accountId
      && CreditSum(es) == tx.amount
      && DebitSum(es) == tx.amount
  {
    var tx := s.transactions[k];
    RecordedIdsAreIndices(s);
    assert Recorded(s, k);
    TransactionPostings(s.transactions, k);
    var p := Postings(tx);
    assert p[1..] == [p[1]];
    assert p[1..][1..] == [];
    assert CreditSum(p[1..]) == tx.amount && DebitSum(p[1..]) == 0;
  }

  /** The ledger is in `created_at` order. */
  lemma EntriesChronological(s: Store)
    requires WellFormed(s)
    ensures Chronological(s.entries)
  {
    AllPostingsLength(s.transactions);
    forall i, j | 0 <= i < j < |s.entries| ensures s.entries[i].createdAt <= s.entries[j].createdAt {
      PostingAt(s.transactions, i);
      PostingAt(s.transactions, j);
      assert i / 2 <= j / 2;
    }
  }

  /** Every entry names an existing account whose id is below the next id to hand out. */
  lemma EntriesReferenceAccounts(s: Store)
    requires WellFormed(s)
    ensures forall e | e in s.entries :: e.accountId in s.accounts && e.accountId < s.nextAccountId
  {
    AllPostingsLength(s.transactions);
    forall e | e in s.entries ensures e.accountId in s.accounts && e.accountId < s.nextAccountId {
      var j :| 0 <= j < |s.entries| && s.entries[j] == e;
      PostingAt(s.transactions, j);
      assert Recorded(s, j / 2);
    }
  }

  /** The account id the database hands out next has no entries, hence balance 0. */
  lemma NextAccountHasNoEntries(s: Store)
    requires WellFormed(s)
    ensures AccountEntries(s.entries, s.nextAccountId) == []
    ensures Balance(s.entries, s.nextAccountId) == 0
  {
    EntriesReferenceAccounts(s);
    BalanceIsCreditsMinusDebits(s.entries, s.nextAccountId);
  }

  lemma {:induction false} AllPostingsNetZero(ts: seq<Transaction>)
    ensures NetSum(AllPostings(ts)) == 0
  {
    if ts != [] {
      var p := Postings(ts[|ts| - 1]);
      AllPostingsNetZero(ts[..|ts| - 1]);
      NetSumAppend(AllPostings(ts[..|ts| - 1]), p);
      assert p[1..] == [p[1]];
      assert p[1..][1..] == [];
      assert NetSum(p[1..]) == p[1].amount;
    }
  }

  /** Conservation of value: over a list naming every account once, the
      balances of all accounts add up to zero. */
  lemma TotalBalanceIsZero(s: Store, ids: seq<AccountId>)
    requires WellFormed(s)
    requires NoDuplicates(ids)
    requires forall id | id in s.accounts :: id in ids
    ensures SumBalances(ids, s.entries) == 0
  {
    EntriesReferenceAccounts(s);
    SumBalancesIsNetSum(ids, s.entries);
    AllPostingsNetZero(s.transactions);
  }

  /** What a transaction must be for its commit to keep the invariant. */
  ghost predicate Committable(s: Store, tx: Transaction)
  {
    && tx.id == |s.transactions|
    && tx.status == Completed
    && tx.sourceAccountId in s.accounts
    && tx.destinationAccountId in s.accounts
    && tx.sourceAccountId != tx.destinationAccountId
    && s.accounts[tx.sourceAccountId].currency == tx.currency
    && s.accounts[tx.destinationAccountId].currency == tx.currency
    && tx.createdAt == s.clock
  }

  lemma CommitPreservesWellFormed(s: Store, tx: Transaction)
    requires WellFormed(s)
    requires Committable(s, tx)
    ensures WellFormed(Commit(s, tx))
  {
    var t := Commit(s, tx);
    forall i | 0 <= i < |t.transactions| ensures Recorded(t, i) {
      if i < |s.transactions| {
        assert Recorded(s, i);
        assert t.transactions[i] == s.transactions[i];
      }
    }
    forall i, j | 0 <= i < j < |t.transactions|
      ensures t.transactions[i].createdAt <= t.transactions[j].createdAt
    {
      if j < |s.transactions| {
        assert t.transactions[j] == s.transactions[j];
      } else {
        assert Recorded(s, i);
      }
    }
    assert t.transactions[..|t.transactions| - 1] == s.transactions;
  }
}
