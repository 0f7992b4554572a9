/** The balance rule shared by the transaction engine and the account
    queries: the signed sum of an account's ledger entries, credits counted
    positive and debits negative, zero when the account has none. */
module Balances {
  import opened Ledger

  /** One entry's contribution: a credit counts plus its amount, anything else minus it. */
  function Signed(e: LedgerEntry): int
  {
    if e.entryType == Credit then e.amount else -e.amount
  }

  /** The balance of account `id` over the ledger `es`: the signed sum of
      the entries naming it, and 0 when none does. */
  function Balance(es: seq<LedgerEntry>, id: AccountId): (r: int)
    ensures (forall e | e in es :: e.accountId != id) ==> r == 0
  {
    if es == [] then 0
    else
      assert forall e | e in es[1..] :: e in es;
      (if es[0].accountId == id then Signed(es[0]) else 0) + Balance(es[1..], id)
  }

  /** The entries of account `id`, in ledger order, each as often as in the ledger. */
  function AccountEntries(es: seq<LedgerEntry>, id: AccountId): (r: seq<LedgerEntry>)
    ensures forall e :: e in r <==> e in es && e.accountId == id
    ensures forall x :: multiset(r)[x] == if x.accountId == id then multiset(es)[x] else 0
    ensures |r| <= |es|
  {
    if es == [] then []
    else
      assert es == [es[0]] + es[1..];
      if es[0].accountId == id then [es[0]] + AccountEntries(es[1..], id)
      else AccountEntries(es[1..], id)
  }

  /** Sum of the amounts of the credit entries in `es`. */
  function CreditSum(es: seq<LedgerEntry>): int
  {
    if es == [] then 0
    else (if es[0].entryType == Credit then es[0].amount else 0) + CreditSum(es[1..])
  }

  /** Sum of the amounts of the debit entries in `es`. */
  function DebitSum(es: seq<LedgerEntry>): int
  {
    if es == [] then 0
    else (if es[0].entryType == Debit then es[0].amount else 0) + DebitSum(es[1..])
  }

  /** The signed sum is the account's credits minus its debits, and 0 when it has no entries. */
  lemma {:induction false} BalanceIsCreditsMinusDebits(es: seq<LedgerEntry>, id: AccountId)
    ensures Balance(es, id) == CreditSum(AccountEntries(es, id)) - DebitSum(AccountEntries(es, id))
    ensures AccountEntries(es, id) == [] ==> Balance(es, id) == 0
  {
    if es != [] {
      BalanceIsCreditsMinusDebits(es[1..], id);
      var rest := AccountEntries(es[1..], id);
      if es[0].accountId == id {
        assert ([es[0]] + rest)[0] == es[0];
        assert ([es[0]] + rest)[1..] == rest;
      }
    }
  }

  /** The signed sum of an account's listing is its balance. */
  lemma {:induction false} NetSumOfAccountEntries(es: seq<LedgerEntry>, id: AccountId)
    ensures NetSum(AccountEntries(es, id)) == Balance(es, id)
  {
    if es != [] {
      NetSumOfAccountEntries(es[1..], id);
      var rest := AccountEntries(es[1..], id);
      if es[0].accountId == id {
        assert ([es[0]] + rest)[0] == es[0];
        assert ([es[0]] + rest)[1..] == rest;
      }
    }
  }

  lemma {:induction false} BalanceAppend(a: seq<LedgerEntry>, b: seq<LedgerEntry>, id: AccountId)
    ensures Balance(a + b, id) == Balance(a, id) + Balance(b, id)
  {
    if a == [] {
      assert a + b == b;
    } else {
      assert (a + b)[0] == a[0];
      assert (a + b)[1..] == a[1..] + b;
      BalanceAppend(a[1..], b, id);
    }
  }

  /** Committing one operation moves `amount` from its source account to its
      destination account and leaves every other balance as it was. */
  lemma CommitBalances(s: Store, tx: Transaction, id: AccountId)
    requires tx.sourceAccountId != tx.destinationAccountId
    ensures Balance(Commit(s, tx).entries, id) ==
      Balance(s.entries, id)
      - (if id == tx.sourceAccountId then tx.amount else 0)
      + (if id == tx.destinationAccountId then tx.amount else 0)
  {
    var p := Postings(tx);
    BalanceAppend(s.entries, p, id);
    assert p[1..] == [p[1]];
    assert p[1..][1..] == [];
    assert Balance(p[1..], id) == (if id == tx.destinationAccountId then tx.amount else 0);
    assert Balance(p, id) ==
      (if id == tx.sourceAccountId then -tx.amount else 0) + Balance(p[1..], id);
  }

  lemma ChronologicalTail(es: seq<LedgerEntry>)
    requires es != [] && Chronological(es)
    ensures Chronological(es[1..])
    ensures forall e | e in es[1..] :: es[0].createdAt <= e.createdAt
  {
    var rest := es[1..];
    forall i, j | 0 <= i < j < |rest| ensures rest[i].createdAt <= rest[j].createdAt {
      assert rest[i] == es[i + 1] && rest[j] == es[j + 1];
    }
    forall e | e in rest ensures es[0].createdAt <= e.createdAt {
      var k :| 0 <= k < |rest| && rest[k] == e;
      assert es[k + 1] == e;
    }
  }

  lemma ChronologicalCons(x: LedgerEntry, r: seq<LedgerEntry>)
    requires Chronological(r)
    requires forall e | e in r :: x.createdAt <= e.createdAt
    ensures Chronological([x] + r)
  {
    var xr := [x] + r;
    forall i, j | 0 <= i < j < |xr| ensures xr[i].createdAt <= xr[j].createdAt {
      assert xr[j] == r[j - 1];
      assert r[j - 1] in r;
      if i > 0 {
        assert xr[i] == r[i - 1];
      }
    }
  }

  /** The filter keeps the ledger's `created_at` order. */
  lemma {:induction false} AccountEntriesChronological(es: seq<LedgerEntry>, id: AccountId)
    requires Chronological(es)
    ensures Chronological(AccountEntries(es, id))
  {
    if es != [] {
      ChronologicalTail(es);
      AccountEntriesChronological(es[1..], id);
      if es[0].accountId == id {
        ChronologicalCons(es[0], AccountEntries(es[1..], id));
      }
    }
  }

  /** Sum of signed amounts of every entry in the ledger. */
  function NetSum(es: seq<LedgerEntry>): int
  {
    if es == [] then 0 else Signed(es[0]) + NetSum(es[1..])
  }

  predicate NoDuplicates(ids: seq<AccountId>)
  {
    forall i, j | 0 <= i < j < |ids| :: ids[i] != ids[j]
  }

  /** The total of the balances of the listed accounts. */
  function SumBalances(ids: seq<AccountId>, es: seq<LedgerEntry>): int
  {
    if ids == [] then 0 else Balance(es, ids[0]) + SumBalances(ids[1..], es)
  }

  lemma {:induction false} NetSumAppend(a: seq<LedgerEntry>, b: seq<LedgerEntry>)
    ensures NetSum(a + b) == NetSum(a) + NetSum(b)
  {
    if a == [] {
      assert a + b == b;
    } else {
      assert (a + b)[0] == a[0];
      assert (a + b)[1..] == a[1..] + b;
      NetSumAppend(a[1..], b);
    }
  }

  lemma {:induction false} SumBalancesAppend(ids: seq<AccountId>, a: seq<LedgerEntry>, b: seq<LedgerEntry>)
    ensures SumBalances(ids, a + b) == SumBalances(ids, a) + SumBalances(ids, b)
  {
    if ids != [] {
      BalanceAppend(a, b, ids[0]);
      SumBalancesAppend(ids[1..], a, b);
    }
  }

  lemma {:induction false} SumBalancesAbsent(ids: seq<AccountId>, es: seq<LedgerEntry>)
    requires forall e | e in es :: e.accountId !in ids
    ensures SumBalances(ids, es) == 0
  {
    if ids != [] {
      SumBalancesAbsent(ids[1..], es);
    }
  }

  /** Over a list naming each account once, one entry adds exactly its signed amount. */
  lemma {:induction false} SumBalancesSingle(ids: seq<AccountId>, x: LedgerEntry)
    requires NoDuplicates(ids) && x.accountId in ids
    ensures SumBalances(ids, [x]) == Signed(x)
  {
    assert [x][1..] == [];
    assert Balance([x], ids[0]) == if x.accountId == ids[0] then Signed(x) else 0;
    var rest := ids[1..];
    if ids[0] == x.accountId {
      forall k | 0 <= k < |rest| ensures rest[k] != x.accountId {
        assert rest[k] == ids[k + 1];
      }
      SumBalancesAbsent(rest, [x]);
    } else {
      assert NoDuplicates(rest) by {
        forall i, j | 0 <= i < j < |rest| ensures rest[i] != rest[j] {
          assert rest[i] == ids[i + 1] && rest[j] == ids[j + 1];
        }
      }
      SumBalancesSingle(rest, x);
    }
  }

  /** When the list names every account of the ledger once, the total of
      their balances is the signed sum of the whole ledger. */
  lemma {:induction false} SumBalancesIsNetSum(ids: seq<AccountId>, es: seq<LedgerEntry>)
    requires NoDuplicates(ids)
    requires forall e | e in es :: e.accountId in ids
    ensures SumBalances(ids, es) == NetSum(es)
  {
    if es == [] {
      SumBalancesAbsent(ids, es);
    } else {
      assert es == [es[0]] + es[1..];
      assert es[0] in es;
      assert forall e | e in es[1..] :: e in es;
      SumBalancesAppend(ids, [es[0]], es[1..]);
      SumBalancesSingle(ids, es[0]);
      SumBalancesIsNetSum(ids, es[1..]);
      calc {
        SumBalances(ids, es);
        SumBalances(ids, [es[0]] + es[1..]);
        SumBalances(ids, [es[0]]) + SumBalances(ids, es[1..]);
        Signed(es[0]) + NetSum(es[1..]);
      }
    }
  }

  /** Committing one operation leaves the total of the balances of any set
      of accounts that includes both of its accounts unchanged. */
  lemma CommitPreservesSumBalances(s: Store, tx: Transaction, ids: seq<AccountId>)
    requires NoDuplicates(ids)
    requires tx.sourceAccountId in ids && tx.destinationAccountId in ids
    ensures SumBalances(ids, Commit(s, tx).entries) == SumBalances(ids, s.entries)
  {
    var p := Postings(tx);
    SumBalancesAppend(ids, s.entries, p);
    assert p[1..] == [p[1]];
    assert p[1..][1..] == [];
    assert NetSum(p[1..]) == tx.amount;
    assert NetSum(p) == 0;
    SumBalancesIsNetSum(ids, p);
  }
}
