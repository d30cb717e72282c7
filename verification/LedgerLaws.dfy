/** What the balances and reversals of a reachable ledger satisfy. */
module LedgerLaws {
  import opened Common
  import opened Ledger

  // ---- The balance rows are the per-key sums ----

  /** Signed total of the counted entries of one account and currency among the first `n`. */
  function KeySum(s: State, user: nat, n: nat, account: nat, currency: string): int
    requires n <= |s.entries|
  {
    if n == 0 then 0 else
      var e := s.entries[n - 1];
      KeySum(s, user, n - 1, account, currency)
      + if Counts(s, user, e) && e.account == account && e.currency == currency then Movement(s, e) else 0
  }

  function KeyCount(s: State, user: nat, n: nat, account: nat, currency: string): nat
    requires n <= |s.entries|
  {
    if n == 0 then 0 else
      var e := s.entries[n - 1];
      KeyCount(s, user, n - 1, account, currency)
      + if Counts(s, user, e) && e.account == account && e.currency == currency then 1 else 0
  }

  ghost predicate DistinctKeys(rows: seq<Balance>) {
    forall i, j :: 0 <= i < j < |rows| ==> rows[i].account != rows[j].account || rows[i].currency != rows[j].currency
  }

  /** One row per account and currency with a counted entry, holding that key's sum and count. */
  ghost predicate ExactRows(s: State, user: nat, n: nat, rows: seq<Balance>)
    requires n <= |s.entries|
  {
    && DistinctKeys(rows)
    && (forall account, currency :: var p := Find(rows, account, currency);
          if p < |rows|
          then rows[p].amount == KeySum(s, user, n, account, currency)
               && rows[p].count == KeyCount(s, user, n, account, currency) > 0
          else KeyCount(s, user, n, account, currency) == 0 && KeySum(s, user, n, account, currency) == 0)
  }

  lemma {:induction false} FindIs(rows: seq<Balance>, i: nat)
    requires DistinctKeys(rows) && i < |rows|
    ensures Find(rows, rows[i].account, rows[i].currency) == i
  {}

  lemma AddIsExact(s: State, user: nat, n: nat, rows: seq<Balance>)
    requires n < |s.entries| && ExactRows(s, user, n, rows) && Counts(s, user, s.entries[n])
    ensures ExactRows(s, user, n + 1, Add(s, rows, s.entries[n]))
  {
    var e := s.entries[n];
    var after, q := Add(s, rows, e), Find(rows, e.account, e.currency);
    assert DistinctKeys(after);
    forall account, currency
      ensures var p := Find(after, account, currency);
        if p < |after|
        then after[p].amount == KeySum(s, user, n + 1, account, currency)
             && after[p].count == KeyCount(s, user, n + 1, account, currency) > 0
        else KeyCount(s, user, n + 1, account, currency) == 0 && KeySum(s, user, n + 1, account, currency) == 0
    {
      var p := Find(rows, account, currency);
      if account == e.account && currency == e.currency {
        FindIs(after, q);
      } else if p < |rows| {
        assert p != q;
        assert after[p] == rows[p];
        FindIs(after, p);
      }
    }
  }

  lemma {:induction false} BalancesExactUpTo(s: State, user: nat, n: nat)
    requires n <= |s.entries|
    ensures ExactRows(s, user, n, BalancesUpTo(s, user, n))
  {
    if n > 0 {
      BalancesExactUpTo(s, user, n - 1);
      if Counts(s, user, s.entries[n - 1]) {
        AddIsExact(s, user, n - 1, BalancesUpTo(s, user, n - 1));
      }
    }
  }

  lemma {:induction false} KeySumIsSignedNet(s: State, user: nat, n: nat, account: nat, currency: string)
    requires Inv(s) && n <= |s.entries| && account in s.accounts && s.accounts[account].owner == user
    ensures KeySum(s, user, n, account, currency) ==
      Sign(Debit, s.accounts[account].normal)
        * Net(s.entries[..n], OfKey(CountedTransactions(s, user), account, currency))
  {
    if n > 0 {
      KeySumIsSignedNet(s, user, n - 1, account, currency);
      assert s.entries[..n][..n - 1] == s.entries[..n - 1];
      assert WellFormedEntry(s, s.entries[n - 1]);
    }
  }

  /** Each reported balance is its account's net, in the account's own direction, over the user's confirmed
      transactions, and no account or currency is reported twice or left out. */
  lemma BalancesAreExact(s: State, user: nat)
    requires Inv(s)
    ensures var rows := Balances(s, user);
      && ExactRows(s, user, |s.entries|, rows)
      && (forall i :: 0 <= i < |rows| ==>
            && rows[i].account in s.accounts
            && rows[i].amount == Sign(Debit, s.accounts[rows[i].account].normal)
                 * Net(s.entries, OfKey(CountedTransactions(s, user), rows[i].account, rows[i].currency)))
  {
    var rows := Balances(s, user);
    BalancesExactUpTo(s, user, |s.entries|);
    RowsAreOwned(s, user, |s.entries|);
    assert s.entries[..|s.entries|] == s.entries;
    forall i | 0 <= i < |rows|
      ensures rows[i].amount == Sign(Debit, s.accounts[rows[i].account].normal)
                * Net(s.entries, OfKey(CountedTransactions(s, user), rows[i].account, rows[i].currency))
    {
      FindIs(rows, i);
      KeySumIsSignedNet(s, user, |s.entries|, rows[i].account, rows[i].currency);
    }
  }

  lemma {:induction false} RowsAreOwned(s: State, user: nat, n: nat)
    requires n <= |s.entries|
    ensures forall i :: 0 <= i < |BalancesUpTo(s, user, n)| ==>
      BalancesUpTo(s, user, n)[i].account in s.accounts
      && s.accounts[BalancesUpTo(s, user, n)[i].account].owner == user
  {
    if n > 0 {
      RowsAreOwned(s, user, n - 1);
    }
  }

  // ---- The accounting equation ----

  lemma {:induction false} KindSumUpdate(s: State, rows: seq<Balance>, p: nat, r: Balance, kind: Kind, currency: string)
    requires p < |rows| && r.account == rows[p].account && r.currency == rows[p].currency
    ensures KindSum(s, rows[p := r], kind, currency) == KindSum(s, rows, kind, currency)
      + if r.account in s.accounts && s.accounts[r.account].kind == kind && r.currency == currency
        then r.amount - rows[p].amount else 0
  {
    var n := |rows| - 1;
    if p < n {
      assert rows[p := r][..n] == rows[..n][p := r];
      KindSumUpdate(s, rows[..n], p, r, kind, currency);
    } else {
      assert rows[p := r][..n] == rows[..n];
    }
  }

  lemma KindSumAdd(s: State, rows: seq<Balance>, e: Entry, kind: Kind, currency: string)
    requires e.account in s.accounts
    ensures KindSum(s, Add(s, rows, e), kind, currency) == KindSum(s, rows, kind, currency)
      + if s.accounts[e.account].kind == kind && e.currency == currency then Movement(s, e) else 0
  {
    var p := Find(rows, e.account, e.currency);
    if p < |rows| {
      var r := rows[p].(amount := rows[p].amount + Movement(s, e), count := rows[p].count + 1);
      KindSumUpdate(s, rows, p, r, kind, currency);
    } else {
      var r := Balance(e.account, e.currency, Movement(s, e), 1);
      assert (rows + [r])[..|rows|] == rows;
    }
  }

  /** Debit-side kinds minus credit-side kinds. */
  function Imbalance(s: State, rows: seq<Balance>, currency: string): int {
    KindSum(s, rows, Asset, currency) + KindSum(s, rows, Expense, currency)
    - KindSum(s, rows, Liability, currency) - KindSum(s, rows, Equity, currency) - KindSum(s, rows, Income, currency)
  }

  /** The filters on status and on both owners never split a transaction. */
  lemma FiltersKeepTransactionsWhole(s: State, user: nat, i: nat)
    requires Inv(s) && i < |s.entries|
    ensures Counts(s, user, s.entries[i]) <==> s.entries[i].tx in CountedTransactions(s, user)
  {
    assert WellFormedEntry(s, s.entries[i]);
  }

  lemma {:induction false} ImbalanceIsNet(s: State, user: nat, n: nat, currency: string)
    requires Inv(s) && n <= |s.entries|
    ensures Imbalance(s, BalancesUpTo(s, user, n), currency) ==
      Net(s.entries[..n], OfTransactions(CountedTransactions(s, user), currency))
  {
    if n > 0 {
      var e, before := s.entries[n - 1], BalancesUpTo(s, user, n - 1);
      ImbalanceIsNet(s, user, n - 1, currency);
      assert s.entries[..n][..n - 1] == s.entries[..n - 1];
      FiltersKeepTransactionsWhole(s, user, n - 1);
      if Counts(s, user, e) {
        KindSumAdd(s, before, e, Asset, currency);
        KindSumAdd(s, before, e, Expense, currency);
        KindSumAdd(s, before, e, Liability, currency);
        KindSumAdd(s, before, e, Equity, currency);
        KindSumAdd(s, before, e, Income, currency);
      }
    }
  }

  lemma ImbalanceIsZero(s: State, user: nat, currency: string)
    requires Inv(s)
    ensures Imbalance(s, Balances(s, user), currency) == 0
  {
    ImbalanceIsNet(s, user, |s.entries|, currency);
    assert s.entries[..|s.entries|] == s.entries;
    var counted := CountedTransactions(s, user);
    assert Net(s.entries, OfTransactions(counted, currency)) == 0;
  }

  /** Assets + expenses = liabilities + equity + income over the reported rows, so the net position is
      exactly what equity and income put in less what expenses took out. */
  ghost predicate EquationHolds(s: State, user: nat, currency: string) {
    var rows := Balances(s, user);
    && KindSum(s, rows, Asset, currency) + KindSum(s, rows, Expense, currency) ==
         KindSum(s, rows, Liability, currency) + KindSum(s, rows, Equity, currency) + KindSum(s, rows, Income, currency)
    && PositionIn(s, rows, currency).NetMinor() ==
         KindSum(s, rows, Equity, currency) + KindSum(s, rows, Income, currency) - KindSum(s, rows, Expense, currency)
  }

  lemma EquationFromInv(s: State, user: nat, currency: string)
    requires Inv(s)
    ensures EquationHolds(s, user, currency)
  {
    ImbalanceIsZero(s, user, currency);
  }

  /** The accounting equation, for every user and currency, after any run of events. */
  lemma AccountingEquation(events: seq<Event>, user: nat, currency: string)
    ensures EquationHolds(Run(events), user, currency)
  {
    ReachableInv(events);
    EquationFromInv(Run(events), user, currency);
  }

  // ---- Reversal ----

  lemma {:induction false} FilterAppend(a: seq<Entry>, b: seq<Entry>, tx: nat)
    ensures Filter(a + b, tx) == Filter(a, tx) + Filter(b, tx)
  {
    if b == [] {
      assert a + b == a;
    } else {
      assert (a + b)[..|a| + |b| - 1] == a + b[..|b| - 1];
      FilterAppend(a, b[..|b| - 1], tx);
    }
  }

  lemma {:induction false} FilterAll(entries: seq<Entry>, tx: nat)
    requires forall i :: 0 <= i < |entries| ==> entries[i].tx == tx
    ensures Filter(entries, tx) == entries
  {
    if entries != [] {
      FilterAll(entries[..|entries| - 1], tx);
    }
  }

  lemma ReversedEntries(entries: seq<Entry>, tx: nat)
    ensures Filter(entries + Mirror(Filter(entries, tx)), tx) == Filter(entries, tx) + Mirror(Filter(entries, tx))
  {
    FilterAppend(entries, Mirror(Filter(entries, tx)), tx);
    FilterAll(Mirror(Filter(entries, tx)), tx);
  }

  lemma MirroredPairNetsZero(existing: seq<Entry>, selects: Entry -> bool)
    requires forall i :: 0 <= i < |existing| ==> selects(Flip(existing[i])) == selects(existing[i])
    ensures Net(existing + Mirror(existing), selects) == 0
  {
    NetAppend(existing, Mirror(existing), selects);
    MirrorNegates(existing, selects);
  }

  lemma NetAcrossOneTransaction(entries: seq<Entry>, txs: set<nat>, tx: nat, account: nat, currency: string)
    requires Net(entries, OfKey({tx}, account, currency)) == 0
    ensures Net(entries, OfKey(txs + {tx}, account, currency)) == Net(entries, OfKey(txs - {tx}, account, currency))
  {
    NetSplits(entries, txs, tx, account, currency);
  }

  lemma {:induction false} NetSplits(entries: seq<Entry>, txs: set<nat>, tx: nat, account: nat, currency: string)
    ensures Net(entries, OfKey(txs + {tx}, account, currency)) ==
      Net(entries, OfKey(txs - {tx}, account, currency)) + Net(entries, OfKey({tx}, account, currency))
  {
    if entries != [] {
      NetSplits(entries[..|entries| - 1], txs, tx, account, currency);
    }
  }

  /** A reversal keeps every earlier entry, zeroes every account's net within the transaction, cannot be
      repeated, and makes every account's balance the same whether the transaction counts or not. */
  lemma ReversalUndoes(s: State, tx: nat)
    requires ReverseSpec(s, tx).Written? && Filter(s.entries, tx) != []
    ensures var after := s.(entries := s.entries + ReverseSpec(s, tx).entries);
      && s.entries <= after.entries && |after.entries| == |s.entries| + |Filter(s.entries, tx)|
      && Cancelled(after.entries, tx)
      && ReverseSpec(after, tx) == Refused(AlreadyReversed)
      && (forall txs: set<nat>, account: nat, currency: string ::
            Net(after.entries, OfKey(txs + {tx}, account, currency))
              == Net(after.entries, OfKey(txs - {tx}, account, currency)))
  {
    var existing := Filter(s.entries, tx);
    var entries := s.entries + Mirror(existing);
    ReversedEntries(s.entries, tx);
    forall account ensures Net(entries, OfTransactionAccount(tx, account)) == 0
      && Net(existing + Mirror(existing), OfTransactionAccount(tx, account)) == 0
    {
      MirroredPairNetsZero(existing, OfTransactionAccount(tx, account));
      NetOfFilter(entries, tx, OfTransactionAccount(tx, account));
    }
    MirroredPairNetsZero(existing, OfTransaction(tx));
    forall txs: set<nat>, account: nat, currency: string
      ensures Net(entries, OfKey(txs + {tx}, account, currency)) == Net(entries, OfKey(txs - {tx}, account, currency))
    {
      MirroredPairNetsZero(existing, OfKey({tx}, account, currency));
      NetOfFilter(entries, tx, OfKey({tx}, account, currency));
      NetAcrossOneTransaction(entries, txs, tx, account, currency);
    }
  }

  /** In a reachable ledger a reversal is refused if and only if the transaction has entries and they
      already cancel on every account: a posting that is a wash is refused although nobody reversed it. */
  lemma ReversalRefusedIff(s: State, tx: nat)
    requires Inv(s)
    ensures ReverseSpec(s, tx).Refused? <==> Filter(s.entries, tx) != [] && Cancelled(s.entries, tx)
    ensures ReverseSpec(s, tx) != Refused(DoesNotBalance)
  {
    var existing := Filter(s.entries, tx);
    if existing != [] {
      var e := existing[0];
      var k :| 0 <= k < |s.entries| && s.entries[k] == e;
      assert WellFormedEntry(s, s.entries[k]);
      forall i | 0 <= i < |s.entries|
        ensures OfTransaction(tx)(s.entries[i]) == OfTransactions({tx}, e.currency)(s.entries[i])
      {
        assert WellFormedEntry(s, s.entries[i]);
      }
      NetAgrees(s.entries, OfTransaction(tx), OfTransactions({tx}, e.currency));
      NetOfFilter(s.entries, tx, OfTransaction(tx));
      forall account
        ensures Net(existing, OfTransactionAccount(tx, account)) == Net(s.entries, OfTransactionAccount(tx, account))
      {
        NetOfFilter(s.entries, tx, OfTransactionAccount(tx, account));
      }
    }
  }

  /** The wash is real: five in and five out of one account posts, and its first reversal is refused. */
  lemma WashCannotBeReversed()
    ensures var s := State(map[1 := Account(7, Asset, Debit)], map[2 := Transaction(7, "KRW", Confirmed)], []);
      var postings := [Posting(1, Debit, 5, "KRW"), Posting(1, Credit, 5, "KRW")];
      && PostSpec(s, 2, postings) == Written(EntriesOf(2, postings))
      && ReverseSpec(s.(entries := EntriesOf(2, postings)), 2) == Refused(AlreadyReversed)
  {
    var s := State(map[1 := Account(7, Asset, Debit)], map[2 := Transaction(7, "KRW", Confirmed)], []);
    var postings := [Posting(1, Debit, 5, "KRW"), Posting(1, Credit, 5, "KRW")];
    assert postings[..1] == [postings[0]];
    var e0, e1 := Entry(2, 1, Debit, 5, "KRW"), Entry(2, 1, Credit, 5, "KRW");
    assert EntriesOf(2, postings) == [e0, e1] && [e0, e1][..1] == [e0];
    FilterAll([e0, e1], 2);
    assert FirstPostingError(s, s.transactions[2], [postings[0]]).None?;
    assert SideTotal(postings, Debit) == 5 == SideTotal(postings, Credit);
    forall account ensures Net([e0, e1], OfTransactionAccount(2, account)) == 0 {
      assert Net([e0], OfTransactionAccount(2, account)) == if account == 1 then 5 else 0;
    }
    assert Net([e0], OfTransaction(2)) == 5;
  }
}
