/** The stored books: entries are appended, balances are accumulated in dictionaries
    (apps/ledger/posting.py, apps/ledger/balances.py). */
module LedgerBooks {
  import opened Common
  import opened Ledger
  import opened LedgerEffects
  import opened Sorting
  import opened Text

  class Books {
    var accounts: map<nat, Account>
    var transactions: map<nat, Transaction>
    var entries: seq<Entry>

    constructor ()
      ensures Model() == State(map[], map[], [])
    {
      accounts, transactions, entries := map[], map[], [];
    }

    function Model(): State
      reads this
    {
      State(accounts, transactions, entries)
    }

    /** Writes nothing unless every check passes, in the order the checks are made. */
    method PostBalancedTransaction(tx: nat, postings: seq<Posting>) returns (outcome: Outcome)
      requires tx in transactions
      requires forall i :: 0 <= i < |postings| ==> postings[i].account in accounts
      modifies this`entries
      ensures outcome == PostSpec(old(Model()), tx, postings)
      ensures outcome.Written? <==> Postable(old(Model()), tx, postings)
      ensures outcome.Written? ==> EntersAll(tx, postings, outcome.entries)
      ensures entries == old(entries) + if outcome.Written? then outcome.entries else []
    {
      PostedIff(Model(), tx, postings);
      var t := transactions[tx];
      if t.status != Confirmed {
        return Refused(NotConfirmed);
      }
      if |postings| < 2 {
        return Refused(TooFewEntries);
      }
      var debits, credits := 0, 0;
      for i := 0 to |postings|
        invariant FirstPostingError(Model(), t, postings[..i]).None?
        invariant debits == SideTotal(postings[..i], Debit) && credits == SideTotal(postings[..i], Credit)
        invariant Model() == old(Model())
      {
        assert postings[..i + 1][..i] == postings[..i];
        var p := postings[i];
        var error := PostingError(Model(), t, p);
        if error.Some? {
          FirstErrorStays(Model(), t, postings, i);
          return Refused(error.value);
        }
        if p.side == Debit {
          debits := debits + p.amount;
        } else {
          credits := credits + p.amount;
        }
      }
      assert postings[..|postings|] == postings;
      if debits != credits {
        return Refused(Unbalanced);
      }
      if Filter(entries, tx) != [] {
        return Refused(AlreadyPosted);
      }
      var pending: seq<Entry> := [];
      for i := 0 to |postings|
        invariant |pending| == i && Model() == old(Model())
        invariant forall k :: 0 <= k < i ==> pending[k] == EntryOf(tx, postings[k])
      {
        pending := pending + [EntryOf(tx, postings[i])];
      }
      assert pending == EntriesOf(tx, postings);
      entries := entries + pending;
      return Written(pending);
    }

    method TransactionNetMinor(tx: nat) returns (total: int)
      ensures total == Net(Filter(entries, tx), OfTransaction(tx))
    {
      var existing := Filter(entries, tx);
      total := 0;
      for i := 0 to |existing|
        invariant total == Net(existing[..i], OfTransaction(tx))
      {
        assert existing[..i + 1][..i] == existing[..i];
        if existing[i].side == Debit {
          total := total + existing[i].amount;
        } else {
          total := total - existing[i].amount;
        }
      }
      assert existing[..|existing|] == existing;
    }

    /** Sums each account in a dictionary and asks whether every sum is zero. */
    static method IsAlreadyReversed(existing: seq<Entry>, tx: nat) returns (reversed: bool)
      requires forall i :: 0 <= i < |existing| ==> existing[i].tx == tx
      ensures reversed <==> Cancelled(existing, tx)
    {
      var perAccount: map<nat, int> := map[];
      for i := 0 to |existing|
        invariant forall a: nat ::
          Net(existing[..i], OfTransactionAccount(tx, a)) == if a in perAccount then perAccount[a] else 0
      {
        assert existing[..i + 1][..i] == existing[..i];
        var e := existing[i];
        var signed := if e.side == Debit then e.amount else -e.amount;
        perAccount := perAccount[e.account := (if e.account in perAccount then perAccount[e.account] else 0) + signed];
      }
      assert existing[..|existing|] == existing;
      reversed := forall a :: a in perAccount ==> perAccount[a] == 0;
      if !reversed {
        var a :| a in perAccount && perAccount[a] != 0;
        assert Net(existing, OfTransactionAccount(tx, a)) != 0;
      }
    }

    /** Appends the mirror of every entry, once. */
    method ReverseTransactionPostings(tx: nat) returns (outcome: Outcome)
      modifies this`entries
      ensures outcome == ReverseSpec(old(Model()), tx)
      ensures entries == old(entries) + if outcome.Written? then outcome.entries else []
    {
      var existing := Filter(entries, tx);
      if existing == [] {
        return Written([]);
      }
      var net := TransactionNetMinor(tx);
      if net != 0 {
        return Refused(DoesNotBalance);
      }
      var reversed := IsAlreadyReversed(existing, tx);
      if reversed {
        return Refused(AlreadyReversed);
      }
      var pending: seq<Entry> := [];
      for i := 0 to |existing|
        invariant |pending| == i && Model() == old(Model())
        invariant forall k :: 0 <= k < i ==> pending[k] == Flip(existing[k])
      {
        pending := pending + [Flip(existing[i])];
      }
      assert pending == Mirror(existing);
      entries := entries + pending;
      return Written(pending);
    }

    /** Totals and counts accumulate per (account, currency); the rows come out sorted by chart code and currency,
        those with the same code and currency in the order they were first seen. */
    method AccountBalances(user: nat, code: nat -> string) returns (rows: seq<Balance>)
      ensures rows == Sort(Balances(Model(), user), ChartOrder(code))
      ensures multiset(rows) == multiset(Balances(Model(), user)) && Sorted(rows, ChartOrder(code))
    {
      rows := Tabulate(user);
      SortPermutes(rows, ChartOrder(code));
      ChartOrderIsTotal(code);
      SortSorted(rows, ChartOrder(code));
      rows := Sort(rows, ChartOrder(code));
    }

    /** The dictionary loop. */
    method Tabulate(user: nat) returns (rows: seq<Balance>)
      ensures rows == Balances(Model(), user)
    {
      var s := Model();
      var keys: seq<Key> := [];
      var totals: map<Key, int>, counts: map<Key, nat> := map[], map[];
      ghost var shown: seq<Balance> := [];
      for i := 0 to |s.entries|
        invariant shown == BalancesUpTo(s, user, i)
        invariant Tabulated(shown, keys, totals, counts)
      {
        var e := s.entries[i];
        if Counts(s, user, e) {
          keys, totals, counts := Accumulate(s, shown, keys, totals, counts, e);
          shown := Add(s, shown, e);
        }
      }
      rows := RowsOf(keys, totals, counts, shown);
    }

    static method Accumulate(s: State, ghost shown: seq<Balance>, keys: seq<Key>, totals: map<Key, int>,
                             counts: map<Key, nat>, e: Entry)
      returns (keys': seq<Key>, totals': map<Key, int>, counts': map<Key, nat>)
      requires e.account in s.accounts && Tabulated(shown, keys, totals, counts)
      ensures Tabulated(Add(s, shown, e), keys', totals', counts')
    {
      var key := Key(e.account, e.currency);
      if key in totals {
        TabulateKnown(s, shown, keys, totals, counts, e);
        keys' := keys;
        totals', counts' := totals[key := totals[key] + Movement(s, e)], counts[key := counts[key] + 1];
      } else {
        TabulateNew(s, shown, keys, totals, counts, e);
        keys' := keys + [key];
        totals', counts' := totals[key := Movement(s, e)], counts[key := 1];
      }
    }

    static method RowsOf(keys: seq<Key>, totals: map<Key, int>, counts: map<Key, nat>, ghost shown: seq<Balance>)
      returns (rows: seq<Balance>)
      requires Tabulated(shown, keys, totals, counts)
      ensures rows == shown
    {
      rows := [];
      for p := 0 to |keys|
        invariant rows == shown[..p]
      {
        assert keys[p] == KeyOf(shown[p]);
        rows := rows + [Balance(keys[p].account, keys[p].currency, totals[keys[p]], counts[keys[p]])];
      }
    }

    /** Assets and liabilities per currency, summed into two dictionaries. */
    method Positions(user: nat, code: nat -> string) returns (positions: map<string, Position>)
      ensures forall currency ::
        currency in positions ==> positions[currency] == PositionIn(Model(), Balances(Model(), user), currency)
      ensures forall currency :: currency !in positions ==>
        PositionIn(Model(), Balances(Model(), user), currency) == Position(0, 0)
    {
      var rows := AccountBalances(user, code);
      forall kind, c ensures KindSum(Model(), rows, kind, c) == KindSum(Model(), Balances(Model(), user), kind, c) {
        KindSumSort(Model(), Balances(Model(), user), code, kind, c);
      }
      var assets: map<string, int>, liabilities: map<string, int> := map[], map[];
      for i := 0 to |rows|
        invariant forall c: string :: KindSum(Model(), rows[..i], Asset, c) == Total(assets, c)
        invariant forall c: string :: KindSum(Model(), rows[..i], Liability, c) == Total(liabilities, c)
      {
        assert rows[..i + 1][..i] == rows[..i];
        var r := rows[i];
        if r.account in accounts && accounts[r.account].kind == Asset {
          assets := assets[r.currency := Total(assets, r.currency) + r.amount];
        } else if r.account in accounts && accounts[r.account].kind == Liability {
          liabilities := liabilities[r.currency := Total(liabilities, r.currency) + r.amount];
        }
      }
      assert rows[..|rows|] == rows;
      positions := map c | c in assets.Keys + liabilities.Keys :: Position(Total(assets, c), Total(liabilities, c));
    }
  }

  /** A dictionary whose missing values are zero. */
  function Total(totals: map<string, int>, c: string): int { if c in totals then totals[c] else 0 }

  // ---- The order of the rows ----

  /** By chart code, then by currency. */
  function ChartOrder(code: nat -> string): (Balance, Balance) -> bool {
    (a: Balance, b: Balance) =>
      if code(a.account) == code(b.account) then TextAtMost(a.currency, b.currency)
      else TextAtMost(code(a.account), code(b.account))
  }

  lemma ChartOrderIsTotal(code: nat -> string)
    ensures TotalPreorder(ChartOrder(code))
  {
    var leq := ChartOrder(code);
    forall x: Balance, y: Balance ensures leq(x, y) || leq(y, x) {
      TextOrderTotal(x.currency, y.currency);
      TextOrderTotal(code(x.account), code(y.account));
    }
    forall x: Balance, y: Balance, z: Balance | leq(x, y) && leq(y, z) ensures leq(x, z) {
      ChartOrderTransitive(code, x, y, z);
    }
  }

  lemma ChartOrderTransitive(code: nat -> string, x: Balance, y: Balance, z: Balance)
    requires ChartOrder(code)(x, y) && ChartOrder(code)(y, z)
    ensures ChartOrder(code)(x, z)
  {
    var a, b, c := code(x.account), code(y.account), code(z.account);
    if a == b == c {
      TextOrderTransitive(x.currency, y.currency, z.currency);
    } else if a != b && b != c {
      TextOrderTransitive(a, b, c);
      if a == c {
        TextAntisymmetric(a, b);
      }
    }
  }

  lemma {:induction false} TextAntisymmetric(a: string, b: string)
    requires TextAtMost(a, b) && TextAtMost(b, a)
    ensures a == b
  {
    if a != "" {
      TextAntisymmetric(a[1..], b[1..]);
      assert a == [a[0]] + a[1..] && b == [b[0]] + b[1..];
    }
  }

  lemma {:induction false} KindSumSplit(s: State, a: seq<Balance>, b: seq<Balance>, kind: Kind, currency: string)
    ensures KindSum(s, a + b, kind, currency) == KindSum(s, a, kind, currency) + KindSum(s, b, kind, currency)
  {
    if b == [] {
      assert a + b == a;
    } else {
      KindSumSplit(s, a, b[..|b| - 1], kind, currency);
      assert (a + b)[..|a + b| - 1] == a + b[..|b| - 1];
    }
  }

  lemma {:induction false} KindSumInsert(s: State, r: Balance, rows: seq<Balance>, code: nat -> string, kind: Kind,
                                         currency: string)
    ensures KindSum(s, Insert(r, rows, ChartOrder(code)), kind, currency)
         == KindSum(s, [r], kind, currency) + KindSum(s, rows, kind, currency)
  {
    if rows == [] || ChartOrder(code)(r, rows[0]) {
      KindSumSplit(s, [r], rows, kind, currency);
    } else {
      KindSumInsert(s, r, rows[1..], code, kind, currency);
      KindSumSplit(s, [rows[0]], Insert(r, rows[1..], ChartOrder(code)), kind, currency);
      KindSumSplit(s, [rows[0]], rows[1..], kind, currency);
      assert rows == [rows[0]] + rows[1..];
    }
  }

  /** Sums over the rows do not depend on their order. */
  lemma {:induction false} KindSumSort(s: State, rows: seq<Balance>, code: nat -> string, kind: Kind, currency: string)
    ensures KindSum(s, Sort(rows, ChartOrder(code)), kind, currency) == KindSum(s, rows, kind, currency)
  {
    if rows != [] {
      KindSumSort(s, rows[1..], code, kind, currency);
      KindSumInsert(s, rows[0], Sort(rows[1..], ChartOrder(code)), code, kind, currency);
      KindSumSplit(s, [rows[0]], rows[1..], kind, currency);
      assert rows == [rows[0]] + rows[1..];
    }
  }

  lemma {:induction false} FirstErrorStays(s: State, t: Transaction, postings: seq<Posting>, i: nat)
    requires i < |postings| && forall k :: 0 <= k < |postings| ==> postings[k].account in s.accounts
    requires FirstPostingError(s, t, postings[..i]).None? && PostingError(s, t, postings[i]).Some?
    ensures FirstPostingError(s, t, postings) == PostingError(s, t, postings[i])
  {
    var n := |postings| - 1;
    if i < n {
      assert postings[..n][..i] == postings[..i];
      FirstErrorStays(s, t, postings[..n], i);
    } else {
      assert postings[..n] == postings[..i];
    }
  }

  datatype Key = Key(account: nat, currency: string)

  function KeyOf(r: Balance): Key {
    Key(r.account, r.currency)
  }

  /** The dictionaries hold the rows: one key per row, in order, with its total and count. */
  ghost predicate Tabulated(rows: seq<Balance>, keys: seq<Key>, totals: map<Key, int>, counts: map<Key, nat>) {
    && |keys| == |rows| && totals.Keys == counts.Keys
    && (forall p :: 0 <= p < |rows| ==>
          && keys[p] == KeyOf(rows[p]) && keys[p] in totals
          && totals[keys[p]] == rows[p].amount && counts[keys[p]] == rows[p].count)
    && (forall k :: k in totals ==> k in keys)
    && (forall p, q :: 0 <= p < q < |keys| ==> keys[p] != keys[q])
  }

  lemma FindInTable(rows: seq<Balance>, keys: seq<Key>, totals: map<Key, int>, counts: map<Key, nat>,
                    account: nat, currency: string)
    requires Tabulated(rows, keys, totals, counts)
    ensures var p := Find(rows, account, currency);
      && (Key(account, currency) in totals <==> p < |rows|)
      && (p < |rows| ==> keys[p] == Key(account, currency))
  {
    var p := Find(rows, account, currency);
    if Key(account, currency) in totals {
      var q :| 0 <= q < |keys| && keys[q] == Key(account, currency);
      assert KeyOf(rows[q]) == keys[q];
    }
    if p < |rows| {
      assert keys[p] == KeyOf(rows[p]);
    }
  }

  lemma TabulateKnown(s: State, rows: seq<Balance>, keys: seq<Key>, totals: map<Key, int>, counts: map<Key, nat>,
                      e: Entry)
    requires e.account in s.accounts && Tabulated(rows, keys, totals, counts) && Key(e.account, e.currency) in totals
    ensures var key := Key(e.account, e.currency);
      Tabulated(Add(s, rows, e), keys, totals[key := totals[key] + Movement(s, e)], counts[key := counts[key] + 1])
  {
    FindInTable(rows, keys, totals, counts, e.account, e.currency);
    var p := Find(rows, e.account, e.currency);
    var r := rows[p].(amount := rows[p].amount + Movement(s, e), count := rows[p].count + 1);
    RowReplaced(rows, keys, totals, counts, p, r);
  }

  lemma RowReplaced(rows: seq<Balance>, keys: seq<Key>, totals: map<Key, int>, counts: map<Key, nat>, p: nat,
                    r: Balance)
    requires Tabulated(rows, keys, totals, counts) && p < |rows| && KeyOf(r) == keys[p]
    ensures Tabulated(rows[p := r], keys, totals[keys[p] := r.amount], counts[keys[p] := r.count])
  {
    forall q | 0 <= q < |rows| && q != p ensures keys[q] != keys[p] {
      assert q < p || p < q;
    }
  }

  lemma TabulateNew(s: State, rows: seq<Balance>, keys: seq<Key>, totals: map<Key, int>, counts: map<Key, nat>,
                    e: Entry)
    requires e.account in s.accounts && Tabulated(rows, keys, totals, counts) && Key(e.account, e.currency) !in totals
    ensures var key := Key(e.account, e.currency);
      Tabulated(Add(s, rows, e), keys + [key], totals[key := Movement(s, e)], counts[key := 1])
  {
    FindInTable(rows, keys, totals, counts, e.account, e.currency);
    RowAppended(rows, keys, totals, counts, Balance(e.account, e.currency, Movement(s, e), 1));
  }

  lemma RowAppended(rows: seq<Balance>, keys: seq<Key>, totals: map<Key, int>, counts: map<Key, nat>, r: Balance)
    requires Tabulated(rows, keys, totals, counts) && KeyOf(r) !in totals
    ensures Tabulated(rows + [r], keys + [KeyOf(r)], totals[KeyOf(r) := r.amount], counts[KeyOf(r) := r.count])
  {
    var key := KeyOf(r);
    assert (keys + [key])[|keys|] == key;
    forall k | k in totals[key := r.amount] ensures k in keys + [key] {
      assert k != key ==> k in totals;
    }
  }
}
