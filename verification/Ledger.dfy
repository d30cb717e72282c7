/** Double-entry postings, reversals and derived balances
    (apps/ledger/posting.py, apps/ledger/balances.py, apps/ledger/models.py). */
module Ledger {
  import opened Common

  datatype Side = Debit | Credit
  datatype Kind = Asset | Liability | Equity | Income | Expense
  datatype Status = Draft | Confirmed | Voided

  datatype Account = Account(owner: nat, kind: Kind, normal: Side)
  datatype Transaction = Transaction(owner: nat, currency: string, status: Status)
  datatype Entry = Entry(tx: nat, account: nat, side: Side, amount: int, currency: string)
  datatype Posting = Posting(account: nat, side: Side, amount: int, currency: string)

  datatype Error =
    | NotConfirmed | TooFewEntries | WrongCurrency | NotPositive | WrongOwner | Unbalanced | AlreadyPosted
    | DoesNotBalance | AlreadyReversed

  datatype Outcome = Written(entries: seq<Entry>) | Refused(error: Error)

  function Opposite(side: Side): Side {
    if side == Debit then Credit else Debit
  }

  function NormalOf(kind: Kind): Side {
    match kind
    case Asset | Expense => Debit
    case Liability | Equity | Income => Credit
  }

  /** How an entry moves an account with this normal balance. */
  function Sign(normal: Side, side: Side): int {
    if normal == side then 1 else -1
  }

  function DebitSigned(e: Entry): int {
    Sign(Debit, e.side) * e.amount
  }

  /** Debits minus credits over the entries a filter selects. */
  function Net(entries: seq<Entry>, selects: Entry -> bool): int {
    if entries == [] then 0 else
      var e := entries[|entries| - 1];
      Net(entries[..|entries| - 1], selects) + if selects(e) then DebitSigned(e) else 0
  }

  function OfTransaction(tx: nat): Entry -> bool { (e: Entry) => e.tx == tx }

  function OfTransactionAccount(tx: nat, account: nat): Entry -> bool {
    (e: Entry) => e.tx == tx && e.account == account
  }

  function OfTransactions(txs: set<nat>, currency: string): Entry -> bool {
    (e: Entry) => e.tx in txs && e.currency == currency
  }

  function OfKey(txs: set<nat>, account: nat, currency: string): Entry -> bool {
    (e: Entry) => e.tx in txs && e.account == account && e.currency == currency
  }

  lemma {:induction false} NetAppend(a: seq<Entry>, b: seq<Entry>, selects: Entry -> bool)
    ensures Net(a + b, selects) == Net(a, selects) + Net(b, selects)
  {
    if b == [] {
      assert a + b == a;
    } else {
      assert (a + b)[..|a| + |b| - 1] == a + b[..|b| - 1];
      NetAppend(a, b[..|b| - 1], selects);
    }
  }

  lemma {:induction false} NetOfNothing(entries: seq<Entry>, selects: Entry -> bool)
    requires forall i :: 0 <= i < |entries| ==> !selects(entries[i])
    ensures Net(entries, selects) == 0
  {
    if entries != [] {
      NetOfNothing(entries[..|entries| - 1], selects);
    }
  }

  lemma {:induction false} NetAgrees(entries: seq<Entry>, p: Entry -> bool, q: Entry -> bool)
    requires forall i :: 0 <= i < |entries| ==> p(entries[i]) == q(entries[i])
    ensures Net(entries, p) == Net(entries, q)
  {
    if entries != [] {
      NetAgrees(entries[..|entries| - 1], p, q);
    }
  }

  function Filter(entries: seq<Entry>, tx: nat): (r: seq<Entry>)
    ensures forall i :: 0 <= i < |r| ==> r[i].tx == tx
    ensures forall i :: 0 <= i < |r| ==> r[i] in entries
  {
    if entries == [] then [] else
      var e := entries[|entries| - 1];
      Filter(entries[..|entries| - 1], tx) + if e.tx == tx then [e] else []
  }

  lemma NetOne(e: Entry, selects: Entry -> bool)
    ensures Net([e], selects) == if selects(e) then DebitSigned(e) else 0
  {
    assert [e][..0] == [];
  }

  lemma {:induction false} NetOfFilter(entries: seq<Entry>, tx: nat, selects: Entry -> bool)
    requires forall i :: 0 <= i < |entries| && selects(entries[i]) ==> entries[i].tx == tx
    ensures Net(Filter(entries, tx), selects) == Net(entries, selects)
  {
    if entries != [] {
      var front, e := entries[..|entries| - 1], entries[|entries| - 1];
      NetOfFilter(front, tx, selects);
      if e.tx == tx {
        NetAppend(Filter(front, tx), [e], selects);
        NetOne(e, selects);
      } else {
        assert Filter(front, tx) + [] == Filter(front, tx);
      }
    }
  }

  lemma {:induction false} FilterEmpty(entries: seq<Entry>, tx: nat)
    ensures Filter(entries, tx) == [] <==> forall i :: 0 <= i < |entries| ==> entries[i].tx != tx
  {
    if entries != [] {
      FilterEmpty(entries[..|entries| - 1], tx);
    }
  }

  // ---- Posting ----

  datatype State = State(accounts: map<nat, Account>, transactions: map<nat, Transaction>, entries: seq<Entry>)

  function PostingError(s: State, t: Transaction, p: Posting): Option<Error>
    requires p.account in s.accounts
  {
    if p.currency != t.currency then Some(WrongCurrency)
    else if p.amount <= 0 then Some(NotPositive)
    else if s.accounts[p.account].owner != t.owner then Some(WrongOwner)
    else None
  }

  function FirstPostingError(s: State, t: Transaction, postings: seq<Posting>): Option<Error>
    requires forall i :: 0 <= i < |postings| ==> postings[i].account in s.accounts
  {
    if postings == [] then None else
      var before := FirstPostingError(s, t, postings[..|postings| - 1]);
      if before.Some? then before else PostingError(s, t, postings[|postings| - 1])
  }

  lemma {:induction false} NoPostingError(s: State, t: Transaction, postings: seq<Posting>)
    requires forall i :: 0 <= i < |postings| ==> postings[i].account in s.accounts
    ensures FirstPostingError(s, t, postings).None? <==>
      forall i :: 0 <= i < |postings| ==> PostingError(s, t, postings[i]).None?
  {
    if postings != [] {
      var n := |postings| - 1;
      NoPostingError(s, t, postings[..n]);
      assert forall i :: 0 <= i < n ==> postings[..n][i] == postings[i];
    }
  }

  function EntryOf(tx: nat, p: Posting): Entry {
    Entry(tx, p.account, p.side, p.amount, p.currency)
  }

  function EntriesOf(tx: nat, postings: seq<Posting>): seq<Entry> {
    seq(|postings|, i requires 0 <= i < |postings| => EntryOf(tx, postings[i]))
  }

  function SideTotal(postings: seq<Posting>, side: Side): int {
    if postings == [] then 0 else
      var p := postings[|postings| - 1];
      SideTotal(postings[..|postings| - 1], side) + if p.side == side then p.amount else 0
  }

  function PostSpec(s: State, tx: nat, postings: seq<Posting>): Outcome
    requires tx in s.transactions
    requires forall i :: 0 <= i < |postings| ==> postings[i].account in s.accounts
  {
    var t := s.transactions[tx];
    if t.status != Confirmed then Refused(NotConfirmed)
    else if |postings| < 2 then Refused(TooFewEntries)
    else if FirstPostingError(s, t, postings).Some? then Refused(FirstPostingError(s, t, postings).value)
    else if SideTotal(postings, Debit) != SideTotal(postings, Credit) then Refused(Unbalanced)
    else if Filter(s.entries, tx) != [] then Refused(AlreadyPosted)
    else Written(EntriesOf(tx, postings))
  }

  // ---- Reversal ----

  function Flip(e: Entry): Entry {
    e.(side := Opposite(e.side))
  }

  function Mirror(entries: seq<Entry>): seq<Entry> {
    seq(|entries|, i requires 0 <= i < |entries| => Flip(entries[i]))
  }

  /** Every account the transaction touched is back where it was. */
  ghost predicate Cancelled(entries: seq<Entry>, tx: nat) {
    forall account :: Net(entries, OfTransactionAccount(tx, account)) == 0
  }

  ghost function ReverseSpec(s: State, tx: nat): Outcome {
    var existing := Filter(s.entries, tx);
    if existing == [] then Written([])
    else if Net(existing, OfTransaction(tx)) != 0 then Refused(DoesNotBalance)
    else if Cancelled(existing, tx) then Refused(AlreadyReversed)
    else Written(Mirror(existing))
  }

  // ---- Balances ----

  datatype Balance = Balance(account: nat, currency: string, amount: int, count: nat)

  function CountedTransactions(s: State, user: nat): set<nat> {
    set tx | tx in s.transactions && s.transactions[tx].owner == user && s.transactions[tx].status == Confirmed
  }

  predicate Counts(s: State, user: nat, e: Entry) {
    && e.account in s.accounts && s.accounts[e.account].owner == user
    && e.tx in s.transactions && s.transactions[e.tx].owner == user && s.transactions[e.tx].status == Confirmed
  }

  function Movement(s: State, e: Entry): int
    requires e.account in s.accounts
  {
    Sign(s.accounts[e.account].normal, e.side) * e.amount
  }

  function Find(rows: seq<Balance>, account: nat, currency: string): (p: nat)
    ensures p <= |rows|
    ensures p < |rows| ==> rows[p].account == account && rows[p].currency == currency
    ensures forall i :: 0 <= i < p ==> rows[i].account != account || rows[i].currency != currency
  {
    if rows == [] then 0
    else if rows[0].account == account && rows[0].currency == currency then 0
    else 1 + Find(rows[1..], account, currency)
  }

  /** Adds one entry to its row, opening the row when the key is new. */
  function Add(s: State, rows: seq<Balance>, e: Entry): seq<Balance>
    requires e.account in s.accounts
  {
    var p := Find(rows, e.account, e.currency);
    if p < |rows| then rows[p := rows[p].(amount := rows[p].amount + Movement(s, e), count := rows[p].count + 1)]
    else rows + [Balance(e.account, e.currency, Movement(s, e), 1)]
  }

  /** The balance rows of the first `n` entries, in the order their keys first appear. */
  function BalancesUpTo(s: State, user: nat, n: nat): seq<Balance>
    requires n <= |s.entries|
  {
    if n == 0 then [] else
      var before := BalancesUpTo(s, user, n - 1);
      if Counts(s, user, s.entries[n - 1]) then Add(s, before, s.entries[n - 1]) else before
  }

  function Balances(s: State, user: nat): seq<Balance> {
    BalancesUpTo(s, user, |s.entries|)
  }

  function KindSum(s: State, rows: seq<Balance>, kind: Kind, currency: string): int {
    if rows == [] then 0 else
      var r := rows[|rows| - 1];
      KindSum(s, rows[..|rows| - 1], kind, currency)
      + if r.account in s.accounts && s.accounts[r.account].kind == kind && r.currency == currency then r.amount else 0
  }

  datatype Position = Position(assets: int, liabilities: int) {
    function NetMinor(): int { assets - liabilities }
  }

  function PositionIn(s: State, rows: seq<Balance>, currency: string): Position {
    Position(KindSum(s, rows, Asset, currency), KindSum(s, rows, Liability, currency))
  }

  // ---- What every reachable ledger keeps ----

  ghost predicate WellFormedAccounts(s: State) {
    forall a :: a in s.accounts ==> s.accounts[a].normal == NormalOf(s.accounts[a].kind)
  }

  ghost predicate WellFormedEntry(s: State, e: Entry) {
    && e.tx in s.transactions && e.account in s.accounts && e.amount > 0
    && e.currency == s.transactions[e.tx].currency
    && s.accounts[e.account].owner == s.transactions[e.tx].owner
  }

  /** Debits equal credits over any set of whole transactions, in every currency. */
  ghost predicate Balanced(entries: seq<Entry>) {
    forall txs: set<nat>, currency: string :: Net(entries, OfTransactions(txs, currency)) == 0
  }

  ghost predicate Inv(s: State) {
    && WellFormedAccounts(s)
    && (forall i :: 0 <= i < |s.entries| ==> WellFormedEntry(s, s.entries[i]))
    && Balanced(s.entries)
  }

  datatype Event =
    | OpenAccount(id: nat, account: Account)
    | Create(id: nat, tx: Transaction)
    | SetStatus(id: nat, status: Status)
    | Post(id: nat, postings: seq<Posting>)
    | Reverse(id: nat)

  predicate StatusChangeAllowed(before: Status, after: Status) {
    (before == Draft && after != Draft) || (before == Confirmed && after == Voided)
  }

  /** One committed step; a refused step leaves the books as they were. */
  ghost function Apply(s: State, event: Event): State {
    match event
    case OpenAccount(id, account) =>
      if id in s.accounts || account.normal != NormalOf(account.kind) then s
      else s.(accounts := s.accounts[id := account])
    case Create(id, tx) =>
      if id in s.transactions then s else s.(transactions := s.transactions[id := tx])
    case SetStatus(id, status) =>
      if id !in s.transactions || !StatusChangeAllowed(s.transactions[id].status, status) then s
      else s.(transactions := s.transactions[id := s.transactions[id].(status := status)])
    case Post(id, postings) =>
      if id !in s.transactions || exists i :: 0 <= i < |postings| && postings[i].account !in s.accounts then s
      else if PostSpec(s, id, postings).Refused? then s
      else s.(entries := s.entries + PostSpec(s, id, postings).entries)
    case Reverse(id) =>
      if id !in s.transactions || ReverseSpec(s, id).Refused? then s
      else s.(entries := s.entries + ReverseSpec(s, id).entries)
  }

  ghost function Run(events: seq<Event>): State {
    if events == [] then State(map[], map[], []) else Apply(Run(events[..|events| - 1]), events[|events| - 1])
  }

  lemma {:induction false} PostingsNet(tx: nat, postings: seq<Posting>, txs: set<nat>, currency: string)
    requires forall i :: 0 <= i < |postings| ==> postings[i].currency == currency
    requires tx in txs
    ensures Net(EntriesOf(tx, postings), OfTransactions(txs, currency))
      == SideTotal(postings, Debit) - SideTotal(postings, Credit)
  {
    if postings != [] {
      var n := |postings| - 1;
      PostingsNet(tx, postings[..n], txs, currency);
      assert EntriesOf(tx, postings)[..n] == EntriesOf(tx, postings[..n]);
    }
  }

  lemma PostKeepsBalance(s: State, tx: nat, postings: seq<Posting>)
    requires Inv(s) && tx in s.transactions
    requires forall i :: 0 <= i < |postings| ==> postings[i].account in s.accounts
    requires PostSpec(s, tx, postings).Written?
    ensures Inv(s.(entries := s.entries + EntriesOf(tx, postings)))
  {
    var t, batch := s.transactions[tx], EntriesOf(tx, postings);
    NoPostingError(s, t, postings);
    forall i | 0 <= i < |batch| ensures WellFormedEntry(s, batch[i]) {
      assert PostingError(s, t, postings[i]).None?;
    }
    forall txs: set<nat>, currency: string
      ensures Net(s.entries + batch, OfTransactions(txs, currency)) == 0
    {
      NetAppend(s.entries, batch, OfTransactions(txs, currency));
      assert forall i :: 0 <= i < |postings| ==> PostingError(s, t, postings[i]).None?;
      if tx in txs && currency == t.currency {
        PostingsNet(tx, postings, txs, currency);
      } else {
        NetOfNothing(batch, OfTransactions(txs, currency));
      }
    }
  }

  /** A filter that does not look at the side sees a mirrored batch with the opposite net. */
  lemma {:induction false} MirrorNegates(entries: seq<Entry>, selects: Entry -> bool)
    requires forall i :: 0 <= i < |entries| ==> selects(Flip(entries[i])) == selects(entries[i])
    ensures Net(Mirror(entries), selects) == -Net(entries, selects)
  {
    if entries != [] {
      var n := |entries| - 1;
      MirrorNegates(entries[..n], selects);
      assert Mirror(entries)[..n] == Mirror(entries[..n]);
    }
  }

  lemma ReverseKeepsBalance(s: State, tx: nat)
    requires Inv(s)
    ensures Inv(s.(entries := s.entries + Mirror(Filter(s.entries, tx))))
  {
    var existing := Filter(s.entries, tx);
    var batch := Mirror(existing);
    forall i | 0 <= i < |batch| ensures WellFormedEntry(s, batch[i]) {
      assert existing[i] in s.entries;
      var k :| 0 <= k < |s.entries| && s.entries[k] == existing[i];
    }
    forall txs: set<nat>, currency: string
      ensures Net(s.entries + batch, OfTransactions(txs, currency)) == 0
    {
      NetAppend(s.entries, batch, OfTransactions(txs, currency));
      if tx in txs {
        MirrorNegates(existing, OfTransactions(txs, currency));
        NetAgrees(existing, OfTransactions(txs, currency), OfTransactions({tx}, currency));
        NetOfFilter(s.entries, tx, OfTransactions({tx}, currency));
      } else {
        NetOfNothing(batch, OfTransactions(txs, currency));
      }
    }
  }

  lemma OtherKeepsInv(s: State, event: Event)
    requires Inv(s) && !event.Post? && !event.Reverse?
    ensures Inv(Apply(s, event))
  {
    var s' := Apply(s, event);
    forall i | 0 <= i < |s'.entries| ensures WellFormedEntry(s', s'.entries[i]) {
      assert WellFormedEntry(s, s.entries[i]);
    }
  }

  lemma ApplyKeepsInv(s: State, event: Event)
    requires Inv(s)
    ensures Inv(Apply(s, event))
  {
    var s' := Apply(s, event);
    match event {
      case Post(id, postings) =>
        if s' != s {
          PostKeepsBalance(s, id, postings);
        }
      case Reverse(id) =>
        ReverseKeepsBalance(s, id);
        if ReverseSpec(s, id) == Written([]) {
          assert s.entries + [] == s.entries;
        }
      case _ => OtherKeepsInv(s, event);
    }
  }

  /** After any run of postings, reversals and status changes, the books are well formed and balanced. */
  lemma {:induction false} ReachableInv(events: seq<Event>)
    ensures Inv(Run(events))
  {
    if events == [] {
      forall txs: set<nat>, currency: string ensures Net([], OfTransactions(txs, currency)) == 0 {}
    } else {
      ReachableInv(events[..|events| - 1]);
      ApplyKeepsInv(Run(events[..|events| - 1]), events[|events| - 1]);
    }
  }
}
