/** Opening balances as ledger adjustments (apps/financial_accounts/opening_balances.py). */
module OpeningBalances {
  import opened Common
  import opened Ledger
  import opened LedgerBooks
  import Values

  type Money = Values.Money

  /** One asset or liability account, its ledger account and the equity account it opens against. */
  datatype Setup = Setup(user: nat, currency: string, account: nat, kind: Kind, equity: nat) {
    predicate Sound() {
      account != equity && (kind == Asset || kind == Liability)
    }
  }

  /** The books, which transactions are this account's opening balances, and the recorded column. */
  datatype OpeningState = OpeningState(books: State, opening: set<nat>, stored: Option<Money>, nextTx: nat)

  datatype Result = Nothing | Posted(signed: int) | CurrencyMismatch | AlreadyOpened | ReasonRequired

  function OpeningOn(opening: set<nat>, account: nat): Entry -> bool {
    (e: Entry) => e.tx in opening && e.account == account
  }

  /** The figure read back from the ledger, in the account's own direction. */
  function PostedMinor(c: Setup, o: OpeningState): int {
    if c.account !in o.books.accounts then 0
    else Sign(Debit, NormalOf(c.kind)) * Net(o.books.entries, OpeningOn(o.opening, c.account))
  }

  function Ensure(accounts: map<nat, Account>, id: nat, user: nat, kind: Kind): map<nat, Account> {
    if id in accounts then accounts else accounts[id := Account(user, kind, NormalOf(kind))]
  }

  function PairPostings(c: Setup, signed: int): seq<Posting> {
    var increase := NormalOf(c.kind);
    var side := if signed > 0 then increase else Opposite(increase);
    var amount := if signed < 0 then -signed else signed;
    [Posting(c.account, side, amount, c.currency), Posting(c.equity, Opposite(side), amount, c.currency)]
  }

  /** The books with both accounts present and the new confirmed transaction, not yet posted. */
  function Prepared(c: Setup, o: OpeningState): State {
    var accounts := Ensure(Ensure(o.books.accounts, c.account, c.user, c.kind), c.equity, c.user, Equity);
    State(accounts, o.books.transactions[o.nextTx := Transaction(c.user, c.currency, Confirmed)], o.books.entries)
  }

  function PostPair(c: Setup, o: OpeningState, signed: int): OpeningState {
    var books := Prepared(c, o);
    OpeningState(books.(entries := books.entries + EntriesOf(o.nextTx, PairPostings(c, signed))),
                 o.opening + {o.nextTx}, o.stored, o.nextTx + 1)
  }

  function PostOpeningSpec(c: Setup, o: OpeningState): (OpeningState, Result) {
    if o.stored.None? || o.stored.value.minor == 0 then (o, Nothing)
    else if o.stored.value.currency != c.currency then (o, CurrencyMismatch)
    else if PostedMinor(c, o) != 0 then (o, AlreadyOpened)
    else (PostPair(c, o, o.stored.value.minor), Posted(o.stored.value.minor))
  }

  /** Nothing but white space. */
  predicate Blank(text: string) { forall i :: 0 <= i < |text| ==> IsSpace(text[i]) }

  /** Python's white space. */
  predicate IsSpace(c: char) {
    || '\t' <= c <= '\r' || '\U{1C}' <= c <= ' ' || '\U{2000}' <= c <= '\U{200A}'
    || c in "\U{85}\U{A0}\U{1680}\U{2028}\U{2029}\U{202F}\U{205F}\U{3000}"
  }

  function CorrectSpec(c: Setup, o: OpeningState, corrected: Money, reason: string): (OpeningState, Result) {
    if Blank(reason) then (o, ReasonRequired)
    else if corrected.currency != c.currency then (o, CurrencyMismatch)
    else
      var o' := o.(stored := Some(corrected));
      var difference := corrected.minor - PostedMinor(c, o);
      if difference == 0 then (o', Nothing) else (PostPair(c, o', difference), Posted(difference))
  }

  // ---- What every run keeps ----

  ghost predicate OpeningInv(c: Setup, o: OpeningState) {
    && c.Sound() && Inv(o.books)
    && (forall t :: t in o.books.transactions ==> t < o.nextTx)
    && o.opening <= o.books.transactions.Keys
    && (forall t :: t in o.opening ==> o.books.transactions[t].owner == c.user)
    && (c.account in o.books.accounts ==> o.books.accounts[c.account] == Account(c.user, c.kind, NormalOf(c.kind)))
    && (c.equity in o.books.accounts ==> o.books.accounts[c.equity] == Account(c.user, Equity, NormalOf(Equity)))
  }

  /** What the account and its equity counterpart say about each other. */
  ghost predicate EquityMirrors(c: Setup, o: OpeningState) {
    Net(o.books.entries, OpeningOn(o.opening, c.account)) + Net(o.books.entries, OpeningOn(o.opening, c.equity)) == 0
  }

  lemma PreparedKeepsInv(c: Setup, o: OpeningState)
    requires OpeningInv(c, o)
    ensures Inv(Prepared(c, o)) && Filter(o.books.entries, o.nextTx) == []
  {
    var s := Prepared(c, o);
    forall i | 0 <= i < |s.entries| ensures WellFormedEntry(s, s.entries[i]) && s.entries[i].tx < o.nextTx {
      assert WellFormedEntry(o.books, o.books.entries[i]);
    }
    FilterEmpty(o.books.entries, o.nextTx);
  }

  /** The pair always passes the balanced-posting checks. */
  lemma PairIsAccepted(c: Setup, o: OpeningState, signed: int)
    requires OpeningInv(c, o) && signed != 0
    ensures c.account in Prepared(c, o).accounts && c.equity in Prepared(c, o).accounts
    ensures forall i :: 0 <= i < |PairPostings(c, signed)| ==>
      PairPostings(c, signed)[i].account in Prepared(c, o).accounts
    ensures PostSpec(Prepared(c, o), o.nextTx, PairPostings(c, signed))
      == Written(EntriesOf(o.nextTx, PairPostings(c, signed)))
  {
    var s, postings := Prepared(c, o), PairPostings(c, signed);
    PreparedKeepsInv(c, o);
    var t := s.transactions[o.nextTx];
    NoPostingError(s, t, postings);
    assert PostingError(s, t, postings[0]).None? && PostingError(s, t, postings[1]).None?;
    PairTotals(postings[0], postings[1]);
    assert postings == [postings[0], postings[1]];
  }

  function Share(p: Posting, side: Side): int {
    if p.side == side then p.amount else 0
  }

  lemma PairTotals(p: Posting, q: Posting)
    ensures forall side :: SideTotal([p, q], side) == Share(p, side) + Share(q, side)
  {
    assert [p, q][..1] == [p] && [p][..0] == [];
    forall side ensures SideTotal([p], side) == Share(p, side) {}
  }

  lemma PairNet(c: Setup, o: OpeningState, signed: int)
    requires OpeningInv(c, o) && signed != 0
    ensures Net(PostPair(c, o, signed).books.entries, OpeningOn(o.opening + {o.nextTx}, c.account))
      == Net(o.books.entries, OpeningOn(o.opening, c.account)) + Sign(Debit, NormalOf(c.kind)) * signed
    ensures Net(PostPair(c, o, signed).books.entries, OpeningOn(o.opening + {o.nextTx}, c.equity))
      == Net(o.books.entries, OpeningOn(o.opening, c.equity)) - Sign(Debit, NormalOf(c.kind)) * signed
  {
    var postings := PairPostings(c, signed);
    var pair := EntriesOf(o.nextTx, postings);
    assert pair[..1] == [EntryOf(o.nextTx, postings[0])] && pair[..1][..0] == [];
    forall a | a == c.account || a == c.equity
      ensures Net(o.books.entries + pair, OpeningOn(o.opening + {o.nextTx}, a))
        == Net(o.books.entries, OpeningOn(o.opening, a)) + Net(pair, OpeningOn(o.opening + {o.nextTx}, a))
    {
      NetAppend(o.books.entries, pair, OpeningOn(o.opening + {o.nextTx}, a));
      forall i | 0 <= i < |o.books.entries|
        ensures OpeningOn(o.opening + {o.nextTx}, a)(o.books.entries[i]) == OpeningOn(o.opening, a)(o.books.entries[i])
      {
        assert WellFormedEntry(o.books, o.books.entries[i]);
      }
      NetAgrees(o.books.entries, OpeningOn(o.opening + {o.nextTx}, a), OpeningOn(o.opening, a));
    }
    assert Net(pair[..1], OpeningOn(o.opening + {o.nextTx}, c.account)) == DebitSigned(pair[0]);
    assert Net(pair[..1], OpeningOn(o.opening + {o.nextTx}, c.equity)) == 0;
  }

  lemma PostPairKeeps(c: Setup, o: OpeningState, signed: int)
    requires OpeningInv(c, o) && EquityMirrors(c, o) && signed != 0
    ensures OpeningInv(c, PostPair(c, o, signed)) && EquityMirrors(c, PostPair(c, o, signed))
    ensures PostedMinor(c, PostPair(c, o, signed)) == PostedMinor(c, o) + signed
  {
    PreparedKeepsInv(c, o);
    PairIsAccepted(c, o, signed);
    PostKeepsBalance(Prepared(c, o), o.nextTx, PairPostings(c, signed));
    PairNet(c, o, signed);
    var normal := Sign(Debit, NormalOf(c.kind));
    assert normal * (normal * signed) == signed;
    if c.account !in o.books.accounts {
      AbsentAccountIsFlat(c, o);
    }
  }

  lemma AbsentAccountIsFlat(c: Setup, o: OpeningState)
    requires OpeningInv(c, o) && c.account !in o.books.accounts
    ensures Net(o.books.entries, OpeningOn(o.opening, c.account)) == 0
  {
    forall i | 0 <= i < |o.books.entries| ensures o.books.entries[i].account != c.account {
      assert WellFormedEntry(o.books, o.books.entries[i]);
    }
    NetOfNothing(o.books.entries, OpeningOn(o.opening, c.account));
  }

  datatype Event =
    | PostOpening
    | Correct(corrected: Money, reason: string)
    | Record(stored: Option<Money>)
    | Other(event: Ledger.Event)

  /** Anything else the ledger does that is not about these opening transactions or these two accounts. */
  predicate Unrelated(c: Setup, o: OpeningState, event: Ledger.Event) {
    match event
    case OpenAccount(id, _) => id != c.account && id != c.equity
    case Create(id, _) => id !in o.opening
    case SetStatus(id, _) => id !in o.opening
    case Post(id, _) => id !in o.opening
    case Reverse(id) => id !in o.opening
  }

  ghost function Step(c: Setup, o: OpeningState, event: Event): OpeningState {
    match event
    case PostOpening => PostOpeningSpec(c, o).0
    case Correct(corrected, reason) => CorrectSpec(c, o, corrected, reason).0
    case Record(stored) => o.(stored := stored)
    case Other(e) =>
      if !Unrelated(c, o, e) then o
      else
        var next := if e.Create? && e.id >= o.nextTx then e.id + 1 else o.nextTx;
        o.(books := Apply(o.books, e), nextTx := next)
  }

  /** The figure most recently posted or corrected. */
  ghost function Figure(c: Setup, o: OpeningState, figure: int, event: Event): int {
    match event
    case PostOpening => if PostOpeningSpec(c, o).1.Posted? then o.stored.value.minor else figure
    case Correct(corrected, reason) =>
      if CorrectSpec(c, o, corrected, reason).1 in {ReasonRequired, CurrencyMismatch} then figure else corrected.minor
    case _ => figure
  }

  ghost function RunFrom(c: Setup, o: OpeningState, figure: int, events: seq<Event>): (OpeningState, int) {
    if events == [] then (o, figure) else
      var before := RunFrom(c, o, figure, events[..|events| - 1]);
      var e := events[|events| - 1];
      (Step(c, before.0, e), Figure(c, before.0, before.1, e))
  }

  lemma OtherAppends(o: OpeningState, event: Ledger.Event) returns (batch: seq<Entry>)
    ensures Apply(o.books, event).entries == o.books.entries + batch
    ensures (event.Post? || event.Reverse?) ==> forall i :: 0 <= i < |batch| ==> batch[i].tx == event.id
    ensures !(event.Post? || event.Reverse?) ==> batch == []
  {
    match event {
      case Post(id, postings) =>
        batch := Apply(o.books, event).entries[|o.books.entries|..];
      case Reverse(id) =>
        batch := Apply(o.books, event).entries[|o.books.entries|..];
      case _ =>
        batch := [];
    }
  }

  lemma OtherKeeps(c: Setup, o: OpeningState, event: Ledger.Event)
    requires OpeningInv(c, o) && EquityMirrors(c, o) && Unrelated(c, o, event)
    ensures var o' := Step(c, o, Other(event));
      OpeningInv(c, o') && EquityMirrors(c, o') && PostedMinor(c, o') == PostedMinor(c, o)
      && o.books.entries <= o'.books.entries
  {
    var batch := OtherAppends(o, event);
    ApplyKeepsInv(o.books, event);
    UntouchedNet(o, batch, c.account);
    UntouchedNet(o, batch, c.equity);
  }

  lemma UntouchedNet(o: OpeningState, batch: seq<Entry>, a: nat)
    requires forall i :: 0 <= i < |batch| ==> batch[i].tx !in o.opening
    ensures Net(o.books.entries + batch, OpeningOn(o.opening, a)) == Net(o.books.entries, OpeningOn(o.opening, a))
  {
    NetAppend(o.books.entries, batch, OpeningOn(o.opening, a));
    NetOfNothing(batch, OpeningOn(o.opening, a));
  }

  ghost predicate KeepsStep(c: Setup, o: OpeningState, next: OpeningState, figure: int) {
    && OpeningInv(c, next) && EquityMirrors(c, next) && PostedMinor(c, next) == figure
    && o.books.entries <= next.books.entries
  }

  lemma PostKeeps(c: Setup, o: OpeningState)
    requires OpeningInv(c, o) && EquityMirrors(c, o)
    ensures KeepsStep(c, o, Step(c, o, PostOpening), Figure(c, o, PostedMinor(c, o), PostOpening))
  {
    if PostOpeningSpec(c, o).1.Posted? {
      PostPairKeeps(c, o, o.stored.value.minor);
    }
  }

  lemma RecordingKeeps(c: Setup, o: OpeningState, stored: Option<Money>)
    requires OpeningInv(c, o) && EquityMirrors(c, o)
    ensures var o' := o.(stored := stored);
      OpeningInv(c, o') && EquityMirrors(c, o') && PostedMinor(c, o') == PostedMinor(c, o)
  {}

  lemma CorrectKeeps(c: Setup, o: OpeningState, corrected: Money, reason: string)
    requires OpeningInv(c, o) && EquityMirrors(c, o)
    ensures var e := Correct(corrected, reason); KeepsStep(c, o, Step(c, o, e), Figure(c, o, PostedMinor(c, o), e))
  {
    CorrectOutcome(c, o, corrected, reason);
    if !Blank(reason) && corrected.currency == c.currency {
      RecordingKeeps(c, o, Some(corrected));
      DifferenceKeeps(c, o.(stored := Some(corrected)), corrected.minor);
    }
  }

  /** A correction is refused, or records the figure and posts the difference. */
  lemma CorrectOutcome(c: Setup, o: OpeningState, corrected: Money, reason: string)
    ensures var e, o' := Correct(corrected, reason), o.(stored := Some(corrected));
      var difference := corrected.minor - PostedMinor(c, o');
      if Blank(reason) || corrected.currency != c.currency then
        Step(c, o, e) == o && forall figure :: Figure(c, o, figure, e) == figure
      else
        && Step(c, o, e) == (if difference == 0 then o' else PostPair(c, o', difference))
        && forall figure :: Figure(c, o, figure, e) == corrected.minor
  {
    assert PostedMinor(c, o.(stored := Some(corrected))) == PostedMinor(c, o);
  }

  /** Posting what is missing from the figure wanted. */
  lemma DifferenceKeeps(c: Setup, o: OpeningState, wanted: int)
    requires OpeningInv(c, o) && EquityMirrors(c, o)
    ensures var difference := wanted - PostedMinor(c, o);
      KeepsStep(c, o, if difference == 0 then o else PostPair(c, o, difference), wanted)
  {
    if wanted != PostedMinor(c, o) {
      PostPairKeeps(c, o, wanted - PostedMinor(c, o));
    }
  }

  lemma StepKeeps(c: Setup, o: OpeningState, figure: int, event: Event)
    requires OpeningInv(c, o) && EquityMirrors(c, o) && PostedMinor(c, o) == figure
    ensures KeepsStep(c, o, Step(c, o, event), Figure(c, o, figure, event))
  {
    match event {
      case PostOpening => PostKeeps(c, o);
      case Correct(corrected, reason) => CorrectKeeps(c, o, corrected, reason);
      case Record(stored) =>
      case Other(e) =>
        if Unrelated(c, o, e) {
          OtherKeeps(c, o, e);
        }
    }
  }

  /** After any sequence of postings and corrections, interleaved with any other ledger activity, the figure
      read back is the last one posted or corrected, earlier entries are an untouched prefix, and equity
      carries the exact opposite. */
  lemma {:induction false} OpeningBalanceIsLastFigure(c: Setup, o: OpeningState, figure: int, events: seq<Event>)
    requires OpeningInv(c, o) && EquityMirrors(c, o) && PostedMinor(c, o) == figure
    ensures var end := RunFrom(c, o, figure, events);
      && OpeningInv(c, end.0) && EquityMirrors(c, end.0)
      && PostedMinor(c, end.0) == end.1
      && o.books.entries <= end.0.books.entries
  {
    if events != [] {
      var earlier := events[..|events| - 1];
      OpeningBalanceIsLastFigure(c, o, figure, earlier);
      StepKeeps(c, RunFrom(c, o, figure, earlier).0, RunFrom(c, o, figure, earlier).1, events[|events| - 1]);
    }
  }

  // ---- The stored form ----

  class OpeningAccount {
    const setup: Setup
    const books: Books
    var opening: set<nat>
    var stored: Option<Money>
    var nextTx: nat

    constructor (setup: Setup, books: Books, stored: Option<Money>, nextTx: nat)
      ensures this.setup == setup && this.books == books
      ensures Model() == OpeningState(books.Model(), {}, stored, nextTx)
    {
      this.setup, this.books := setup, books;
      this.opening, this.stored, this.nextTx := {}, stored, nextTx;
    }

    function Model(): OpeningState
      reads this, books
    {
      OpeningState(books.Model(), opening, stored, nextTx)
    }

    /** A running total over the opening entries of the ledger account, signed in its own direction. */
    method PostedOpeningBalanceMinor() returns (total: int)
      requires OpeningInv(setup, Model())
      ensures total == PostedMinor(setup, Model())
    {
      if setup.account !in books.accounts {
        return 0;
      }
      var normal := books.accounts[setup.account].normal;
      total := 0;
      var entries := books.entries;
      for i := 0 to |entries|
        invariant total == Sign(Debit, normal) * Net(entries[..i], OpeningOn(opening, setup.account))
      {
        assert entries[..i + 1][..i] == entries[..i];
        var e := entries[i];
        if e.tx in opening && e.account == setup.account {
          total := total + if e.side == normal then e.amount else -e.amount;
        }
      }
      assert entries[..|entries|] == entries;
    }

    method WritePair(signed: int)
      requires OpeningInv(setup, Model()) && signed != 0
      modifies this, books
      ensures Model() == PostPair(setup, old(Model()), signed)
    {
      PairIsAccepted(setup, Model(), signed);
      books.accounts := Ensure(books.accounts, setup.account, setup.user, setup.kind);
      books.accounts := Ensure(books.accounts, setup.equity, setup.user, Equity);
      books.transactions := books.transactions[nextTx := Transaction(setup.user, setup.currency, Confirmed)];
      assert books.Model() == Prepared(setup, old(Model()));
      var outcome := books.PostBalancedTransaction(nextTx, PairPostings(setup, signed));
      opening, nextTx := opening + {nextTx}, nextTx + 1;
    }

    method PostOpeningBalance() returns (result: Result)
      requires OpeningInv(setup, Model())
      modifies this, books
      ensures (Model(), result) == PostOpeningSpec(setup, old(Model()))
    {
      if stored.None? || stored.value.minor == 0 {
        return Nothing;
      }
      if stored.value.currency != setup.currency {
        return CurrencyMismatch;
      }
      var already := PostedOpeningBalanceMinor();
      if already != 0 {
        return AlreadyOpened;
      }
      var recorded := stored.value.minor;
      WritePair(recorded);
      return Posted(recorded);
    }

    method CorrectOpeningBalance(corrected: Money, reason: string) returns (result: Result)
      requires OpeningInv(setup, Model())
      modifies this, books
      ensures (Model(), result) == CorrectSpec(setup, old(Model()), corrected, reason)
    {
      if Blank(reason) {
        return ReasonRequired;
      }
      if corrected.currency != setup.currency {
        return CurrencyMismatch;
      }
      var already := PostedOpeningBalanceMinor();
      var difference := corrected.minor - already;
      stored := Some(corrected);
      if difference == 0 {
        return Nothing;
      }
      WritePair(difference);
      return Posted(difference);
    }
  }
}
