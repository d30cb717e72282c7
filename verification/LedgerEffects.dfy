/** When a posting is accepted or refused, what it writes, and that nothing is posted twice. */
module LedgerEffects {
  import opened Common
  import opened Ledger
  import opened LedgerLaws

  /** Debits minus credits. */
  function Surplus(postings: seq<Posting>): int {
    if postings == [] then 0
    else (if postings[0].side == Debit then postings[0].amount else -postings[0].amount) + Surplus(postings[1..])
  }

  /** A positive amount in the transaction's currency, on an account of its owner. */
  predicate Sound(s: State, tx: nat, p: Posting) {
    && tx in s.transactions && p.account in s.accounts && p.amount > 0
    && p.currency == s.transactions[tx].currency && s.accounts[p.account].owner == s.transactions[tx].owner
  }

  predicate IsConfirmed(s: State, tx: nat) { tx in s.transactions && s.transactions[tx].status == Confirmed }

  predicate IsPosted(s: State, tx: nat) { exists i :: 0 <= i < |s.entries| && s.entries[i].tx == tx }

  predicate AllSound(s: State, tx: nat, postings: seq<Posting>) {
    forall i :: 0 <= i < |postings| ==> Sound(s, tx, postings[i])
  }

  predicate Postable(s: State, tx: nat, postings: seq<Posting>) {
    && IsConfirmed(s, tx) && |postings| >= 2 && AllSound(s, tx, postings) && Surplus(postings) == 0
    && !IsPosted(s, tx)
  }

  /** One entry per posting, in order. */
  predicate EntersAll(tx: nat, postings: seq<Posting>, entries: seq<Entry>) {
    && |entries| == |postings|
    && forall i :: 0 <= i < |postings| ==>
         && entries[i].tx == tx && entries[i].account == postings[i].account && entries[i].side == postings[i].side
         && entries[i].amount == postings[i].amount && entries[i].currency == postings[i].currency
  }

  lemma {:induction false} SideTotalSplit(a: seq<Posting>, b: seq<Posting>, side: Side)
    ensures SideTotal(a + b, side) == SideTotal(a, side) + SideTotal(b, side)
  {
    if b == [] {
      assert a + b == a;
    } else {
      SideTotalSplit(a, b[..|b| - 1], side);
      assert (a + b)[..|a + b| - 1] == a + b[..|b| - 1];
    }
  }

  lemma {:induction false} SurplusIs(postings: seq<Posting>)
    ensures Surplus(postings) == SideTotal(postings, Debit) - SideTotal(postings, Credit)
  {
    if postings != [] {
      SurplusIs(postings[1..]);
      assert postings == [postings[0]] + postings[1..] && [postings[0]][..0] == [];
      SideTotalSplit([postings[0]], postings[1..], Debit);
      SideTotalSplit([postings[0]], postings[1..], Credit);
    }
  }

  lemma SoundMeansNoError(s: State, tx: nat, postings: seq<Posting>)
    requires tx in s.transactions && forall i :: 0 <= i < |postings| ==> postings[i].account in s.accounts
    ensures FirstPostingError(s, s.transactions[tx], postings).None? <==> AllSound(s, tx, postings)
  {
    NoPostingError(s, s.transactions[tx], postings);
    forall i | 0 <= i < |postings|
      ensures PostingError(s, s.transactions[tx], postings[i]).None? <==> Sound(s, tx, postings[i])
    {}
  }

  /** A posting is written if and only if the transaction is confirmed and was not posted before, and there are at
      least two postings, each of them sound, that balance. */
  lemma PostedIff(s: State, tx: nat, postings: seq<Posting>)
    requires tx in s.transactions && forall i :: 0 <= i < |postings| ==> postings[i].account in s.accounts
    ensures PostSpec(s, tx, postings).Written? <==> Postable(s, tx, postings)
    ensures PostSpec(s, tx, postings).Written? ==> EntersAll(tx, postings, PostSpec(s, tx, postings).entries)
  {
    SoundMeansNoError(s, tx, postings);
    SurplusIs(postings);
    FilterEmpty(s.entries, tx);
  }

  /** The error a refusal gives: the first thing wrong, in the order status, number, postings, balance, repetition. */
  lemma RefusalNames(s: State, tx: nat, postings: seq<Posting>)
    requires tx in s.transactions && forall i :: 0 <= i < |postings| ==> postings[i].account in s.accounts
    ensures var outcome, sound := PostSpec(s, tx, postings), AllSound(s, tx, postings);
      && (outcome == Refused(NotConfirmed) <==> !IsConfirmed(s, tx))
      && (outcome == Refused(TooFewEntries) <==> IsConfirmed(s, tx) && |postings| < 2)
      && (outcome == Refused(Unbalanced) <==> IsConfirmed(s, tx) && |postings| >= 2 && sound && Surplus(postings) != 0)
      && (outcome == Refused(AlreadyPosted) <==>
            IsConfirmed(s, tx) && |postings| >= 2 && sound && Surplus(postings) == 0 && IsPosted(s, tx))
  {
    SoundMeansNoError(s, tx, postings);
    SurplusIs(postings);
    FilterEmpty(s.entries, tx);
    PostingErrorKinds(s, s.transactions[tx], postings);
  }

  lemma {:induction false} PostingErrorKinds(s: State, t: Transaction, postings: seq<Posting>)
    requires forall i :: 0 <= i < |postings| ==> postings[i].account in s.accounts
    ensures var error := FirstPostingError(s, t, postings);
      error.Some? ==> error.value in {WrongCurrency, NotPositive, WrongOwner}
  {
    if postings != [] {
      PostingErrorKinds(s, t, postings[..|postings| - 1]);
    }
  }

  /** Posting adds the entries of an acceptable posting behind the old ones, and otherwise does nothing. */
  lemma PostEffect(s: State, tx: nat, postings: seq<Posting>)
    ensures var t := Apply(s, Post(tx, postings));
      if Postable(s, tx, postings) then
        && t == s.(entries := t.entries) && s.entries <= t.entries
        && EntersAll(tx, postings, t.entries[|s.entries|..])
      else t == s
  {
    if tx in s.transactions && forall i :: 0 <= i < |postings| ==> postings[i].account in s.accounts {
      PostedIff(s, tx, postings);
    }
  }

  // ---- Nothing is posted twice ----

  lemma EntriesGrow(s: State, e: Event)
    ensures s.entries <= Apply(s, e).entries
  {}

  lemma {:induction false} PostedStays(events: seq<Event>, more: seq<Event>, tx: nat)
    requires IsPosted(Run(events), tx)
    ensures IsPosted(Run(events + more), tx)
    decreases |more|
  {
    if more == [] {
      assert events + more == events;
    } else {
      var front, last := more[..|more| - 1], more[|more| - 1];
      PostedStays(events, front, tx);
      assert events + more == (events + front) + [last];
      assert ((events + front) + [last])[..|events + front|] == events + front;
      EntriesGrow(Run(events + front), last);
    }
  }

  /** Once a posting of a transaction was accepted, no later one is, whatever happens in between, reversal included. */
  lemma PostedOnce(events: seq<Event>, postings: seq<Posting>, more: seq<Event>, again: seq<Posting>, tx: nat)
    requires Postable(Run(events), tx, postings)
    ensures var s := Run(events + [Post(tx, postings)] + more);
      IsPosted(s, tx) && Apply(s, Post(tx, again)) == s
  {
    var posted := events + [Post(tx, postings)];
    assert posted[..|events|] == events;
    PostEffect(Run(events), tx, postings);
    assert Run(posted).entries[|Run(events).entries|..][0].tx == tx;
    PostedStays(posted, more, tx);
    PostEffect(Run(posted + more), tx, again);
  }

  /** The second posting of one transaction is refused, and the account keeps its five. */
  lemma SecondPostingRefused()
    ensures var s := State(map[1 := Account(7, Asset, Debit), 2 := Account(7, Equity, Credit)],
                           map[3 := Transaction(7, "KRW", Confirmed)],
                           [Entry(3, 1, Debit, 5, "KRW"), Entry(3, 2, Credit, 5, "KRW")]);
      var again := [Posting(1, Debit, 5, "KRW"), Posting(2, Credit, 5, "KRW")];
      PostSpec(s, 3, again) == Refused(AlreadyPosted) && Apply(s, Post(3, again)) == s
  {
    var s := State(map[1 := Account(7, Asset, Debit), 2 := Account(7, Equity, Credit)],
                   map[3 := Transaction(7, "KRW", Confirmed)],
                   [Entry(3, 1, Debit, 5, "KRW"), Entry(3, 2, Credit, 5, "KRW")]);
    var again := [Posting(1, Debit, 5, "KRW"), Posting(2, Credit, 5, "KRW")];
    assert again[1..] == [again[1]] && Surplus(again[1..]) == -5;
    assert s.entries[0].tx == 3;
    RefusalNames(s, 3, again);
    PostEffect(s, 3, again);
  }

  // ---- The other steps ----

  /** A transaction's status moves from draft to confirmed or voided, and from confirmed to voided, and never back. */
  lemma SetStatusEffect(s: State, tx: nat, status: Status)
    ensures var t := Apply(s, SetStatus(tx, status));
      if tx in s.transactions
         && (s.transactions[tx].status, status) in {(Draft, Confirmed), (Draft, Voided), (Confirmed, Voided)}
      then t == s.(transactions := s.transactions[tx := s.transactions[tx].(status := status)]) else t == s
  {}

  /** The same entry on the other side. */
  predicate Counters(r: Entry, e: Entry) {
    r.tx == e.tx && r.account == e.account && r.amount == e.amount && r.currency == e.currency && r.side != e.side
  }

  lemma MirrorCounters(entries: seq<Entry>)
    ensures |Mirror(entries)| == |entries|
    ensures forall k :: 0 <= k < |entries| ==> Counters(Mirror(entries)[k], entries[k])
  {}

  /** A reversal that goes through counters each of the transaction's entries with one of its own, in order, behind the
      old ones; a transaction without entries, or one that is refused, leaves the books as they are. */
  lemma ReverseEffect(s: State, tx: nat)
    requires Inv(s)
    ensures var own, t := Filter(s.entries, tx), Apply(s, Reverse(tx));
      if IsPosted(s, tx) && !Cancelled(s.entries, tx) then
        && t == s.(entries := t.entries) && s.entries <= t.entries && |t.entries| == |s.entries| + |own|
        && forall k :: 0 <= k < |own| ==> Counters(t.entries[|s.entries|..][k], own[k])
      else t == s
  {
    var own, outcome := Filter(s.entries, tx), ReverseSpec(s, tx);
    ReversalRefusedIff(s, tx);
    PostedIsFiltered(s.entries, tx);
    assert outcome == if own == [] then Written([]) else if outcome.Refused? then outcome else Written(Mirror(own));
    if own != [] && outcome.Written? {
      MirrorCounters(own);
      assert (s.entries + Mirror(own))[|s.entries|..] == Mirror(own);
    } else {
      assert s.entries + [] == s.entries;
    }
  }

  lemma {:induction false} PostedIsFiltered(entries: seq<Entry>, tx: nat)
    ensures Filter(entries, tx) != [] <==> exists i :: 0 <= i < |entries| && entries[i].tx == tx
  {
    if entries != [] {
      PostedIsFiltered(entries[..|entries| - 1], tx);
    }
  }
}
