/** What posting and correcting an opening balance do to the books, and when they are refused. */
module OpeningEffects {
  import opened Common
  import opened Ledger
  import opened OpeningBalances

  /** A recorded opening balance that still has to be posted. */
  predicate Owed(c: Setup, o: OpeningState) {
    o.stored.Some? && o.stored.value.minor != 0 && o.stored.value.currency == c.currency && PostedMinor(c, o) == 0
  }

  /** One more opening transaction with one entry on the account and the opposite one on equity. */
  ghost predicate PairAdded(c: Setup, before: OpeningState, after: OpeningState) {
    var n := |before.books.entries|;
    && after.opening == before.opening + {before.nextTx} && before.books.entries <= after.books.entries
    && |after.books.entries| == n + 2
    && var x, y := after.books.entries[n], after.books.entries[n + 1];
      && x.tx == y.tx == before.nextTx && x.account == c.account && y.account == c.equity
      && x.amount == y.amount > 0 && x.side != y.side && x.currency == y.currency == c.currency
  }

  lemma PairIsAdded(c: Setup, o: OpeningState, signed: int)
    requires signed != 0
    ensures PairAdded(c, o, PostPair(c, o, signed))
    ensures PostPair(c, o, signed).stored == o.stored && PostPair(c, o, signed).nextTx == o.nextTx + 1
  {
    var pair := EntriesOf(o.nextTx, PairPostings(c, signed));
    assert |pair| == 2;
    assert (o.books.entries + pair)[|o.books.entries|] == pair[0];
    assert (o.books.entries + pair)[|o.books.entries| + 1] == pair[1];
  }

  /** The posting goes through exactly when a nonzero figure in the account's currency is recorded and none is
      posted; then the books hold that figure in one balanced pair. Otherwise nothing changes, and the answer says
      why. */
  lemma PostOpeningEffect(c: Setup, o: OpeningState)
    requires OpeningInv(c, o) && EquityMirrors(c, o)
    ensures var o', r := PostOpeningSpec(c, o).0, PostOpeningSpec(c, o).1;
      if Owed(c, o) then
        r == Posted(o.stored.value.minor) && PostedMinor(c, o') == o.stored.value.minor && PairAdded(c, o, o')
        && o'.stored == o.stored
      else
        && o' == o && !r.Posted?
        && (r == CurrencyMismatch ==> o.stored.Some? && o.stored.value.currency != c.currency)
        && (r == AlreadyOpened ==> o.stored.Some? && PostedMinor(c, o) != 0)
        && (r == Nothing <==> o.stored.None? || o.stored.value.minor == 0)
  {
    if Owed(c, o) {
      PostPairKeeps(c, o, o.stored.value.minor);
      PairIsAdded(c, o, o.stored.value.minor);
    }
  }

  /** An opening balance is posted once. */
  lemma PostOpeningOnce(c: Setup, o: OpeningState)
    requires OpeningInv(c, o) && EquityMirrors(c, o) && Owed(c, o)
    ensures var o' := PostOpeningSpec(c, o).0; PostOpeningSpec(c, o') == (o', AlreadyOpened)
  {
    PostOpeningEffect(c, o);
  }

  /** A correction is accepted exactly when it gives a reason and is in the account's currency; then the corrected
      figure is recorded and is what the books hold, by one pair for the difference, or by nothing when they held it. */
  lemma CorrectEffect(c: Setup, o: OpeningState, corrected: Money, reason: string)
    requires OpeningInv(c, o) && EquityMirrors(c, o)
    ensures var o', r := CorrectSpec(c, o, corrected, reason).0, CorrectSpec(c, o, corrected, reason).1;
      if !Blank(reason) && corrected.currency == c.currency then
        && o'.stored == Some(corrected) && PostedMinor(c, o') == corrected.minor
        && (if PostedMinor(c, o) == corrected.minor then r == Nothing && o'.books == o.books
            else r == Posted(corrected.minor - PostedMinor(c, o)) && PairAdded(c, o, o'))
      else o' == o && r == if Blank(reason) then ReasonRequired else CurrencyMismatch
  {
    var o' := o.(stored := Some(corrected));
    assert PostedMinor(c, o') == PostedMinor(c, o);
    if !Blank(reason) && corrected.currency == c.currency && PostedMinor(c, o) != corrected.minor {
      RecordingKeeps(c, o, Some(corrected));
      PostPairKeeps(c, o', corrected.minor - PostedMinor(c, o'));
      PairIsAdded(c, o', corrected.minor - PostedMinor(c, o'));
    }
  }
}
