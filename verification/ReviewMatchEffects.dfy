/** What the events on pairs of rows bring about, and exactly when: proposing, confirming, undoing; and a new import. */
module ReviewMatchEffects {
  import opened Common
  import opened Review
  import opened ReviewEffects
  import opened ReviewFindings
  import opened ReviewLaws
  import opened ReviewRuns
  import opened ReviewStructure
  import opened Values

  // ---- Proposing ----

  /** m joins the rows a and b in that way, in either order. */
  predicate Joins(x: Match, a: nat, b: nat, kind: Kind) {
    x.kind == kind && ((x.left == a && x.right == b) || (x.left == b && x.right == a))
  }

  predicate SomeJoins(s: State, a: nat, b: nat, kind: Kind) {
    exists m :: m in s.matches && Joins(s.matches[m], a, b, kind)
  }

  /** The unique constraint on pair and kind. */
  predicate PairsUnique(s: State) {
    forall m, n :: m in s.matches && n in s.matches && m < n ==>
      !Joins(s.matches[n], s.matches[m].left, s.matches[m].right, s.matches[m].kind)
  }

  lemma {:induction false} FindFinds(matches: map<nat, Match>, left: nat, right: nat, kind: Kind, n: nat)
    ensures FindMatch(matches, left, right, kind, n).None? ==>
      forall m :: 0 <= m < n && m in matches ==> !IsPair(matches[m], left, right, kind)
  {
    if n > 0 {
      FindFinds(matches, left, right, kind, n - 1);
    }
  }

  lemma FoundIff(s: State, a: nat, b: nat, kind: Kind)
    requires MatchesOk(s) && a != b
    ensures FindMatch(s.matches, Least(a, b), Greatest(a, b), kind, s.nextMatch).Some? <==> SomeJoins(s, a, b, kind)
  {
    FindFinds(s.matches, Least(a, b), Greatest(a, b), kind, s.nextMatch);
    forall m | m in s.matches
      ensures Joins(s.matches[m], a, b, kind) <==> IsPair(s.matches[m], Least(a, b), Greatest(a, b), kind)
    {
      assert MatchOk(s, m, s.matches[m]);
    }
    if m :| m in s.matches && Joins(s.matches[m], a, b, kind) {
      assert MatchOk(s, m, s.matches[m]);
    }
  }

  /** A new pair is proposed once, in one order. A known one stays as it is, except that a person, and only a person,
      reopens it after it was dismissed. */
  lemma ProposeEffect(s: State, a: nat, b: nat, kind: Kind, manual: bool)
    requires MatchesOk(s)
    ensures var t := Apply(s, Propose(a, b, kind, manual));
      if a == b || a !in s.rows || b !in s.rows then t == s
      else if !SomeJoins(s, a, b, kind) then
        && t == s.(matches := s.matches[s.nextMatch := t.matches[s.nextMatch]], nextMatch := s.nextMatch + 1)
        && s.nextMatch in t.matches && Joins(t.matches[s.nextMatch], a, b, kind)
        && t.matches[s.nextMatch].left < t.matches[s.nextMatch].right && t.matches[s.nextMatch].status == Proposed
      else exists m :: m in s.matches && Joins(s.matches[m], a, b, kind) && t == s.(matches := t.matches)
                       && OnlyMatch(s.matches, t.matches, m)
                       && t.matches[m] == if manual && s.matches[m].status == Dismissed
                                          then s.matches[m].(status := Proposed) else s.matches[m]
  {
    if a != b && a in s.rows && b in s.rows {
      FoundIff(s, a, b, kind);
      var found := FindMatch(s.matches, Least(a, b), Greatest(a, b), kind, s.nextMatch);
      if found.Some? {
        var m, t := found.value, RecordMatch(s, a, b, kind, manual);
        assert Joins(s.matches[m], a, b, kind) && OnlyMatch(s.matches, t.matches, m);
      }
    }
  }

  lemma ProposeKeepsUnique(s: State, a: nat, b: nat, kind: Kind, manual: bool)
    requires MatchesOk(s) && PairsUnique(s)
    ensures PairsUnique(RecordMatch(s, a, b, kind, manual))
  {
    if a != b && a in s.rows && b in s.rows {
      FoundIff(s, a, b, kind);
      forall m | m in s.matches ensures m < s.nextMatch { assert MatchOk(s, m, s.matches[m]); }
      if !SomeJoins(s, a, b, kind) {
        forall m | m in s.matches
          ensures !Joins(s.matches[m], a, b, kind)
        {}
      }
    }
  }

  lemma SamePairsKeepUnique(s: State, t: State)
    requires PairsUnique(s) && SameKinds(s.matches, t.matches)
    ensures PairsUnique(t)
  {}

  predicate SameKinds(before: map<nat, Match>, after: map<nat, Match>) {
    forall m :: m in after ==>
      && m in before && before[m].left == after[m].left && before[m].right == after[m].right
      && before[m].kind == after[m].kind
  }

  lemma RowEventsKeepKinds(s: State, e: Event)
    requires e.Accept? || e.Reject? || e.Correct? || e.Merge? || e.DeleteTransaction?
    ensures Apply(s, e).matches == s.matches
  {}

  lemma ConfirmingKeepsKinds(s: State, e: Event)
    requires e.ConfirmPair? || e.MergeAutomatically? || e.MakeTransfer? || e.MakeRefund?
    ensures SameKinds(s.matches, Apply(s, e).matches)
  {}

  lemma StatusKeepsKinds(s: State, e: Event)
    requires e.ConfirmRelation? || e.Dismiss? || e.UnlinkMatch?
    ensures SameKinds(s.matches, Apply(s, e).matches)
  {}

  lemma StepKeepsUnique(s: State, e: Event)
    requires MatchesOk(s) && PairsUnique(s)
    ensures PairsUnique(Apply(s, e))
  {
    if e.Propose? {
      ProposeKeepsUnique(s, e.a, e.b, e.kind, e.manual);
    } else {
      if e.ImportRows? {
        ImportKinds(s, e.doc, e.run, e.parser, e.parsed);
      } else if e.ConfirmPair? || e.MergeAutomatically? || e.MakeTransfer? || e.MakeRefund? {
        ConfirmingKeepsKinds(s, e);
      } else if e.ConfirmRelation? || e.Dismiss? || e.UnlinkMatch? {
        StatusKeepsKinds(s, e);
      } else {
        RowEventsKeepKinds(s, e);
      }
      SamePairsKeepUnique(s, Apply(s, e));
    }
  }

  lemma ImportKinds(s: State, doc: nat, run: Option<nat>, parser: nat, parsed: seq<Facts>)
    ensures SameKinds(s.matches, Import(s, doc, run, parser, parsed).matches)
  {
    AddRowsKeepMatches(Kept(s, doc, run), doc, run, parser, 0, parsed);
  }

  lemma {:induction false} AddRowsKeepMatches(s: State, doc: nat, run: Option<nat>, parser: nat, index: nat,
                                              parsed: seq<Facts>)
    ensures AddRows(s, doc, run, parser, index, parsed).matches == s.matches
    decreases |parsed|
  {
    if parsed != [] {
      AddRowsKeepMatches(AddRow(s, NewRow(doc, run, parser, index, parsed[0])), doc, run, parser, index + 1,
                         parsed[1..]);
    }
  }

  /** After any history two matches never join the same rows in the same way: re-running detection piles up nothing. */
  lemma {:induction false} OneMatchPerPair(events: seq<Event>)
    ensures PairsUnique(Run(events))
  {
    if events != [] {
      var front := events[..|events| - 1];
      OneMatchPerPair(front);
      StructRun(front);
      StepKeepsUnique(Run(front), events[|events| - 1]);
    }
  }

  // ---- Confirming ----

  /** m is an open proposal of that kind that joins a and b. */
  predicate Open(s: State, m: nat, a: nat, b: nat, kind: Kind) {
    m in s.matches && Joins(s.matches[m], a, b, kind) && s.matches[m].status == Proposed && a != b
  }

  predicate Confirms(s: State, t: State, m: nat) {
    m in s.matches && OnlyMatch(s.matches, t.matches, m) && t.matches[m] == s.matches[m].(status := Confirmed)
  }

  /** The winner must be unmerged and the other row foldable; then it is folded away and the match confirmed. */
  lemma ConfirmPairEffect(s: State, m: nat, winner: nat, loser: nat)
    requires Open(s, m, winner, loser, Duplicate)
    ensures var t := Apply(s, ConfirmPair(m, winner));
      if Mergeable(s.rows, winner, [loser]) then
        && OnlyRows(s.rows, t.rows, {loser}) && t == s.(rows := t.rows, matches := t.matches) && Confirms(s, t, m)
        && t.rows[loser].mergedInto == Some(winner) && t.rows[loser].status == Merged
        && t.rows[loser] == s.rows[loser].(mergedInto := Some(winner), status := Merged)
      else t == s
  {
    if winner in s.rows && s.rows[winner].mergedInto == None {
      MergeEachGoesThrough(s.rows, winner, [loser]);
      if MergeEach(s.rows, winner, [loser]).Some? {
        MergeEachShape(s.rows, winner, [loser]);
      }
    }
  }

  /** Automatically the older of two unmerged rows wins, if the younger one may be folded. */
  lemma MergeAutomaticallyEffect(s: State, m: nat, older: nat, younger: nat)
    requires Open(s, m, older, younger, Duplicate) && older < younger
    ensures Apply(s, MergeAutomatically(m)) ==
      if older in s.rows && younger in s.rows && s.rows[older].mergedInto == None && s.rows[younger].mergedInto == None
      then Apply(s, ConfirmPair(m, older)) else s
  {}

  lemma ConfirmRelationEffect(s: State, m: nat)
    ensures var t := Apply(s, ConfirmRelation(m));
      if m in s.matches && s.matches[m].kind == Related && s.matches[m].status == Proposed
      then Confirms(s, t, m) && t == s.(matches := t.matches) else t == s
  {}

  /** Only an open proposal can be dismissed; nothing else changes. */
  lemma DismissEffect(s: State, m: nat)
    ensures var t := Apply(s, Dismiss(m));
      if m in s.matches && s.matches[m].status == Proposed then
        && OnlyMatch(s.matches, t.matches, m) && t == s.(matches := t.matches)
        && t.matches[m] == s.matches[m].(status := Dismissed)
      else t == s
  {}

  predicate Free(r: Row) { r.tx == None && !SetAside(r) }

  /** Money leaves one account of the pair and arrives in the other, and neither row is spoken for. */
  predicate Transferable(s: State, out: nat, into: nat, valid: bool) {
    && out in s.rows && into in s.rows && Free(s.rows[out]) && Free(s.rows[into]) && valid
    && s.rows[out].facts.direction == Debit && s.rows[into].facts.direction == Credit && s.rows[out].facts.usable
    && s.rows[out].facts.account != None && s.rows[into].facts.account != None
    && s.rows[out].facts.account != s.rows[into].facts.account
  }

  /** One transaction for both rows. */
  predicate Transferred(s: State, t: State, m: nat, out: nat, into: nat) {
    && OnlyRows(s.rows, t.rows, {out, into}) && out in t.rows && into in t.rows && out in s.rows && into in s.rows
    && Confirms(s, t, m) && t == s.(rows := t.rows, txs := t.txs, matches := t.matches)
    && t.rows[out].tx.Some? && Books(s.txs, t.txs, FromTransfer(m), t.rows[out].tx.value)
    && LinkedTo(s.rows[out], t.rows[out], t.rows[out].tx.value)
    && LinkedTo(s.rows[into], t.rows[into], t.rows[out].tx.value)
  }

  lemma TransferableIff(s: State, m: nat, valid: bool, a: nat, b: nat)
    requires Open(s, m, a, b, Transfer)
    ensures CanTransfer(s, m, valid) <==> Transferable(s, a, b, valid) || Transferable(s, b, a, valid)
    ensures Transferable(s, a, b, valid) ==> SplitSides(s, s.matches[m], Debit, Credit) == Some((a, b))
    ensures Transferable(s, b, a, valid) ==> SplitSides(s, s.matches[m], Debit, Credit) == Some((b, a))
  {}

  lemma TransferIsMade(s: State, m: nat, valid: bool, out: nat, into: nat)
    requires CanTransfer(s, m, valid) && SplitSides(s, s.matches[m], Debit, Credit) == Some((out, into)) && out != into
    ensures Transferred(s, ConfirmTransfer(s, m, valid), m, out, into)
  {
    SaveBooks(s.txs, FromTransfer(m));
  }

  /** A transfer is confirmed exactly when one row is the debit and the other the credit side of one. */
  lemma TransferEffect(s: State, m: nat, valid: bool, a: nat, b: nat)
    requires Open(s, m, a, b, Transfer)
    ensures var t := Apply(s, MakeTransfer(m, valid));
      if Transferable(s, a, b, valid) then Transferred(s, t, m, a, b)
      else if Transferable(s, b, a, valid) then Transferred(s, t, m, b, a)
      else t == s
  {
    TransferableIff(s, m, valid, a, b);
    if Transferable(s, a, b, valid) {
      TransferIsMade(s, m, valid, a, b);
    } else if Transferable(s, b, a, valid) {
      TransferIsMade(s, m, valid, b, a);
    }
  }

  /** Money that comes back for a purchase: the credit row is free, and either row knows the account. */
  predicate Refundable(s: State, back: nat, spent: nat, valid: bool) {
    && back in s.rows && spent in s.rows && Free(s.rows[back]) && valid && s.rows[back].facts.usable
    && s.rows[back].facts.direction == Credit && s.rows[spent].facts.direction == Debit
    && (s.rows[back].facts.account != None || s.rows[spent].facts.account != None)
  }

  /** The other open refund proposals of the row are settled with this one. */
  predicate Rival(x: Match, back: nat) { x.kind == Refund && x.status == Proposed && InPair(x, back) }

  predicate RefundMade(s: State, t: State, m: nat, back: nat) {
    && OnlyRows(s.rows, t.rows, {back}) && back in t.rows && back in s.rows && m in s.matches
    && t == s.(rows := t.rows, txs := t.txs, matches := t.matches)
    && t.rows[back].tx.Some? && Books(s.txs, t.txs, FromRefund(m), t.rows[back].tx.value)
    && LinkedTo(s.rows[back], t.rows[back], t.rows[back].tx.value)
    && t.matches.Keys == s.matches.Keys
    && forall x :: x in s.matches ==>
         t.matches[x] == if x == m then s.matches[x].(status := Confirmed)
                         else if Rival(s.matches[x], back) then s.matches[x].(status := Dismissed)
                         else s.matches[x]
  }

  lemma RefundableIff(s: State, m: nat, valid: bool, a: nat, b: nat)
    requires Open(s, m, a, b, Refund)
    ensures CanRefund(s, m, valid) <==> Refundable(s, a, b, valid) || Refundable(s, b, a, valid)
    ensures Refundable(s, a, b, valid) ==> SplitSides(s, s.matches[m], Credit, Debit) == Some((a, b))
    ensures Refundable(s, b, a, valid) ==> SplitSides(s, s.matches[m], Credit, Debit) == Some((b, a))
  {}

  lemma RefundIsMade(s: State, m: nat, valid: bool, back: nat, spent: nat)
    requires CanRefund(s, m, valid) && SplitSides(s, s.matches[m], Credit, Debit) == Some((back, spent))
    ensures RefundMade(s, ConfirmRefund(s, m, valid), m, back)
  {
    SaveBooks(s.txs, FromRefund(m));
  }

  /** A refund is confirmed exactly when one row is the credit that comes back for the other one's debit. */
  lemma RefundEffect(s: State, m: nat, valid: bool, a: nat, b: nat)
    requires Open(s, m, a, b, Refund)
    ensures var t := Apply(s, MakeRefund(m, valid));
      if Refundable(s, a, b, valid) then RefundMade(s, t, m, a)
      else if Refundable(s, b, a, valid) then RefundMade(s, t, m, b)
      else t == s
  {
    RefundableIff(s, m, valid, a, b);
    if Refundable(s, a, b, valid) {
      RefundIsMade(s, m, valid, a, b);
    } else if Refundable(s, b, a, valid) {
      RefundIsMade(s, m, valid, b, a);
    }
  }

  /** Whatever is not an open proposal of its kind cannot be confirmed. */
  lemma NotOpenNothingHappens(s: State, m: nat, winner: nat, valid: bool)
    requires m in s.matches ==> s.matches[m].status != Proposed
    ensures Apply(s, ConfirmPair(m, winner)) == Apply(s, MergeAutomatically(m)) == s
    ensures Apply(s, MakeTransfer(m, valid)) == Apply(s, MakeRefund(m, valid)) == s
  {}

  // ---- Undoing ----

  /** Deleting works once. It voids the transaction, and exactly the rows that held it wait for review again. */
  lemma DeleteEffect(s: State, tx: nat)
    ensures var t := Apply(s, DeleteTransaction(tx));
      if tx < |s.txs| && !s.txs[tx].voided then
        && t == s.(rows := t.rows, txs := s.txs[tx := Tx(s.txs[tx].origin, true)]) && t.rows.Keys == s.rows.Keys
        && forall id :: id in s.rows ==>
             t.rows[id] == if s.rows[id].tx == Some(tx) then s.rows[id].(tx := None, status := Unreviewed)
                           else s.rows[id]
      else t == s
  {}

  /** A row merged into the other one of the pair comes back. */
  predicate Returned(before: Row, after: Row, left: nat, right: nat) {
    after == if before.mergedInto == Some(left) || before.mergedInto == Some(right)
             then before.(mergedInto := None, status := Unreviewed) else before
  }

  /** Exactly one transaction is held by the pair, and it is in force. */
  predicate ShareOne(s: State, a: nat, b: nat) {
    && a in s.rows && b in s.rows && (HoldsInForce(s, a) || HoldsInForce(s, b))
    && (s.rows[a].tx == None || s.rows[b].tx == None || s.rows[a].tx == s.rows[b].tx)
  }

  /** The credit row of the pair that is read first holds a transaction in force. */
  predicate CreditHolds(s: State, first: nat, second: nat) {
    && first in s.rows && second in s.rows
    && if s.rows[first].facts.direction == Credit then HoldsInForce(s, first)
       else s.rows[second].facts.direction == Credit && HoldsInForce(s, second)
  }

  /** A confirmed pair of duplicates or relations can always be unlinked, a transfer while its rows share one
      transaction in force, a refund while its credit row holds one. */
  lemma UnlinkGoesThroughIff(s: State, m: nat, leftFirst: bool)
    requires Struct(s) && m in s.matches
    ensures var x := s.matches[m];
      CanUnlink(s, m, leftFirst) <==>
        && x.status == Confirmed
        && (x.kind == Transfer ==> ShareOne(s, x.left, x.right))
        && (x.kind == Refund ==>
              if leftFirst then CreditHolds(s, x.left, x.right) else CreditHolds(s, x.right, x.left))
    ensures !CanUnlink(s, m, leftFirst) ==> Apply(s, UnlinkMatch(m, leftFirst)) == s
  {
    assert MatchOk(s, m, s.matches[m]);
  }

  lemma UnmergeReturns(s: State, left: nat, right: nat)
    requires left in s.rows && right in s.rows && left != right
    ensures var t := UnmergePair(s, left, right);
      && t == s.(rows := t.rows) && OnlyRows(s.rows, t.rows, {left, right})
      && left in t.rows && right in t.rows
      && Returned(s.rows[left], t.rows[left], left, right) && Returned(s.rows[right], t.rows[right], left, right)
  {}

  /** Unlinking a confirmed pair of duplicates or relations: the match is set aside, merged rows of the pair come back,
      no transaction changes. */
  lemma UnlinkPairEffect(s: State, m: nat, leftFirst: bool)
    requires Struct(s) && m in s.matches && s.matches[m].kind in {Duplicate, Related}
    requires s.matches[m].status == Confirmed
    ensures var x, t := s.matches[m], Apply(s, UnlinkMatch(m, leftFirst));
      && x.left in s.rows && x.right in s.rows && OnlyRows(s.rows, t.rows, {x.left, x.right})
      && t == s.(rows := t.rows, matches := s.matches[m := x.(status := Dismissed)])
      && Returned(s.rows[x.left], t.rows[x.left], x.left, x.right)
      && Returned(s.rows[x.right], t.rows[x.right], x.left, x.right)
  {
    assert MatchOk(s, m, s.matches[m]);
    UnmergeReturns(SetMatch(s, m, Dismissed), s.matches[m].left, s.matches[m].right);
  }

  /** Unlinking a transfer or a refund whose transaction is in force, the pair not crossed: the transaction is deleted,
      so its rows wait for review again, and the match is set aside. */
  lemma UnlinkEventEffect(s: State, m: nat, leftFirst: bool, tx: nat)
    requires Inv(s) && m in s.matches && !Crossed(s, m) && CanUnlink(s, m, leftFirst)
    requires tx < |s.txs| && !s.txs[tx].voided && CameFrom(s.txs[tx].origin, m)
    ensures var t := Apply(s, UnlinkMatch(m, leftFirst));
      && t.txs == s.txs[tx := Tx(s.txs[tx].origin, true)]
      && OnlyMatch(s.matches, t.matches, m) && t.matches[m] == s.matches[m].(status := Dismissed)
      && forall id :: id in s.rows && s.rows[id].tx == Some(tx) ==>
           id in t.rows && t.rows[id].tx == None && t.rows[id].status == Unreviewed
  {
    UndoHitsTheEvent(s, m, leftFirst, tx);
    forall id | id in s.rows && s.rows[id].tx == Some(tx) ensures s.rows[id].mergedInto == None {
      assert RowOk(s.rows, s.rows[id]);
    }
  }

  // ---- Importing ----

  /** An open row that an earlier pass over the document left. */
  predicate FromEarlierPass(r: Row, doc: nat, run: Option<nat>) {
    r.doc == doc && r.status == Unreviewed && (run == None || r.run != run)
  }

  lemma {:induction false} AddRowsEffect(s: State, doc: nat, run: Option<nat>, parser: nat, index: nat,
                                         parsed: seq<Facts>, id: nat)
    requires forall x :: x in s.rows ==> x < s.nextRow
    ensures var t := AddRows(s, doc, run, parser, index, parsed);
      && t.nextRow == s.nextRow + |parsed| && t == s.(rows := t.rows, nextRow := t.nextRow)
      && (id in t.rows <==> id in s.rows || s.nextRow <= id < t.nextRow)
      && (id in s.rows ==> t.rows[id] == s.rows[id])
      && (s.nextRow <= id < t.nextRow ==>
            t.rows[id] == NewRow(doc, run, parser, index + (id - s.nextRow), parsed[id - s.nextRow]))
    decreases |parsed|
  {
    if parsed != [] {
      var u := AddRow(s, NewRow(doc, run, parser, index, parsed[0]));
      AddRowsEffect(u, doc, run, parser, index + 1, parsed[1..], id);
    }
  }

  /** The same parser has imported the same run before. */
  predicate Repeats(s: State, run: Option<nat>, parser: nat) {
    run != None && exists id :: id in s.rows && s.rows[id].run == run && s.rows[id].parser == parser
  }

  /** Without a run, a place that the import would fill belongs to a row of the same parser that was reviewed. */
  predicate PlaceTaken(s: State, doc: nat, run: Option<nat>, parser: nat, n: nat) {
    && run == None
    && exists id :: id in s.rows && s.rows[id].status != Unreviewed && FillsPlace(s.rows[id], doc, parser, n)
  }

  predicate FillsPlace(r: Row, doc: nat, parser: nat, n: nat) {
    r.doc == doc && r.run == None && r.parser == parser && r.index < n
  }

  lemma GoesThroughIff(s: State, doc: nat, run: Option<nat>, parser: nat, n: nat)
    ensures CanImport(s, doc, run, parser, n) <==> !Repeats(s, run, parser) && !PlaceTaken(s, doc, run, parser, n)
  {
    forall id | id in s.rows && run != None
      ensures SameImport(s.rows[id], run.value, parser) <==> s.rows[id].run == run && s.rows[id].parser == parser
    {}
    forall id | id in s.rows && run == None
      ensures SameKey(s.rows[id], doc, parser, n) && !Replaced(s.rows[id], doc, run) <==>
        s.rows[id].status != Unreviewed && FillsPlace(s.rows[id], doc, parser, n)
    {}
  }

  /** The winner of the row is one of the removed ones. */
  predicate WinnerRemoved(s: State, r: Row, doc: nat, run: Option<nat>) {
    r.mergedInto.Some? && r.mergedInto.value in s.rows && FromEarlierPass(s.rows[r.mergedInto.value], doc, run)
  }

  /** What row id is after an import: a removed open row of an earlier pass is gone, any other row is kept, without a
      winner that was removed, and the parsed rows follow in order, each open and holding nothing. */
  predicate RowImported(s: State, t: State, doc: nat, run: Option<nat>, parser: nat, parsed: seq<Facts>, id: nat)
    requires t.nextRow == s.nextRow + |parsed|
  {
    if id in s.rows && FromEarlierPass(s.rows[id], doc, run) then id !in t.rows
    else if id in s.rows then
      id in t.rows && t.rows[id] == s.rows[id].(mergedInto := if WinnerRemoved(s, s.rows[id], doc, run) then None
                                                             else s.rows[id].mergedInto)
    else if s.nextRow <= id < t.nextRow then
      id in t.rows
      && t.rows[id] == Row(doc, run, parser, id - s.nextRow, parsed[id - s.nextRow], Unreviewed, false, None, None)
    else id !in t.rows
  }

  /** What match m is: it is gone with either of its rows. */
  predicate MatchImported(s: State, t: State, doc: nat, run: Option<nat>, m: nat) {
    if m in s.matches && s.matches[m].left in t.rows && s.matches[m].right in t.rows then
      m in t.matches && t.matches[m] == s.matches[m]
    else m !in t.matches
  }

  /** An import happens once per run, and not at all when a place is taken. */
  lemma ImportEffect(s: State, doc: nat, run: Option<nat>, parser: nat, parsed: seq<Facts>, id: nat, m: nat)
    requires Struct(s)
    ensures var t := Apply(s, ImportRows(doc, run, parser, parsed));
      if Repeats(s, run, parser) || PlaceTaken(s, doc, run, parser, |parsed|) then t == s
      else
        && t.txs == s.txs && t.nextRow == s.nextRow + |parsed| && t.nextMatch == s.nextMatch
        && RowImported(s, t, doc, run, parser, parsed, id) && MatchImported(s, t, doc, run, m)
  {
    GoesThroughIff(s, doc, run, parser, |parsed|);
    if CanImport(s, doc, run, parser, |parsed|) {
      var kept := Kept(s, doc, run);
      AddRowsEffect(kept, doc, run, parser, 0, parsed, id);
      assert id in s.rows ==> RowOk(s.rows, s.rows[id]) && id < s.nextRow;
      if m in s.matches {
        assert MatchOk(s, m, s.matches[m]);
        AddRowsEffect(kept, doc, run, parser, 0, parsed, s.matches[m].left);
        AddRowsEffect(kept, doc, run, parser, 0, parsed, s.matches[m].right);
      }
    }
  }
}
