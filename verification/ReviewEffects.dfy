/** What each review and reconciliation event brings about, and exactly when, in the terms of rows, matches and
    transactions. An event that is refused changes nothing. */
module ReviewEffects {
  import opened Common
  import opened Review
  import opened ReviewCounts
  import opened ReviewFindings
  import opened ReviewLaws
  import opened ReviewRuns
  import opened ReviewStructure
  import opened Values

  // ---- Frames ----

  /** Rows outside ids are as they were, and none appears or disappears. */
  predicate OnlyRows(before: map<nat, Row>, after: map<nat, Row>, ids: set<nat>) {
    after.Keys == before.Keys && forall id :: id in before && id !in ids ==> after[id] == before[id]
  }

  predicate OnlyMatch(before: map<nat, Match>, after: map<nat, Match>, m: nat) {
    after.Keys == before.Keys && forall x :: x in before && x != m ==> after[x] == before[x]
  }

  predicate OnlyRowsChange(s: State, t: State, ids: set<nat>) {
    OnlyRows(s.rows, t.rows, ids) && t == s.(rows := t.rows)
  }

  /** The row takes part in nothing more: it was set aside. */
  predicate SetAside(r: Row) { r.status == Rejected || r.status == Merged }

  // ---- Rejecting ----

  /** A row that holds no transaction and names no winner. */
  predicate Rejectable(s: State, id: nat) {
    id in s.rows && s.rows[id].tx == None && s.rows[id].mergedInto == None
  }

  lemma RejectEffect(s: State, id: nat)
    requires Struct(s)
    ensures var t := Apply(s, Reject(id));
      if Rejectable(s, id) then OnlyRowsChange(s, t, {id}) && t.rows[id] == s.rows[id].(status := Rejected)
      else t == s
  {
    if id in s.rows {
      assert RowOk(s.rows, s.rows[id]);
      assert s.rows[id].status.Rejected? ==> s.rows == s.rows[id := s.rows[id].(status := Rejected)];
    }
  }

  predicate IsRejected(s: State, id: nat) { id in s.rows && s.rows[id].status == Rejected }

  predicate IsMerge(e: Event) { e.Merge? || e.ConfirmPair? || e.MergeAutomatically? }

  predicate FoldedAway(s: State, id: nat) {
    id in s.rows && s.rows[id].status == Merged && s.rows[id].mergedInto.Some?
  }

  lemma MergeLeavesRejected(rows: map<nat, Row>, winner: nat, duplicates: seq<nat>, id: nat)
    requires id in rows && rows[id].status == Rejected && MergeInto(rows, winner, duplicates).Some?
    ensures var after := MergeInto(rows, winner, duplicates).value;
      id in after && (after[id] == rows[id] || after[id] == MergedRow(rows[id], winner))
  {
    MergeEachShape(rows, winner, duplicates);
  }

  lemma PairLeavesRejected(s: State, m: nat, winner: nat, id: nat)
    requires IsRejected(s, id)
    ensures IsRejected(ConfirmDuplicate(s, m, winner), id) || FoldedAway(ConfirmDuplicate(s, m, winner), id)
  {
    if ConfirmDuplicate(s, m, winner) != s {
      var loser := if winner == s.matches[m].left then s.matches[m].right else s.matches[m].left;
      MergeLeavesRejected(s.rows, winner, [loser], id);
    }
  }

  lemma MergeEventLeavesRejected(s: State, e: Event, id: nat)
    requires IsRejected(s, id) && IsMerge(e)
    ensures IsRejected(Apply(s, e), id) || FoldedAway(Apply(s, e), id)
  {
    match e
    case Merge(winner, duplicates) =>
      if MergeInto(s.rows, winner, duplicates).Some? { MergeLeavesRejected(s.rows, winner, duplicates, id); }
    case ConfirmPair(m, winner) => PairLeavesRejected(s, m, winner, id);
    case MergeAutomatically(m) =>
      if AutoMerge(s, m) != s { PairLeavesRejected(s, m, Least(s.matches[m].left, s.matches[m].right), id); }
  }

  lemma ImportLeavesRejected(s: State, doc: nat, run: Option<nat>, parser: nat, parsed: seq<Facts>, id: nat)
    requires Struct(s) && IsRejected(s, id)
    ensures IsRejected(Import(s, doc, run, parser, parsed), id)
  {
    if CanImport(s, doc, run, parser, |parsed|) {
      assert RowOk(s.rows, s.rows[id]);
      assert id in Kept(s, doc, run).rows && Kept(s, doc, run).rows[id] == s.rows[id];
      AddRowsKeepsOld(Kept(s, doc, run), doc, run, parser, 0, parsed, id);
    }
  }

  lemma UndoingLeavesRejected(s: State, e: Event, id: nat)
    requires Struct(s) && IsRejected(s, id) && (e.UnlinkMatch? || e.DeleteTransaction?)
    ensures IsRejected(Apply(s, e), id)
  {
    assert RowOk(s.rows, s.rows[id]) && s.rows[id].tx.None? && s.rows[id].mergedInto.None?;
  }

  lemma LinkingLeavesRejected(s: State, e: Event, id: nat)
    requires Struct(s) && IsRejected(s, id) && (e.Accept? || e.MakeTransfer? || e.MakeRefund?)
    ensures IsRejected(Apply(s, e), id)
  {}

  /** Over every history a rejected row stays rejected until a merge folds it away. */
  lemma RejectedStays(s: State, e: Event, id: nat)
    requires Struct(s) && IsRejected(s, id)
    ensures IsRejected(Apply(s, e), id) || (IsMerge(e) && FoldedAway(Apply(s, e), id))
  {
    match e
    case ImportRows(doc, run, parser, parsed) => ImportLeavesRejected(s, doc, run, parser, parsed, id);
    case Merge(_, _) => MergeEventLeavesRejected(s, e, id);
    case ConfirmPair(_, _) => MergeEventLeavesRejected(s, e, id);
    case MergeAutomatically(_) => MergeEventLeavesRejected(s, e, id);
    case Accept(_, _, _) => LinkingLeavesRejected(s, e, id);
    case MakeTransfer(_, _) => LinkingLeavesRejected(s, e, id);
    case MakeRefund(_, _) => LinkingLeavesRejected(s, e, id);
    case UnlinkMatch(_, _) => UndoingLeavesRejected(s, e, id);
    case DeleteTransaction(_) => UndoingLeavesRejected(s, e, id);
    case Reject(_) =>
    case Correct(_, _) =>
    case Propose(_, _, _, _) =>
    case ConfirmRelation(_) =>
    case Dismiss(_) =>
  }

  predicate NoMerge(events: seq<Event>) { forall k :: 0 <= k < |events| ==> !IsMerge(events[k]) }

  /** So after any history a row, once rejected, is never accepted again, and never counts, unless it is merged. */
  lemma {:induction false} RejectedForGood(events: seq<Event>, more: seq<Event>, id: nat)
    requires IsRejected(Run(events), id) && NoMerge(more)
    ensures var s := Run(events + more); IsRejected(s, id) && s.rows[id].tx == None && id !in Counted(s)
    decreases |more|
  {
    StructRun(events + more);
    if more == [] {
      assert events + more == events;
    } else {
      var front, last := more[..|more| - 1], more[|more| - 1];
      RejectedForGood(events, front, id);
      assert events + more == (events + front) + [last];
      assert ((events + front) + [last])[..|events + front|] == events + front;
      StructRun(events + front);
      RejectedStays(Run(events + front), last, id);
      assert !IsMerge(last);
    }
    assert RowOk(Run(events + more).rows, Run(events + more).rows[id]);
  }

  // ---- Accepting and correcting ----

  /** The row is open, complete and free, and an account is known. */
  predicate Acceptable(s: State, id: nat, account: Option<nat>, allowed: bool) {
    && id in s.rows && allowed && !SetAside(s.rows[id]) && s.rows[id].tx == None
    && s.rows[id].facts.usable && (account != None || s.rows[id].facts.account != None)
  }

  /** The row is linked to the transaction of that origin: the one that has the key, or a new one in force. */
  predicate Books(before: seq<Tx>, after: seq<Tx>, origin: Origin, tx: nat) {
    && tx < |after| && after[tx].origin == origin
    && if tx < |before| then after == before else after == before + [Tx(origin, false)] && !HasKey(before, origin)
  }

  predicate LinkedTo(before: Row, after: Row, tx: nat) {
    after == before.(tx := Some(tx), status := if before.corrected then Corrected else Accepted)
  }

  lemma SaveBooks(txs: seq<Tx>, origin: Origin)
    ensures Books(txs, SaveOnce(txs, origin).txs, origin, SaveOnce(txs, origin).tx)
  {
    LookUp(txs, origin);
  }

  lemma AcceptEffect(s: State, id: nat, account: Option<nat>, allowed: bool)
    ensures var t := Apply(s, Accept(id, account, allowed));
      if Acceptable(s, id, account, allowed) then
        && OnlyRows(s.rows, t.rows, {id}) && t == s.(rows := t.rows, txs := t.txs) && t.rows[id].tx.Some?
        && LinkedTo(s.rows[id], t.rows[id], t.rows[id].tx.value)
        && Books(s.txs, t.txs, FromRow(id), t.rows[id].tx.value)
      else t == s
  {
    SaveBooks(s.txs, FromRow(id));
  }

  /** A correction replaces the facts of a row that was not set aside, its transaction and winner untouched; one that
      says nothing new leaves no trace. */
  lemma CorrectEffect(s: State, id: nat, facts: Facts)
    ensures var t := Apply(s, Correct(id, facts));
      if id in s.rows && !SetAside(s.rows[id]) && facts != s.rows[id].facts then
        && OnlyRowsChange(s, t, {id})
        && t.rows[id] == s.rows[id].(facts := facts, corrected := true, status := Corrected)
      else t == s
  {}

  // ---- Merging ----

  /** A duplicate may be folded away: it exists, is not the winner, holds nothing, and was not merged elsewhere. */
  predicate Foldable(rows: map<nat, Row>, winner: nat, d: nat) {
    d != winner && d in rows && rows[d].tx == None && (rows[d].status == Merged ==> rows[d].mergedInto == Some(winner))
  }

  predicate Mergeable(rows: map<nat, Row>, winner: nat, duplicates: seq<nat>) {
    && winner in rows && rows[winner].mergedInto == None
    && forall i :: 0 <= i < |duplicates| ==> Foldable(rows, winner, duplicates[i])
  }

  lemma FoldingKeepsFoldable(rows: map<nat, Row>, winner: nat, d: nat, x: nat)
    requires Foldable(rows, winner, d)
    ensures Foldable(rows[d := MergedRow(rows[d], winner)], winner, x) <==> Foldable(rows, winner, x)
  {}

  lemma {:induction false} MergeEachGoesThrough(rows: map<nat, Row>, winner: nat, duplicates: seq<nat>)
    ensures MergeEach(rows, winner, duplicates).Some? <==>
      forall i :: 0 <= i < |duplicates| ==> Foldable(rows, winner, duplicates[i])
    decreases |duplicates|
  {
    if duplicates != [] {
      var d, rest := duplicates[0], duplicates[1..];
      if Foldable(rows, winner, d) {
        var next := if rows[d].status.Merged? then rows else rows[d := MergedRow(rows[d], winner)];
        MergeEachGoesThrough(next, winner, rest);
        forall x: nat ensures Foldable(next, winner, x) <==> Foldable(rows, winner, x) {
          FoldingKeepsFoldable(rows, winner, d, x);
        }
        assert forall i :: 0 <= i < |rest| ==> rest[i] == duplicates[i + 1];
        assert forall i :: 0 < i < |duplicates| ==> duplicates[i] == rest[i - 1];
      }
    }
  }

  /** All duplicates are folded into the winner, or, when one may not be, none. */
  lemma MergeEffect(s: State, winner: nat, duplicates: seq<nat>)
    ensures var t := Apply(s, Merge(winner, duplicates));
      if Mergeable(s.rows, winner, duplicates) then
        && t == s.(rows := t.rows) && t.rows.Keys == s.rows.Keys
        && forall id :: id in s.rows ==>
             t.rows[id] == if id in duplicates && s.rows[id].status != Merged
                           then s.rows[id].(mergedInto := Some(winner), status := Merged) else s.rows[id]
      else t == s
  {
    if winner in s.rows && s.rows[winner].mergedInto == None {
      MergeEachGoesThrough(s.rows, winner, duplicates);
      if MergeEach(s.rows, winner, duplicates).Some? {
        MergeEachShape(s.rows, winner, duplicates);
      }
    }
  }
}
