/** Where review and reconciliation do less than their comments say, and exactly when; `ReviewHistories` has an
    input for each. */
module ReviewFindings {
  import opened Common
  import opened Review
  import opened ReviewCounts
  import opened ReviewLaws
  import opened ReviewStructure

  // ---- Accepting again after a deletion ----

  /** Accepting a row links it to a voided transaction, so that it counts nowhere, exactly when the row's key
      was used before. */
  lemma AcceptLinksVoidedIff(s: State, id: nat, account: Option<nat>, allowed: bool)
    requires Inv(s) && CanAccept(s, id, account, allowed)
    ensures var t := AcceptRow(s, id, account, allowed);
      && t.rows[id].tx.Some? && t.rows[id].tx.value < |t.txs|
      && (t.txs[t.rows[id].tx.value].voided <==> HasKey(s.txs, FromRow(id)))
  {
    AcceptLinks(s, id, account, allowed);
    LookUp(s.txs, FromRow(id));
  }

  /** The same for a transfer: confirming it again after its transaction was voided links both rows to the voided
      one. */
  lemma TransferLinksVoidedIff(s: State, m: nat, valid: bool)
    requires Inv(s) && CanTransfer(s, m, valid)
    ensures var t := ConfirmTransfer(s, m, valid);
      && Sides(s, m).0 in t.rows && Sides(s, m).1 in t.rows
      && var tx := t.rows[Sides(s, m).0].tx;
         && tx.Some? && tx.value < |t.txs| && t.rows[Sides(s, m).1].tx == tx
         && (t.txs[tx.value].voided <==> HasKey(s.txs, FromTransfer(m)))
  {
    TransferLinks(s, m, valid);
    LookUp(s.txs, FromTransfer(m));
  }

  /** And for a refund. */
  lemma RefundLinksVoidedIff(s: State, m: nat, valid: bool)
    requires Inv(s) && CanRefund(s, m, valid)
    ensures var t := ConfirmRefund(s, m, valid);
      && RefundSide(s, m) in t.rows
      && var tx := t.rows[RefundSide(s, m)].tx;
         && tx.Some? && tx.value < |t.txs|
         && (t.txs[tx.value].voided <==> HasKey(s.txs, FromRefund(m)))
  {
    RefundLinks(s, m, valid);
    LookUp(s.txs, FromRefund(m));
  }

  lemma LookUp(txs: seq<Tx>, origin: Origin)
    ensures SaveOnce(txs, origin).tx < |txs| <==> HasKey(txs, origin)
    ensures SaveOnce(txs, origin).tx < |SaveOnce(txs, origin).txs|
    ensures !HasKey(txs, origin) ==> SaveOnce(txs, origin).txs == txs + [Tx(origin, false)]
  {
    assert FindOrigin(txs, origin).Some? <==> HasKey(txs, origin);
  }

  // ---- Chains of merges ----

  predicate Chained(rows: map<nat, Row>) {
    exists id :: id in rows && rows[id].mergedInto.Some? && rows[id].mergedInto.value in rows
                 && rows[rows[id].mergedInto.value].mergedInto.Some?
  }

  predicate HasMergedIn(rows: map<nat, Row>, d: nat) {
    exists id :: id in rows && rows[id].mergedInto == Some(d)
  }

  predicate FoldedNow(rows: map<nat, Row>, duplicates: seq<nat>, id: nat) {
    id in duplicates && id in rows && !rows[id].status.Merged?
  }

  lemma {:induction false} MergeEachShape(rows: map<nat, Row>, winner: nat, duplicates: seq<nat>)
    requires winner in rows && MergeEach(rows, winner, duplicates).Some?
    ensures var after := MergeEach(rows, winner, duplicates).value;
      && winner !in duplicates && after.Keys == rows.Keys
      && forall id :: id in rows ==>
           after[id] == if FoldedNow(rows, duplicates, id) then MergedRow(rows[id], winner) else rows[id]
    decreases |duplicates|
  {
    if duplicates != [] {
      var d, rest := duplicates[0], duplicates[1..];
      var next := if rows[d].status.Merged? then rows else rows[d := MergedRow(rows[d], winner)];
      MergeEachShape(next, winner, rest);
      assert duplicates == [d] + rest;
    }
  }

  /** A merge builds a chain exactly when it folds away a row that other rows were merged into. */
  lemma MergeChainsIff(s: State, winner: nat, duplicates: seq<nat>)
    requires Struct(s) && MergeInto(s.rows, winner, duplicates).Some? && !Chained(s.rows)
    ensures Chained(MergeRows(s, winner, duplicates).rows) <==>
      exists d :: FoldedNow(s.rows, duplicates, d) && HasMergedIn(s.rows, d)
  {
    MergeEachShape(s.rows, winner, duplicates);
    var after := MergeRows(s, winner, duplicates).rows;
    if d: nat :| FoldedNow(s.rows, duplicates, d) && HasMergedIn(s.rows, d) {
      var id :| id in s.rows && s.rows[id].mergedInto == Some(d);
      assert RowOk(s.rows, s.rows[id]);
      assert after[id].mergedInto == Some(d) && after[d].mergedInto == Some(winner);
    }
    if Chained(after) {
      var id :| id in after && after[id].mergedInto.Some? && after[id].mergedInto.value in after
                && after[after[id].mergedInto.value].mergedInto.Some?;
      var w := after[id].mergedInto.value;
      assert !FoldedNow(s.rows, duplicates, id) && s.rows[id].mergedInto == Some(w);
      assert FoldedNow(s.rows, duplicates, w) && HasMergedIn(s.rows, w);
    }
  }

  // ---- Merged rows without a winner ----

  /** Merged into a row that no longer exists. */
  predicate Orphan(rows: map<nat, Row>, id: nat) {
    id in rows && rows[id].status.Merged? && rows[id].mergedInto.None?
  }

  lemma {:induction false} AddRowsKeepsOld(s: State, doc: nat, run: Option<nat>, parser: nat, index: nat,
                                           parsed: seq<Facts>, id: nat)
    requires id in s.rows && id < s.nextRow
    ensures var t := AddRows(s, doc, run, parser, index, parsed); id in t.rows && t.rows[id] == s.rows[id]
    decreases |parsed|
  {
    if parsed != [] {
      AddRowsKeepsOld(AddRow(s, NewRow(doc, run, parser, index, parsed[0])), doc, run, parser, index + 1, parsed[1..],
                      id);
    }
  }

  /** A new pass over a document orphans a merged row exactly when it goes through and the row it was merged into is
      still open and comes from an earlier pass over that document. */
  lemma ImportOrphansIff(s: State, doc: nat, run: Option<nat>, parser: nat, parsed: seq<Facts>, id: nat)
    requires Struct(s) && id in s.rows && s.rows[id].mergedInto.Some?
    ensures var w := s.rows[s.rows[id].mergedInto.value];
      Orphan(Import(s, doc, run, parser, parsed).rows, id) <==>
        && CanImport(s, doc, run, parser, |parsed|)
        && w.doc == doc && w.status.Unreviewed? && (run.None? || w.run != run)
  {
    assert RowOk(s.rows, s.rows[id]);
    if CanImport(s, doc, run, parser, |parsed|) {
      assert id in Kept(s, doc, run).rows && Kept(s, doc, run).nextRow == s.nextRow;
      AddRowsKeepsOld(Kept(s, doc, run), doc, run, parser, 0, parsed, id);
    }
  }

  /** An orphan stays out of every report and every queue: no event but its own rejection moves it. */
  lemma OrphanStays(s: State, e: Event, id: nat)
    requires Struct(s) && Orphan(s.rows, id) && e != Reject(id)
    ensures Orphan(Apply(s, e).rows, id)
  {
    assert RowOk(s.rows, s.rows[id]);
    match e
    case ImportRows(doc, run, parser, parsed) =>
      if CanImport(s, doc, run, parser, |parsed|) {
        assert id in Kept(s, doc, run).rows;
        AddRowsKeepsOld(Kept(s, doc, run), doc, run, parser, 0, parsed, id);
      }
    case Merge(winner, duplicates) =>
      if MergeInto(s.rows, winner, duplicates).Some? { MergeEachShape(s.rows, winner, duplicates); }
    case ConfirmPair(m, winner) => ConfirmLeavesOrphan(s, m, winner, id);
    case MergeAutomatically(m) =>
      if AutoMerge(s, m) != s { ConfirmLeavesOrphan(s, m, Least(s.matches[m].left, s.matches[m].right), id); }
    case UnlinkMatch(m, leftFirst) => UnlinkLeavesOrphan(s, m, leftFirst, id);
    case Accept(_, _, _) =>
    case Reject(_) =>
    case Correct(_, _) =>
    case Propose(_, _, _, _) =>
    case ConfirmRelation(_) =>
    case Dismiss(_) =>
    case MakeTransfer(_, _) =>
    case MakeRefund(_, _) =>
    case DeleteTransaction(_) =>
  }

  lemma ConfirmLeavesOrphan(s: State, m: nat, winner: nat, id: nat)
    requires Orphan(s.rows, id)
    ensures Orphan(ConfirmDuplicate(s, m, winner).rows, id)
  {
    if ConfirmDuplicate(s, m, winner) != s {
      MergeEachShape(s.rows, winner, [if winner == s.matches[m].left then s.matches[m].right else s.matches[m].left]);
    }
  }

  lemma UnlinkLeavesOrphan(s: State, m: nat, leftFirst: bool, id: nat)
    requires Struct(s) && Orphan(s.rows, id)
    ensures Orphan(Unlink(s, m, leftFirst).rows, id)
  {
    assert RowOk(s.rows, s.rows[id]) && s.rows[id].tx.None?;
  }

  // ---- What an unlink voids ----

  /** Unlinking a confirmed refund leaves its transaction in force exactly when it picks the other row. */
  lemma UnlinkLeavesRefundIff(s: State, m: nat, leftFirst: bool)
    requires Inv(s) && CanUnlink(s, m, leftFirst)
    ensures (exists t :: 0 <= t < |s.txs| && Unlink(s, m, leftFirst).txs[t] == Tx(FromRefund(m), false)) <==>
      PicksOther(s, m, leftFirst)
  {
    if t :| 0 <= t < |s.txs| && Unlink(s, m, leftFirst).txs[t] == Tx(FromRefund(m), false) {
      UndoHitsTheEvent(s, m, leftFirst, t);
    }
    if PicksOther(s, m, leftFirst) {
      var t := PickedAway(s, m, leftFirst);
    }
  }

  /** A transaction that match m made is in force. */
  predicate OwnInForce(s: State, m: nat) {
    exists t :: 0 <= t < |s.txs| && InForce(s.txs, t) && CameFrom(s.txs[t].origin, m)
  }

  /** An unlink voids the one transaction it undoes. That is another event's exactly when the match's own is not in
      force any more, or the unlink picks the other row of a refund. */
  lemma UnlinkVoidsOtherIff(s: State, m: nat, leftFirst: bool)
    requires Inv(s) && CanUnlink(s, m, leftFirst) && ToUndo(s, s.matches[m], leftFirst).value.Some?
    ensures var u := ToUndo(s, s.matches[m], leftFirst).value.value;
      && Unlink(s, m, leftFirst).txs == s.txs[u := s.txs[u].(voided := true)]
      && (!CameFrom(s.txs[u].origin, m) <==> !OwnInForce(s, m) || PicksOther(s, m, leftFirst))
  {
    if OwnInForce(s, m) {
      var t :| 0 <= t < |s.txs| && InForce(s.txs, t) && CameFrom(s.txs[t].origin, m);
      UndoHitsTheEvent(s, m, leftFirst, t);
      assert TxOk(s, t);
      SameKeySameTx(s, m, t, ToUndo(s, s.matches[m], leftFirst).value.value);
    }
  }

  /** One match makes one transaction. */
  lemma SameKeySameTx(s: State, m: nat, t: nat, u: nat)
    requires Inv(s) && m in s.matches && t < |s.txs| && u < |s.txs|
    requires CameFrom(s.txs[t].origin, m)
    ensures CameFrom(s.txs[u].origin, m) <==> t == u
  {
    assert TxOk(s, t) && TxOk(s, u);
    if CameFrom(s.txs[u].origin, m) {
      assert s.txs[t].origin == s.txs[u].origin;
    }
  }
}
