/** The review tables as the code updates them; each method is one transaction and equals one event. What the events
    keep beyond the structure is said in `ReviewLaws` about the value `Model()`. */
module ReviewTables {
  import opened Common
  import opened Review
  import opened ReviewEffects
  import opened ReviewStructure
  import opened Values

  class ReviewStore {
    var rows: map<nat, Row>
    var matches: map<nat, Match>
    var txs: seq<Tx>
    var nextRow: nat
    var nextMatch: nat

    ghost function Model(): State
      reads this
    {
      State(rows, matches, txs, nextRow, nextMatch)
    }

    ghost predicate Valid()
      reads this
    {
      Struct(Model())
    }

    constructor ()
      ensures Valid() && Model() == EMPTY
    {
      rows, matches, txs, nextRow, nextMatch := map[], map[], [], 0, 0;
      new;
      assert Ranked(map[], map[]);
    }

    /** `save_once`. */
    method SaveTransactionOnce(origin: Origin) returns (tx: nat, created: bool)
      modifies this`txs
      ensures txs == SaveOnce(old(txs), origin).txs && tx == SaveOnce(old(txs), origin).tx
      ensures created <==> forall t :: 0 <= t < |old(txs)| ==> old(txs)[t].origin != origin
    {
      var existing := FindOrigin(txs, origin);
      created := existing.None?;
      if created {
        tx := |txs|;
        txs := txs + [Tx(origin, false)];
      } else {
        tx := existing.value;
      }
    }

    method AcceptObservation(id: nat, account: Option<nat>, allowed: bool) returns (accepted: Option<nat>)
      requires Valid()
      modifies this
      ensures Valid() && Model() == Apply(old(Model()), Accept(id, account, allowed))
      ensures accepted.Some? <==> id in rows && rows[id].tx.Some?
      ensures accepted.Some? ==> accepted == rows[id].tx
    {
      AcceptStruct(Model(), id, account, allowed);
      accepted := None;
      if id in rows {
        var row := rows[id];
        if row.tx.Some? {
          return row.tx;
        }
        if !Resolved(row) && allowed && (account.Some? || row.facts.account.Some?) && row.facts.usable {
          var tx, created := SaveTransactionOnce(FromRow(id));
          rows := rows[id := row.(tx := Some(tx), status := if row.corrected then Corrected else Accepted)];
          accepted := Some(tx);
        }
      }
    }

    method RejectObservation(id: nat) returns (ok: bool)
      requires Valid()
      modifies this
      ensures Valid() && Model() == Apply(old(Model()), Reject(id))
      ensures ok <==> Rejectable(old(Model()), id)
      ensures ok ==> OnlyRowsChange(old(Model()), Model(), {id}) && rows[id] == old(rows)[id].(status := Rejected)
      ensures !ok ==> Model() == old(Model())
    {
      RejectStruct(Model(), id);
      RejectEffect(Model(), id);
      ok := false;
      if id in rows && rows[id].tx.None? {
        var saved := rows;
        rows := rows[id := rows[id].(status := Rejected)];
        ok := RowChecks(rows[id]);
        if !ok {
          // A row that still names its winner may not say it is rejected: the constraint rolls back.
          rows := saved;
        }
      }
      assert id in rows ==> RowOk(rows, rows[id]);
      assert id in old(rows) && old(rows)[id].status.Rejected? ==> old(rows)[id := old(rows)[id]] == old(rows);
    }

    method CorrectObservation(id: nat, facts: Facts) returns (changed: bool)
      requires Valid()
      modifies this
      ensures Valid() && Model() == Apply(old(Model()), Correct(id, facts))
      ensures changed <==> Model() != old(Model())
    {
      CorrectStruct(Model(), id, facts);
      changed := id in rows && !Resolved(rows[id]) && rows[id].facts != facts;
      if changed {
        rows := rows[id := rows[id].(facts := facts, corrected := true, status := Corrected)];
        assert rows[id] != old(rows)[id];
      }
    }

    /** The loop over the duplicates; an error undoes the ones before it. */
    method MergeObservations(winner: nat, duplicates: seq<nat>) returns (ok: bool)
      modifies this`rows
      ensures ok <==> MergeInto(old(rows), winner, duplicates).Some?
      ensures rows == if ok then MergeInto(old(rows), winner, duplicates).value else old(rows)
    {
      ok := false;
      if winner !in rows || rows[winner].mergedInto.Some? {
        return;
      }
      var saved := rows;
      var i := 0;
      while i < |duplicates|
        invariant 0 <= i <= |duplicates|
        invariant MergeEach(saved, winner, duplicates) == MergeEach(rows, winner, duplicates[i..])
      {
        var d := duplicates[i];
        if d == winner || d !in rows || rows[d].tx.Some?
           || (rows[d].status.Merged? && rows[d].mergedInto != Some(winner)) {
          rows := saved;
          return;
        }
        if !rows[d].status.Merged? {
          rows := rows[d := rows[d].(mergedInto := Some(winner), status := Merged)];
        }
        i := i + 1;
      }
      ok := true;
    }

    method RecordCandidate(a: nat, b: nat, kind: Kind, manual: bool)
      requires Valid()
      modifies this
      ensures Valid() && Model() == Apply(old(Model()), Propose(a, b, kind, manual))
    {
      RecordStruct(Model(), a, b, kind, manual);
      if a == b || a !in rows || b !in rows {
        return;
      }
      var existing := FindMatch(matches, Least(a, b), Greatest(a, b), kind, nextMatch);
      if existing.None? {
        matches := matches[nextMatch := Match(Least(a, b), Greatest(a, b), kind, Proposed)];
        nextMatch := nextMatch + 1;
      } else if manual && matches[existing.value].status.Dismissed? {
        matches := matches[existing.value := matches[existing.value].(status := Proposed)];
      }
      assert Model() == RecordMatch(old(Model()), a, b, kind, manual);
    }

    method ConfirmDuplicateMatch(m: nat, winner: nat) returns (ok: bool)
      requires Valid()
      modifies this
      ensures Valid() && Model() == Apply(old(Model()), ConfirmPair(m, winner))
      ensures ok ==> m in matches && matches[m].status.Confirmed?
    {
      ConfirmDuplicateStruct(Model(), m, winner);
      ok := false;
      if m in matches && matches[m].kind.Duplicate? && (winner == matches[m].left || winner == matches[m].right)
         && matches[m].status.Proposed? {
        var loser := if winner == matches[m].left then matches[m].right else matches[m].left;
        ok := MergeObservations(winner, [loser]);
        if ok {
          matches := matches[m := matches[m].(status := Confirmed)];
        }
      }
    }

    method ConfirmInternalTransfer(m: nat, valid: bool) returns (ok: bool)
      requires Valid()
      modifies this
      ensures Valid() && Model() == Apply(old(Model()), MakeTransfer(m, valid))
      ensures ok <==> CanTransfer(old(Model()), m, valid)
    {
      TransferStruct(Model(), m, valid);
      ok := CanTransfer(State(rows, matches, txs, nextRow, nextMatch), m, valid);
      if ok {
        var sides := SplitSides(State(rows, matches, txs, nextRow, nextMatch), matches[m], Debit, Credit).value;
        var tx, created := SaveTransactionOnce(FromTransfer(m));
        rows := rows[sides.0 := Linked(rows[sides.0], tx)];
        rows := rows[sides.1 := Linked(rows[sides.1], tx)];
        matches := matches[m := matches[m].(status := Confirmed)];
      }
    }

    /** The loop over the other purchases the refund was paired with. */
    method DismissCompetingCandidates(confirmed: nat, refund: nat)
      requires forall x :: x in matches ==> x < nextMatch
      modifies this`matches
      ensures matches == DismissCompeting(old(matches), confirmed, refund)
    {
      var n := 0;
      while n < nextMatch
        invariant 0 <= n <= nextMatch && matches.Keys == old(matches).Keys
        invariant forall x :: x in matches ==>
          matches[x] == if x < n then DismissCompeting(old(matches), confirmed, refund)[x] else old(matches)[x]
      {
        if n in matches && n != confirmed && Competes(matches[n], refund) {
          matches := matches[n := matches[n].(status := Dismissed)];
        }
        n := n + 1;
      }
    }

    method ConfirmRefundMatch(m: nat, valid: bool) returns (ok: bool)
      requires Valid()
      modifies this
      ensures Valid() && Model() == Apply(old(Model()), MakeRefund(m, valid))
      ensures ok <==> CanRefund(old(Model()), m, valid)
    {
      RefundStruct(Model(), m, valid);
      ok := CanRefund(State(rows, matches, txs, nextRow, nextMatch), m, valid);
      if ok {
        var refund := SplitSides(State(rows, matches, txs, nextRow, nextMatch), matches[m], Credit, Debit).value.0;
        var tx, created := SaveTransactionOnce(FromRefund(m));
        rows := rows[refund := Linked(rows[refund], tx)];
        matches := matches[m := matches[m].(status := Confirmed)];
        DismissCompetingCandidates(m, refund);
      }
    }

    /** `_release_observations`: every row that fed the transaction goes back into the queue. */
    method ReleaseObservations(t: nat)
      requires forall id :: id in rows ==> id < nextRow
      modifies this`rows
      ensures rows == map id | id in old(rows) :: Released(old(rows)[id], t)
    {
      var n := 0;
      while n < nextRow
        invariant 0 <= n <= nextRow && rows.Keys == old(rows).Keys
        invariant forall id :: id in rows ==>
          rows[id] == if id < n then Released(old(rows)[id], t) else old(rows)[id]
      {
        if n in rows && rows[n].tx == Some(t) {
          rows := rows[n := rows[n].(tx := None, status := Unreviewed)];
        }
        n := n + 1;
      }
    }

    method DeleteTransactionById(t: nat) returns (ok: bool)
      requires Valid()
      modifies this
      ensures Valid() && Model() == Apply(old(Model()), DeleteTransaction(t))
      ensures ok <==> t < |old(txs)| && !old(txs)[t].voided
    {
      DeleteStruct(Model(), t);
      ok := t < |txs| && !txs[t].voided;
      if ok {
        txs := txs[t := txs[t].(voided := true)];
        ReleaseObservations(t);
        assert rows == DeleteTx(old(Model()), t).rows;
      }
      assert Model() == DeleteTx(old(Model()), t);
    }

    /** `leftFirst` says which of the two rows the query returns first. */
    method UnlinkConfirmedMatch(m: nat, leftFirst: bool) returns (ok: bool)
      requires Valid()
      modifies this
      ensures Valid() && Model() == Apply(old(Model()), UnlinkMatch(m, leftFirst))
      ensures ok <==> CanUnlink(old(Model()), m, leftFirst)
    {
      UnlinkStruct(Model(), m, leftFirst);
      ok := false;
      if m !in matches || !matches[m].status.Confirmed? {
        return;
      }
      var pair := matches[m];
      assert MatchOk(Model(), m, pair);
      var undo := ToUndo(State(rows, matches, txs, nextRow, nextMatch), pair, leftFirst);
      if undo.None? {
        return;
      }
      ok := true;
      if undo.value.Some? {
        ok := DeleteTransactionById(undo.value.value);
      }
      if ok {
        rows := rows[pair.left := Unmerged(rows[pair.left], pair.left, pair.right)]
                    [pair.right := Unmerged(rows[pair.right], pair.left, pair.right)];
        matches := matches[m := matches[m].(status := Dismissed)];
      }
    }

    /** `_replace_prior_open_observations`, with what the database does to the rows and matches that referred
        to the deleted ones. */
    method ReplacePriorOpen(doc: nat, run: Option<nat>) returns (replaced: nat)
      modifies this
      ensures Model() == Kept(old(Model()), doc, run)
      ensures replaced == |set id | id in old(rows) && Replaced(old(rows)[id], doc, run)|
    {
      var candidates := set id | id in rows && Replaced(rows[id], doc, run);
      var before := rows;
      replaced := |candidates|;
      rows := map id | id in before && id !in candidates :: Detached(before, before[id], doc, run);
      matches := map m | m in matches && matches[m].left !in candidates && matches[m].right !in candidates ::
        matches[m];
    }

    /** A unique import key that is taken rolls the whole import back. */
    method ImportParserSelection(doc: nat, run: Option<nat>, parser: nat, parsed: seq<Facts>) returns (created: bool)
      requires Valid()
      modifies this
      ensures Valid() && Model() == Apply(old(Model()), ImportRows(doc, run, parser, parsed))
      ensures created <==> CanImport(old(Model()), doc, run, parser, |parsed|)
    {
      StructStep(Model(), ImportRows(doc, run, parser, parsed));
      created := !AlreadyImported(State(rows, matches, txs, nextRow, nextMatch), run, parser);
      if created {
        var savedRows, savedMatches := rows, matches;
        var replaced := ReplacePriorOpen(doc, run);
        if run.None? && exists id :: id in rows && SameKey(rows[id], doc, parser, |parsed|) {
          assert Collides(old(Model()), doc, run, parser, |parsed|);
          rows, matches, created := savedRows, savedMatches, false;
          return;
        }
        assert !Collides(old(Model()), doc, run, parser, |parsed|) by {
          assert forall id :: id in rows <==> id in savedRows && !Replaced(savedRows[id], doc, run);
        }
        var i := 0;
        while i < |parsed|
          invariant 0 <= i <= |parsed|
          invariant AddRows(Model(), doc, run, parser, i, parsed[i..])
                 == Apply(old(Model()), ImportRows(doc, run, parser, parsed))
        {
          rows := rows[nextRow := NewRow(doc, run, parser, i, parsed[i])];
          nextRow := nextRow + 1;
          assert parsed[i..][1..] == parsed[i + 1..];
          i := i + 1;
        }
      }
    }
  }
}
