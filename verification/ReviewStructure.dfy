/** What every event of review and reconciliation keeps about rows, matches and merges, whatever came before. */
module ReviewStructure {
  import opened Common
  import opened Review

  // ---- The structure ----

  /** A row that names a winner holds no transaction and says it is merged; a holder is accepted or corrected. */
  predicate RowOk(rows: map<nat, Row>, r: Row) {
    && RowChecks(r)
    && (r.tx.Some? ==> r.status.Accepted? || r.status.Corrected?)
    && (r.mergedInto.Some? ==> r.mergedInto.value in rows)
  }

  predicate RowsOk(rows: map<nat, Row>, nextRow: nat) {
    forall id :: id in rows ==> id < nextRow && RowOk(rows, rows[id])
  }

  predicate MatchOk(s: State, m: nat, x: Match) {
    m < s.nextMatch && x.left < x.right && x.left in s.rows && x.right in s.rows
  }

  predicate MatchesOk(s: State) {
    forall m :: m in s.matches ==> MatchOk(s, m, s.matches[m])
  }

  /** A rank that every merge climbs. */
  predicate Ranked(rows: map<nat, Row>, rank: map<nat, nat>) {
    forall id :: id in rows ==>
      id in rank && (rows[id].mergedInto.Some? ==> Climbs(rank, id, rows[id].mergedInto.value))
  }

  predicate Climbs(rank: map<nat, nat>, a: nat, b: nat) { a in rank && b in rank && rank[a] < rank[b] }

  ghost predicate Acyclic(rows: map<nat, Row>) {
    exists rank :: Ranked(rows, rank)
  }

  ghost predicate Struct(s: State) {
    RowsOk(s.rows, s.nextRow) && MatchesOk(s) && Acyclic(s.rows)
  }

  // ---- Events that point no row anywhere new ----

  /** Merge targets after are merge targets before. */
  predicate FewerMerges(before: map<nat, Row>, after: map<nat, Row>) {
    forall id :: id in after && after[id].mergedInto.Some? ==>
      id in before && before[id].mergedInto == after[id].mergedInto
  }

  predicate SamePairs(before: map<nat, Match>, after: map<nat, Match>) {
    forall m :: m in after ==> m in before && before[m].left == after[m].left && before[m].right == after[m].right
  }

  lemma AcyclicKept(before: map<nat, Row>, after: map<nat, Row>)
    requires Acyclic(before) && after.Keys <= before.Keys && FewerMerges(before, after)
    ensures Acyclic(after)
  {
    var rank :| Ranked(before, rank);
    assert Ranked(after, rank);
  }

  lemma StructKept(s: State, t: State)
    requires Struct(s) && t.rows.Keys == s.rows.Keys && t.nextRow == s.nextRow && t.nextMatch == s.nextMatch
    requires SamePairs(s.matches, t.matches) && FewerMerges(s.rows, t.rows)
    requires forall id :: id in t.rows ==> RowOk(s.rows, t.rows[id])
    ensures Struct(t)
  {
    AcyclicKept(s.rows, t.rows);
    forall m | m in t.matches ensures MatchOk(t, m, t.matches[m]) {
      assert MatchOk(s, m, s.matches[m]);
    }
  }

  // ---- Merging ----

  lemma RankBound(rank: map<nat, nat>) returns (bound: nat)
    ensures forall id :: id in rank ==> rank[id] < bound
  {
    bound := 0;
    var rest := rank.Keys;
    while rest != {}
      invariant rest <= rank.Keys && forall id :: id in rank && id !in rest ==> rank[id] < bound
      decreases |rest|
    {
      var id :| id in rest;
      rest := rest - {id};
      bound := if rank[id] < bound then bound else rank[id] + 1;
    }
  }

  /** Pointing a row at one that itself points nowhere closes no cycle. */
  lemma MergeStaysAcyclic(rows: map<nat, Row>, d: nat, winner: nat)
    requires Acyclic(rows) && d in rows && winner in rows && d != winner && rows[winner].mergedInto.None?
    ensures Acyclic(rows[d := MergedRow(rows[d], winner)])
  {
    var rank :| Ranked(rows, rank);
    var top := RankBound(rank);
    assert Ranked(rows[d := MergedRow(rows[d], winner)], rank[winner := top]);
  }

  lemma {:induction false} MergeEachStruct(rows: map<nat, Row>, nextRow: nat, winner: nat, duplicates: seq<nat>)
    requires RowsOk(rows, nextRow) && Acyclic(rows) && winner in rows && rows[winner].mergedInto.None?
    requires MergeEach(rows, winner, duplicates).Some?
    ensures var after := MergeEach(rows, winner, duplicates).value;
      RowsOk(after, nextRow) && Acyclic(after) && after.Keys == rows.Keys
    decreases |duplicates|
  {
    if duplicates != [] {
      var d := duplicates[0];
      if rows[d].status.Merged? {
        MergeEachStruct(rows, nextRow, winner, duplicates[1..]);
      } else {
        MergeStaysAcyclic(rows, d, winner);
        MergeEachStruct(rows[d := MergedRow(rows[d], winner)], nextRow, winner, duplicates[1..]);
      }
    }
  }

  lemma MergeStruct(s: State, winner: nat, duplicates: seq<nat>, matches: map<nat, Match>)
    requires Struct(s) && MergeInto(s.rows, winner, duplicates).Some? && SamePairs(s.matches, matches)
    ensures Struct(s.(rows := MergeInto(s.rows, winner, duplicates).value, matches := matches))
  {
    MergeEachStruct(s.rows, s.nextRow, winner, duplicates);
    forall m | m in matches ensures MatchOk(s, m, matches[m]) {
      assert MatchOk(s, m, s.matches[m]);
    }
  }

  lemma ConfirmDuplicateStruct(s: State, m: nat, winner: nat)
    requires Struct(s)
    ensures Struct(ConfirmDuplicate(s, m, winner))
  {
    if ConfirmDuplicate(s, m, winner) != s {
      var loser := if winner == s.matches[m].left then s.matches[m].right else s.matches[m].left;
      MergeStruct(s, winner, [loser], s.matches[m := s.matches[m].(status := Confirmed)]);
    }
  }

  // ---- Linking and undoing ----

  lemma AcceptStruct(s: State, id: nat, account: Option<nat>, allowed: bool)
    requires Struct(s)
    ensures Struct(AcceptRow(s, id, account, allowed))
  {
    if CanAccept(s, id, account, allowed) {
      StructKept(s, AcceptRow(s, id, account, allowed));
    }
  }

  lemma TransferStruct(s: State, m: nat, valid: bool)
    requires Struct(s)
    ensures Struct(ConfirmTransfer(s, m, valid))
  {
    if CanTransfer(s, m, valid) {
      StructKept(s, ConfirmTransfer(s, m, valid));
    }
  }

  lemma RefundStruct(s: State, m: nat, valid: bool)
    requires Struct(s)
    ensures Struct(ConfirmRefund(s, m, valid))
  {
    if CanRefund(s, m, valid) {
      StructKept(s, ConfirmRefund(s, m, valid));
    }
  }

  lemma DeleteStruct(s: State, t: nat)
    requires Struct(s)
    ensures Struct(DeleteTx(s, t))
  {
    if InForce(s.txs, t) {
      StructKept(s, DeleteTx(s, t));
    }
  }

  lemma UnmergeStruct(s: State, left: nat, right: nat)
    requires Struct(s) && left in s.rows && right in s.rows
    ensures Struct(UnmergePair(s, left, right))
  {
    StructKept(s, UnmergePair(s, left, right));
  }

  lemma StatusStruct(s: State, m: nat, status: MatchStatus)
    requires Struct(s) && m in s.matches
    ensures Struct(SetMatch(s, m, status))
  {
    StructKept(s, SetMatch(s, m, status));
  }

  lemma UnlinkStruct(s: State, m: nat, leftFirst: bool)
    requires Struct(s)
    ensures Struct(Unlink(s, m, leftFirst))
  {
    if CanUnlink(s, m, leftFirst) {
      var x := s.matches[m];
      var undo := ToUndo(s, x, leftFirst).value;
      var t := if undo.Some? then DeleteTx(s, undo.value) else s;
      if undo.Some? {
        DeleteStruct(s, undo.value);
      }
      StatusStruct(t, m, Dismissed);
      UnmergeStruct(SetMatch(t, m, Dismissed), x.left, x.right);
    }
  }

  // ---- Rejecting, correcting, proposing ----

  lemma RowChangeStruct(s: State, id: nat, r: Row)
    requires Struct(s) && id in s.rows && RowOk(s.rows, r) && r.mergedInto == s.rows[id].mergedInto
    ensures Struct(s.(rows := s.rows[id := r]))
  {
    StructKept(s, s.(rows := s.rows[id := r]));
  }

  lemma RejectStruct(s: State, id: nat)
    requires Struct(s)
    ensures Struct(RejectRow(s, id))
  {
    if RejectRow(s, id) != s {
      RowChangeStruct(s, id, s.rows[id].(status := Rejected));
    }
  }

  lemma CorrectStruct(s: State, id: nat, facts: Facts)
    requires Struct(s)
    ensures Struct(CorrectRow(s, id, facts))
  {
    if CorrectRow(s, id, facts) != s {
      RowChangeStruct(s, id, s.rows[id].(facts := facts, corrected := true, status := Corrected));
    }
  }

  lemma RecordStruct(s: State, a: nat, b: nat, kind: Kind, manual: bool)
    requires Struct(s)
    ensures Struct(RecordMatch(s, a, b, kind, manual))
  {
    var t := RecordMatch(s, a, b, kind, manual);
    forall m | m in t.matches ensures MatchOk(t, m, t.matches[m]) {
      assert m in s.matches ==> MatchOk(s, m, s.matches[m]);
    }
  }

  // ---- Importing ----

  lemma KeptStruct(s: State, doc: nat, run: Option<nat>)
    requires Struct(s)
    ensures Struct(Kept(s, doc, run))
  {
    var t := Kept(s, doc, run);
    AcyclicKept(s.rows, t.rows);
    forall id | id in t.rows ensures RowOk(t.rows, t.rows[id]) {
      assert RowOk(s.rows, s.rows[id]);
    }
    forall m | m in t.matches ensures MatchOk(t, m, t.matches[m]) {
      assert MatchOk(s, m, s.matches[m]) && !Touches(s.rows, s.matches[m], doc, run);
    }
  }

  lemma AddRowStruct(s: State, r: Row)
    requires Struct(s) && r.tx.None? && r.mergedInto.None?
    ensures Struct(AddRow(s, r))
  {
    var t := AddRow(s, r);
    assert s.nextRow !in s.rows;
    var rank :| Ranked(s.rows, rank);
    assert Ranked(t.rows, if s.nextRow in rank then rank else rank[s.nextRow := 0]);
    forall id | id in t.rows ensures RowOk(t.rows, t.rows[id]) {
      assert id in s.rows ==> RowOk(s.rows, s.rows[id]);
    }
    forall m | m in t.matches ensures MatchOk(t, m, t.matches[m]) {
      assert MatchOk(s, m, s.matches[m]);
    }
  }

  lemma {:induction false} AddRowsStruct(s: State, doc: nat, run: Option<nat>, parser: nat, index: nat,
                                         parsed: seq<Facts>)
    requires Struct(s)
    ensures Struct(AddRows(s, doc, run, parser, index, parsed))
    decreases |parsed|
  {
    if parsed != [] {
      var r := NewRow(doc, run, parser, index, parsed[0]);
      AddRowStruct(s, r);
      AddRowsStruct(AddRow(s, r), doc, run, parser, index + 1, parsed[1..]);
    }
  }

  // ---- Every event ----

  lemma StructStep(s: State, e: Event)
    requires Struct(s)
    ensures Struct(Apply(s, e))
  {
    match e
    case ImportRows(doc, run, parser, parsed) =>
      KeptStruct(s, doc, run);
      AddRowsStruct(Kept(s, doc, run), doc, run, parser, 0, parsed);
    case Accept(id, account, allowed) => AcceptStruct(s, id, account, allowed);
    case Reject(id) => RejectStruct(s, id);
    case Correct(id, facts) => CorrectStruct(s, id, facts);
    case Merge(winner, duplicates) =>
      if MergeInto(s.rows, winner, duplicates).Some? { MergeStruct(s, winner, duplicates, s.matches); }
    case Propose(a, b, kind, manual) => RecordStruct(s, a, b, kind, manual);
    case ConfirmPair(m, winner) => ConfirmDuplicateStruct(s, m, winner);
    case MergeAutomatically(m) =>
      if AutoMerge(s, m) != s { ConfirmDuplicateStruct(s, m, Least(s.matches[m].left, s.matches[m].right)); }
    case ConfirmRelation(m) => if ConfirmRelated(s, m) != s { StatusStruct(s, m, Confirmed); }
    case Dismiss(m) => if DismissMatch(s, m) != s { StatusStruct(s, m, Dismissed); }
    case MakeTransfer(m, valid) => TransferStruct(s, m, valid);
    case MakeRefund(m, valid) => RefundStruct(s, m, valid);
    case UnlinkMatch(m, leftFirst) => UnlinkStruct(s, m, leftFirst);
    case DeleteTransaction(t) => DeleteStruct(s, t);
  }
}
