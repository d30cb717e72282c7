/** What every event of review and reconciliation keeps about transactions and the rows that hold them. */
module ReviewLaws {
  import opened Common
  import opened Review
  import opened ReviewStructure
  import opened Values

  // ---- The invariant ----

  function Holders(rows: map<nat, Row>, t: nat): set<nat> {
    set id | id in rows && rows[id].tx == Some(t)
  }

  /** How many rows one event is made of. */
  function Arity(o: Origin): nat { if o.FromTransfer? then 2 else 1 }

  /** The match a transaction came from, if it did. */
  predicate CameFrom(o: Origin, m: nat) { o == FromTransfer(m) || o == FromRefund(m) }

  predicate OriginOk(s: State, o: Origin) {
    match o
    case FromRow(id) => id < s.nextRow
    case FromTransfer(m) => m < s.nextMatch && (m in s.matches ==> s.matches[m].kind.Transfer?)
    case FromRefund(m) => m < s.nextMatch && (m in s.matches ==> s.matches[m].kind.Refund?)
  }

  predicate KeysUnique(txs: seq<Tx>) {
    forall t, u :: 0 <= t < u < |txs| ==> txs[t].origin != txs[u].origin
  }

  predicate InPair(x: Match, id: nat) { id == x.left || id == x.right }

  /** A row holds only a transaction it is a source of. */
  predicate OwnTx(s: State, id: nat, t: nat) {
    && t < |s.txs|
    && match s.txs[t].origin
       case FromRow(o) => o == id
       case FromTransfer(m) => m in s.matches ==> InPair(s.matches[m], id)
       case FromRefund(m) => m in s.matches ==> InPair(s.matches[m], id)
  }

  /** A transaction in force is held by exactly the rows of its event, and its match is confirmed. */
  ghost predicate TxOk(s: State, t: nat)
    requires t < |s.txs|
  {
    && OriginOk(s, s.txs[t].origin)
    && (!s.txs[t].voided ==>
          && |Holders(s.rows, t)| == Arity(s.txs[t].origin)
          && forall m :: m in s.matches && CameFrom(s.txs[t].origin, m) ==> s.matches[m].status.Confirmed?)
  }

  ghost predicate HeldOk(s: State) {
    && KeysUnique(s.txs)
    && (forall id :: id in s.rows && s.rows[id].tx.Some? ==> OwnTx(s, id, s.rows[id].tx.value))
    && (forall t :: 0 <= t < |s.txs| ==> TxOk(s, t))
  }

  ghost predicate Inv(s: State) { Struct(s) && HeldOk(s) }

  // ---- Events that leave every row's transaction alone ----

  predicate SameHolding(before: map<nat, Row>, after: map<nat, Row>) {
    && (forall id :: id in before && before[id].tx.Some? ==> id in after && after[id].tx == before[id].tx)
    && (forall id :: id in after && after[id].tx.Some? ==> id in before && before[id].tx == after[id].tx)
  }

  /** Matches keep their pair and kind, a confirmed one stays confirmed, and others are new. */
  predicate SameMatches(s: State, after: map<nat, Match>) {
    forall m :: m in after ==> m >= s.nextMatch || (m in s.matches && SamePair(s.matches[m], after[m]))
  }

  predicate SamePair(a: Match, b: Match) {
    a.left == b.left && a.right == b.right && a.kind == b.kind && (a.status.Confirmed? ==> b.status.Confirmed?)
  }

  lemma SameHolders(before: map<nat, Row>, after: map<nat, Row>, t: nat)
    requires SameHolding(before, after)
    ensures Holders(before, t) == Holders(after, t)
  {}

  lemma HeldKept(s: State, t: State)
    requires HeldOk(s) && SameHolding(s.rows, t.rows) && SameMatches(s, t.matches) && t.txs == s.txs
    requires s.nextRow <= t.nextRow && s.nextMatch <= t.nextMatch
    ensures HeldOk(t)
  {
    forall id | id in t.rows && t.rows[id].tx.Some? ensures OwnTx(t, id, t.rows[id].tx.value) {
      assert OwnTx(s, id, s.rows[id].tx.value);
      assert TxOk(s, t.rows[id].tx.value);
    }
    forall u | 0 <= u < |t.txs| ensures TxOk(t, u) {
      assert TxOk(s, u);
      SameHolders(s.rows, t.rows, u);
    }
  }

  lemma {:induction false} MergeEachHolding(rows: map<nat, Row>, winner: nat, duplicates: seq<nat>)
    requires MergeEach(rows, winner, duplicates).Some?
    ensures SameHolding(rows, MergeEach(rows, winner, duplicates).value)
    decreases |duplicates|
  {
    if duplicates != [] {
      var d := duplicates[0];
      var next := if rows[d].status.Merged? then rows else rows[d := MergedRow(rows[d], winner)];
      assert SameHolding(rows, next);
      MergeEachHolding(next, winner, duplicates[1..]);
    }
  }

  lemma MergeKeeps(s: State, winner: nat, duplicates: seq<nat>)
    requires Inv(s)
    ensures Inv(MergeRows(s, winner, duplicates))
  {
    if MergeInto(s.rows, winner, duplicates).Some? {
      MergeStruct(s, winner, duplicates, s.matches);
      MergeEachHolding(s.rows, winner, duplicates);
      HeldKept(s, MergeRows(s, winner, duplicates));
    }
  }

  lemma ConfirmDuplicateKeeps(s: State, m: nat, winner: nat)
    requires Inv(s)
    ensures Inv(ConfirmDuplicate(s, m, winner))
  {
    if ConfirmDuplicate(s, m, winner) != s {
      ConfirmDuplicateStruct(s, m, winner);
      MergeEachHolding(s.rows, winner, [if winner == s.matches[m].left then s.matches[m].right else s.matches[m].left]);
      HeldKept(s, ConfirmDuplicate(s, m, winner));
    }
  }

  lemma AutoMergeKeeps(s: State, m: nat)
    requires Inv(s)
    ensures Inv(AutoMerge(s, m))
  {
    if AutoMerge(s, m) != s {
      ConfirmDuplicateKeeps(s, m, Least(s.matches[m].left, s.matches[m].right));
    }
  }

  lemma RejectKeeps(s: State, id: nat)
    requires Inv(s)
    ensures Inv(RejectRow(s, id))
  {
    RejectStruct(s, id);
    HeldKept(s, RejectRow(s, id));
  }

  lemma CorrectKeeps(s: State, id: nat, facts: Facts)
    requires Inv(s)
    ensures Inv(CorrectRow(s, id, facts))
  {
    CorrectStruct(s, id, facts);
    HeldKept(s, CorrectRow(s, id, facts));
  }

  lemma RecordMatches(s: State, a: nat, b: nat, kind: Kind, manual: bool)
    ensures var t := RecordMatch(s, a, b, kind, manual);
      && t.rows == s.rows && t.txs == s.txs && t.nextRow == s.nextRow && t.nextMatch >= s.nextMatch
      && SameMatches(s, t.matches)
  {}

  lemma RecordKeeps(s: State, a: nat, b: nat, kind: Kind, manual: bool)
    requires Inv(s)
    ensures Inv(RecordMatch(s, a, b, kind, manual))
  {
    RecordStruct(s, a, b, kind, manual);
    RecordMatches(s, a, b, kind, manual);
    HeldKept(s, RecordMatch(s, a, b, kind, manual));
  }

  lemma StatusKeeps(s: State, m: nat, status: MatchStatus)
    requires Inv(s) && m in s.matches && (s.matches[m].status.Confirmed? ==> status.Confirmed?)
    ensures Inv(SetMatch(s, m, status))
  {
    StatusStruct(s, m, status);
    HeldKept(s, SetMatch(s, m, status));
  }

  // ---- Linking a row to its transaction ----

  lemma NobodyHolds(s: State, t: nat)
    requires HeldOk(s) && t >= |s.txs|
    ensures Holders(s.rows, t) == {}
  {
    forall id | id in s.rows ensures s.rows[id].tx != Some(t) {
      assert s.rows[id].tx.Some? ==> OwnTx(s, id, s.rows[id].tx.value);
    }
  }

  /** A key already taken by a row that holds nothing belongs to a voided transaction. */
  lemma TakenKeyIsVoided(s: State, id: nat, t: nat)
    requires HeldOk(s) && id in s.rows && s.rows[id].tx.None? && t < |s.txs| && s.txs[t].origin == FromRow(id)
    ensures s.txs[t].voided
  {
    assert TxOk(s, t);
    forall x | x in s.rows ensures s.rows[x].tx != Some(t) {
      assert s.rows[x].tx.Some? ==> OwnTx(s, x, s.rows[x].tx.value);
    }
    assert Holders(s.rows, t) == {};
  }

  /** A key taken by a match that is not confirmed belongs to a voided transaction. */
  lemma TakenMatchIsVoided(s: State, m: nat, t: nat)
    requires HeldOk(s) && m in s.matches && !s.matches[m].status.Confirmed?
    requires t < |s.txs| && CameFrom(s.txs[t].origin, m)
    ensures s.txs[t].voided
  {
    assert TxOk(s, t);
  }

  /** Rows without a transaction are linked to tx, and no other row changes. */
  predicate RowsLinked(before: map<nat, Row>, after: map<nat, Row>, ids: set<nat>, tx: nat) {
    && after.Keys == before.Keys && ids <= before.Keys
    && (forall id :: id in ids ==> before[id].tx.None? && after[id] == Linked(before[id], tx))
    && (forall id :: id in before && id !in ids ==> after[id] == before[id])
  }

  /** The event of a new or voided key, whose rows are ids and whose match, if any, is confirmed now. */
  predicate EventOk(t: State, ids: set<nat>, origin: Origin, tx: nat) {
    && |ids| == Arity(origin) && OriginOk(t, origin)
    && (forall id :: id in ids ==> OwnTx(t, id, tx))
    && (forall m :: m in t.matches && CameFrom(origin, m) ==> t.matches[m].status.Confirmed?)
  }

  ghost predicate Links(s: State, t: State, ids: set<nat>, origin: Origin) {
    var saved := SaveOnce(s.txs, origin);
    && t.txs == saved.txs && RowsLinked(s.rows, t.rows, ids, saved.tx)
    && t.nextRow == s.nextRow && t.nextMatch == s.nextMatch
    && t.matches.Keys == s.matches.Keys && SameMatches(s, t.matches)
    && (saved.tx < |s.txs| ==> s.txs[saved.tx].voided)
    && EventOk(t, ids, origin, saved.tx)
  }

  lemma LinkedHolders(s: State, t: State, ids: set<nat>, origin: Origin, u: nat)
    requires HeldOk(s) && Links(s, t, ids, origin)
    ensures Holders(t.rows, u)
         == if u == SaveOnce(s.txs, origin).tx then Holders(s.rows, u) + ids else Holders(s.rows, u)
  {}

  lemma LinkedTxOk(s: State, t: State, ids: set<nat>, origin: Origin, u: nat)
    requires HeldOk(s) && Links(s, t, ids, origin) && u < |t.txs|
    ensures TxOk(t, u)
  {
    LinkedHolders(s, t, ids, origin, u);
    if u < |s.txs| {
      assert TxOk(s, u);
    } else {
      NobodyHolds(s, u);
      assert Holders(t.rows, u) == ids;
    }
  }

  lemma LinkKeeps(s: State, t: State, ids: set<nat>, origin: Origin)
    requires HeldOk(s) && Links(s, t, ids, origin)
    ensures HeldOk(t)
  {
    forall u | 0 <= u < |t.txs| ensures TxOk(t, u) {
      LinkedTxOk(s, t, ids, origin, u);
    }
    forall id | id in t.rows && t.rows[id].tx.Some? ensures OwnTx(t, id, t.rows[id].tx.value) {
      if id !in ids {
        assert OwnTx(s, id, s.rows[id].tx.value);
        assert TxOk(s, s.rows[id].tx.value);
      }
    }
  }

  lemma AcceptLinks(s: State, id: nat, account: Option<nat>, allowed: bool)
    requires Inv(s) && CanAccept(s, id, account, allowed)
    ensures Links(s, AcceptRow(s, id, account, allowed), {id}, FromRow(id))
  {
    var saved := SaveOnce(s.txs, FromRow(id));
    if saved.tx < |s.txs| {
      TakenKeyIsVoided(s, id, saved.tx);
    }
  }

  lemma AcceptKeeps(s: State, id: nat, account: Option<nat>, allowed: bool)
    requires Inv(s)
    ensures Inv(AcceptRow(s, id, account, allowed))
  {
    AcceptStruct(s, id, account, allowed);
    if CanAccept(s, id, account, allowed) {
      AcceptLinks(s, id, account, allowed);
      LinkKeeps(s, AcceptRow(s, id, account, allowed), {id}, FromRow(id));
    }
  }

  /** The two rows of a transfer, the debit side first. */
  function Sides(s: State, m: nat): (nat, nat)
    requires m in s.matches && SplitSides(s, s.matches[m], Debit, Credit).Some?
  {
    SplitSides(s, s.matches[m], Debit, Credit).value
  }

  lemma TransferRows(s: State, m: nat, valid: bool)
    requires CanTransfer(s, m, valid) && MatchesOk(s)
    ensures var sides := Sides(s, m);
      && sides.0 != sides.1 && InPair(s.matches[m], sides.0) && InPair(s.matches[m], sides.1)
      && RowsLinked(s.rows, ConfirmTransfer(s, m, valid).rows, {sides.0, sides.1}, SaveOnce(s.txs, FromTransfer(m)).tx)
  {
    assert MatchOk(s, m, s.matches[m]);
  }

  lemma TransferEvent(s: State, m: nat, valid: bool)
    requires CanTransfer(s, m, valid) && MatchesOk(s)
    ensures var t := ConfirmTransfer(s, m, valid);
      && EventOk(t, {Sides(s, m).0, Sides(s, m).1}, FromTransfer(m), SaveOnce(s.txs, FromTransfer(m)).tx)
      && t.matches.Keys == s.matches.Keys && SameMatches(s, t.matches)
  {
    assert MatchOk(s, m, s.matches[m]);
    var sides := Sides(s, m);
    assert |{sides.0, sides.1}| == 2;
  }

  lemma TransferLinks(s: State, m: nat, valid: bool)
    requires Inv(s) && CanTransfer(s, m, valid)
    ensures Links(s, ConfirmTransfer(s, m, valid), {Sides(s, m).0, Sides(s, m).1}, FromTransfer(m))
  {
    TransferRows(s, m, valid);
    TransferEvent(s, m, valid);
    var saved := SaveOnce(s.txs, FromTransfer(m));
    if saved.tx < |s.txs| {
      TakenMatchIsVoided(s, m, saved.tx);
    }
  }

  lemma TransferKeeps(s: State, m: nat, valid: bool)
    requires Inv(s)
    ensures Inv(ConfirmTransfer(s, m, valid))
  {
    TransferStruct(s, m, valid);
    if CanTransfer(s, m, valid) {
      TransferLinks(s, m, valid);
      LinkKeeps(s, ConfirmTransfer(s, m, valid), {Sides(s, m).0, Sides(s, m).1}, FromTransfer(m));
    }
  }

  /** The credit row of a refund. */
  function RefundSide(s: State, m: nat): nat
    requires m in s.matches && SplitSides(s, s.matches[m], Credit, Debit).Some?
  {
    SplitSides(s, s.matches[m], Credit, Debit).value.0
  }

  /** Dismissing the competing candidates touches proposed refund matches only. */
  lemma CompetingShape(matches: map<nat, Match>, m: nat, refund: nat)
    ensures var after := DismissCompeting(matches, m, refund);
      && after.Keys == matches.Keys
      && (forall x :: x in after ==> SamePair(matches[x], after[x]))
      && (forall x :: x in after && after[x].status.Confirmed? ==> after[x] == matches[x])
      && (m in after ==> after[m] == matches[m])
  {}

  lemma RefundShape(s: State, m: nat, valid: bool)
    requires CanRefund(s, m, valid)
    ensures var t := ConfirmRefund(s, m, valid);
      && t.matches.Keys == s.matches.Keys && SameMatches(s, t.matches)
      && t.matches[m] == s.matches[m].(status := Confirmed)
      && (forall x :: x in t.matches && x != m && t.matches[x].status.Confirmed? ==> t.matches[x] == s.matches[x])
  {
    CompetingShape(s.matches[m := s.matches[m].(status := Confirmed)], m, RefundSide(s, m));
  }

  lemma RefundEvent(s: State, m: nat, valid: bool)
    requires CanRefund(s, m, valid) && MatchesOk(s)
    ensures EventOk(ConfirmRefund(s, m, valid), {RefundSide(s, m)}, FromRefund(m), SaveOnce(s.txs, FromRefund(m)).tx)
  {
    assert MatchOk(s, m, s.matches[m]);
    RefundShape(s, m, valid);
  }

  lemma RefundLinks(s: State, m: nat, valid: bool)
    requires Inv(s) && CanRefund(s, m, valid)
    ensures Links(s, ConfirmRefund(s, m, valid), {RefundSide(s, m)}, FromRefund(m))
  {
    RefundShape(s, m, valid);
    RefundEvent(s, m, valid);
    var saved := SaveOnce(s.txs, FromRefund(m));
    if saved.tx < |s.txs| {
      TakenMatchIsVoided(s, m, saved.tx);
    }
  }

  lemma RefundKeeps(s: State, m: nat, valid: bool)
    requires Inv(s)
    ensures Inv(ConfirmRefund(s, m, valid))
  {
    RefundStruct(s, m, valid);
    if CanRefund(s, m, valid) {
      RefundLinks(s, m, valid);
      LinkKeeps(s, ConfirmRefund(s, m, valid), {RefundSide(s, m)}, FromRefund(m));
    }
  }

  // ---- Deleting a transaction ----

  lemma ReleasedHolders(s: State, t: nat, u: nat)
    requires InForce(s.txs, t)
    ensures Holders(DeleteTx(s, t).rows, u) == if u == t then {} else Holders(s.rows, u)
  {}

  lemma DeleteKeeps(s: State, t: nat)
    requires Inv(s)
    ensures Inv(DeleteTx(s, t))
  {
    DeleteStruct(s, t);
    if InForce(s.txs, t) {
      var after := DeleteTx(s, t);
      forall u | 0 <= u < |after.txs| ensures TxOk(after, u) {
        assert TxOk(s, u);
        ReleasedHolders(s, t, u);
      }
      forall id | id in after.rows && after.rows[id].tx.Some? ensures OwnTx(after, id, after.rows[id].tx.value) {
        assert OwnTx(s, id, s.rows[id].tx.value);
      }
    }
  }

  // ---- Unlinking a match ----

  predicate HoldsInForce(s: State, id: nat) {
    id in s.rows && s.rows[id].tx.Some? && InForce(s.txs, s.rows[id].tx.value)
  }

  /** The row holds the refund that match m made, and it is in force. */
  predicate HoldsRefund(s: State, m: nat, id: nat) {
    HoldsInForce(s, id) && s.txs[s.rows[id].tx.value].origin == FromRefund(m)
  }

  /** One row of the pair holds the refund, and the other, a credit row now with a transaction of its own, is
      undone instead: it is read first, or the holder is no credit row any more. */
  predicate TakesOther(s: State, m: nat, holder: nat, other: nat, otherFirst: bool) {
    && HoldsRefund(s, m, holder) && HoldsInForce(s, other) && s.rows[other].facts.direction.Credit?
    && (otherFirst || !s.rows[holder].facts.direction.Credit?)
  }

  predicate PicksOther(s: State, m: nat, leftFirst: bool) {
    && m in s.matches
    && (|| TakesOther(s, m, s.matches[m].left, s.matches[m].right, !leftFirst)
        || TakesOther(s, m, s.matches[m].right, s.matches[m].left, leftFirst))
  }

  /** The refund is in force at one row of the pair, and the other row has become a credit row with a
      transaction of its own. */
  predicate Crossed(s: State, m: nat) {
    && m in s.matches
    && (|| TakesOther(s, m, s.matches[m].left, s.matches[m].right, true)
        || TakesOther(s, m, s.matches[m].right, s.matches[m].left, true))
  }

  /** In a crossed pair some reading order takes the wrong row, in every other pair none does. */
  lemma CrossedIff(s: State, m: nat)
    ensures Crossed(s, m) <==> PicksOther(s, m, true) || PicksOther(s, m, false)
  {}

  lemma {:induction false} SubsetSize(a: set<nat>, b: set<nat>)
    requires a <= b
    ensures |a| <= |b|
  {
    if a != {} {
      var x :| x in a;
      SubsetSize(a - {x}, b - {x});
    }
  }

  lemma TwoHolders(a: nat, b: nat, held: set<nat>)
    requires a != b && |held| == 2 && held <= {a, b}
    ensures held == {a, b}
  {
    if a !in held {
      assert held <= {b};
      SubsetSize(held, {b});
    } else if b !in held {
      assert held <= {a};
      SubsetSize(held, {a});
    }
  }

  lemma HeldByThePair(s: State, m: nat, t: nat)
    requires HeldOk(s) && m in s.matches && t < |s.txs| && CameFrom(s.txs[t].origin, m)
    ensures Holders(s.rows, t) <= {s.matches[m].left, s.matches[m].right}
  {
    forall id | id in Holders(s.rows, t) ensures id in {s.matches[m].left, s.matches[m].right} {
      assert OwnTx(s, id, t);
    }
  }

  /** A transfer in force is held by both rows of its match. */
  lemma TransferHeld(s: State, m: nat, t: nat)
    requires Inv(s) && m in s.matches && InForce(s.txs, t) && s.txs[t].origin == FromTransfer(m)
    ensures var x := s.matches[m];
      x.kind.Transfer? && x.left in s.rows && x.right in s.rows && s.rows[x.left].tx == s.rows[x.right].tx == Some(t)
  {
    assert TxOk(s, t) && MatchOk(s, m, s.matches[m]);
    HeldByThePair(s, m, t);
    TwoHolders(s.matches[m].left, s.matches[m].right, Holders(s.rows, t));
    assert s.matches[m].left in Holders(s.rows, t) && s.matches[m].right in Holders(s.rows, t);
  }

  /** A refund in force is held by one row of its match. */
  lemma RefundHeld(s: State, m: nat, t: nat) returns (holder: nat, other: nat)
    requires Inv(s) && m in s.matches && InForce(s.txs, t) && s.txs[t].origin == FromRefund(m)
    ensures s.matches[m].kind.Refund? && s.matches[m].status.Confirmed?
    ensures holder != other && {holder, other} == {s.matches[m].left, s.matches[m].right}
    ensures holder in s.rows && other in s.rows && s.rows[holder].tx == Some(t) && s.rows[other].tx != Some(t)
  {
    var x := s.matches[m];
    assert TxOk(s, t) && MatchOk(s, m, x);
    HeldByThePair(s, m, t);
    holder :| holder in Holders(s.rows, t);
    other := if holder == x.left then x.right else x.left;
    if other in Holders(s.rows, t) {
      SubsetSize({holder, other}, Holders(s.rows, t));
    }
  }

  /** An unlink that goes through undoes the transaction its match made, if that is in force, unless it picks the
      other row. */
  lemma UndoHitsTheEvent(s: State, m: nat, leftFirst: bool, t: nat)
    requires Inv(s) && CanUnlink(s, m, leftFirst) && InForce(s.txs, t) && CameFrom(s.txs[t].origin, m)
    ensures ToUndo(s, s.matches[m], leftFirst) == Some(Some(t)) <==> !PicksOther(s, m, leftFirst)
  {
    if s.txs[t].origin.FromTransfer? {
      TransferHeld(s, m, t);
    } else {
      var holder, other := RefundHeld(s, m, t);
      OtherPick(s, m, leftFirst, t, holder, other);
    }
  }

  lemma OtherPick(s: State, m: nat, leftFirst: bool, t: nat, holder: nat, other: nat)
    requires Inv(s) && CanUnlink(s, m, leftFirst) && InForce(s.txs, t) && s.txs[t].origin == FromRefund(m)
    requires s.matches[m].kind.Refund? && holder != other && {holder, other} == {s.matches[m].left, s.matches[m].right}
    requires holder in s.rows && other in s.rows && s.rows[holder].tx == Some(t) && s.rows[other].tx != Some(t)
    ensures ToUndo(s, s.matches[m], leftFirst) == Some(Some(t)) <==> !PicksOther(s, m, leftFirst)
  {
    var x := s.matches[m];
    assert holder in {x.left, x.right} && other in {x.left, x.right};
    assert HoldsRefund(s, m, holder);
    assert !HoldsRefund(s, m, other);
  }

  /** Setting a match aside keeps the holdings when nothing of it is in force. */
  lemma DismissKeeps(s: State, m: nat)
    requires Inv(s) && m in s.matches
    requires forall t :: 0 <= t < |s.txs| && CameFrom(s.txs[t].origin, m) ==> s.txs[t].voided
    ensures Inv(SetMatch(s, m, Dismissed))
  {
    var after := SetMatch(s, m, Dismissed);
    StatusStruct(s, m, Dismissed);
    forall u | 0 <= u < |after.txs| ensures TxOk(after, u) {
      assert TxOk(s, u);
    }
    forall id | id in after.rows && after.rows[id].tx.Some? ensures OwnTx(after, id, after.rows[id].tx.value) {
      assert OwnTx(s, id, s.rows[id].tx.value);
    }
  }

  lemma UnmergeKeeps(s: State, left: nat, right: nat)
    requires Inv(s) && left in s.rows && right in s.rows
    ensures Inv(UnmergePair(s, left, right))
  {
    UnmergeStruct(s, left, right);
    HeldKept(s, UnmergePair(s, left, right));
  }

  lemma UnlinkKeeps(s: State, m: nat, leftFirst: bool)
    requires Inv(s) && !PicksOther(s, m, leftFirst)
    ensures Inv(Unlink(s, m, leftFirst))
  {
    if CanUnlink(s, m, leftFirst) {
      var x := s.matches[m];
      var undo := ToUndo(s, x, leftFirst).value;
      forall t | 0 <= t < |s.txs| && CameFrom(s.txs[t].origin, m) && !s.txs[t].voided ensures undo == Some(t) {
        UndoHitsTheEvent(s, m, leftFirst, t);
      }
      var t := if undo.Some? then DeleteTx(s, undo.value) else s;
      if undo.Some? {
        DeleteKeeps(s, undo.value);
      }
      DismissKeeps(t, m);
      UnmergeKeeps(SetMatch(t, m, Dismissed), x.left, x.right);
    }
  }

  /** A pick of the other row is the only unlink that breaks the invariant: the refund stays in force although its
      match is set aside. */
  lemma UnlinkBreaksIff(s: State, m: nat, leftFirst: bool)
    requires Inv(s)
    ensures Inv(Unlink(s, m, leftFirst)) <==> !PicksOther(s, m, leftFirst)
  {
    if PicksOther(s, m, leftFirst) {
      var t := PickedAway(s, m, leftFirst);
      assert !TxOk(Unlink(s, m, leftFirst), t);
    } else {
      UnlinkKeeps(s, m, leftFirst);
    }
  }

  lemma PickedAway(s: State, m: nat, leftFirst: bool) returns (t: nat)
    requires Inv(s) && PicksOther(s, m, leftFirst)
    ensures CanUnlink(s, m, leftFirst) && t < |s.txs| && s.txs[t] == Tx(FromRefund(m), false)
    ensures t < |Unlink(s, m, leftFirst).txs| && Unlink(s, m, leftFirst).txs[t] == s.txs[t]
    ensures m in Unlink(s, m, leftFirst).matches && Unlink(s, m, leftFirst).matches[m].status.Dismissed?
  {
    var x := s.matches[m];
    assert MatchOk(s, m, x);
    var holder := if TakesOther(s, m, x.left, x.right, !leftFirst) then x.left else x.right;
    t := s.rows[holder].tx.value;
    assert TxOk(s, t);
    var h, o := RefundHeld(s, m, t);
    OtherTaken(s, m, leftFirst);
    UndoHitsTheEvent(s, m, leftFirst, t);
  }

  lemma OtherTaken(s: State, m: nat, leftFirst: bool)
    requires PicksOther(s, m, leftFirst) && s.matches[m].kind.Refund? && s.matches[m].status.Confirmed?
    ensures CanUnlink(s, m, leftFirst)
  {}

  // ---- Importing ----

  lemma KeptKeeps(s: State, doc: nat, run: Option<nat>)
    requires Inv(s)
    ensures Inv(Kept(s, doc, run))
  {
    KeptStruct(s, doc, run);
    forall id | id in s.rows && s.rows[id].tx.Some? ensures id in Kept(s, doc, run).rows {
      assert RowOk(s.rows, s.rows[id]);
    }
    HeldKept(s, Kept(s, doc, run));
  }

  lemma AddRowKeeps(s: State, r: Row)
    requires Inv(s) && r.tx.None? && r.mergedInto.None?
    ensures Inv(AddRow(s, r))
  {
    AddRowStruct(s, r);
    HeldKept(s, AddRow(s, r));
  }

  lemma {:induction false} AddRowsKeeps(s: State, doc: nat, run: Option<nat>, parser: nat, index: nat,
                                        parsed: seq<Facts>)
    requires Inv(s)
    ensures Inv(AddRows(s, doc, run, parser, index, parsed))
    decreases |parsed|
  {
    if parsed != [] {
      var r := NewRow(doc, run, parser, index, parsed[0]);
      AddRowKeeps(s, r);
      AddRowsKeeps(AddRow(s, r), doc, run, parser, index + 1, parsed[1..]);
    }
  }

  lemma ImportKeeps(s: State, doc: nat, run: Option<nat>, parser: nat, parsed: seq<Facts>)
    requires Inv(s)
    ensures Inv(Import(s, doc, run, parser, parsed))
  {
    KeptKeeps(s, doc, run);
    AddRowsKeeps(Kept(s, doc, run), doc, run, parser, 0, parsed);
  }

  // ---- Every event ----

  /** Not the unlink of a crossed pair. */
  predicate Calm(s: State, e: Event) { e.UnlinkMatch? ==> !Crossed(s, e.m) }

  lemma StepKeeps(s: State, e: Event)
    requires Inv(s) && Calm(s, e)
    ensures Inv(Apply(s, e))
  {
    match e
    case ImportRows(doc, run, parser, parsed) => ImportKeeps(s, doc, run, parser, parsed);
    case Accept(id, account, allowed) => AcceptKeeps(s, id, account, allowed);
    case Reject(id) => RejectKeeps(s, id);
    case Correct(id, facts) => CorrectKeeps(s, id, facts);
    case Merge(winner, duplicates) => MergeKeeps(s, winner, duplicates);
    case Propose(a, b, kind, manual) => RecordKeeps(s, a, b, kind, manual);
    case ConfirmPair(m, winner) => ConfirmDuplicateKeeps(s, m, winner);
    case MergeAutomatically(m) => AutoMergeKeeps(s, m);
    case ConfirmRelation(m) => if ConfirmRelated(s, m) != s { StatusKeeps(s, m, Confirmed); }
    case Dismiss(m) => if DismissMatch(s, m) != s { StatusKeeps(s, m, Dismissed); }
    case MakeTransfer(m, valid) => TransferKeeps(s, m, valid);
    case MakeRefund(m, valid) => RefundKeeps(s, m, valid);
    case UnlinkMatch(m, leftFirst) => UnlinkKeeps(s, m, leftFirst);
    case DeleteTransaction(t) => DeleteKeeps(s, t);
  }
}
