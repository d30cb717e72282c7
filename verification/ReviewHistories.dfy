/** Short histories from the empty state on which review and reconciliation do less than their comments say. */
module ReviewHistories {
  import opened Common
  import opened Review
  import opened ReviewCounts
  import opened ReviewFindings
  import opened ReviewLaws
  import opened ReviewRuns
  import opened Values

  const SPENT := Facts(Debit, true, Some(0), 0)
  const BACK := Facts(Credit, true, Some(0), 0)
  const ARRIVED := Facts(Credit, true, Some(1), 0)

  lemma RunExtends(events: seq<Event>, e: Event)
    ensures Run(events + [e]) == Apply(Run(events), e)
    ensures QuietRun(events) && Quiet(Run(events), e) ==> QuietRun(events + [e])
    ensures CalmRun(events) && Calm(Run(events), e) ==> CalmRun(events + [e])
  {
    assert (events + [e])[..|events|] == events;
  }

  // ---- Screenshots with one row each ----

  function RowOf(n: nat, facts: Facts): Row { NewRow(n, Some(n), 0, 0, facts) }

  /** Importing one row of a document without earlier rows. */
  lemma OneRow(s: State, n: nat, facts: Facts)
    requires forall id :: id in s.rows ==>
      s.rows[id].doc != n && s.rows[id].run != Some(n) && s.rows[id].mergedInto.None?
    requires s.matches == map[]
    ensures Import(s, n, Some(n), 0, [facts]) == AddRow(s, RowOf(n, facts))
  {
    assert Kept(s, n, Some(n)).rows == s.rows;
    assert Kept(s, n, Some(n)).matches == s.matches;
    assert Kept(s, n, Some(n)) == s && CanImport(s, n, Some(n), 0, 1);
    var t := AddRow(s, RowOf(n, facts));
    assert [facts][1..] == [] && AddRows(t, n, Some(n), 0, 1, []) == t;
    assert AddRows(s, n, Some(n), 0, 0, [facts]) == AddRows(t, n, Some(n), 0, 1, [facts][1..]);
  }

  function One(a: Facts): seq<Event> { [] + [ImportRows(0, Some(0), 0, [a])] }

  function Two(a: Facts, b: Facts): seq<Event> { One(a) + [ImportRows(1, Some(1), 0, [b])] }

  function Three(a: Facts, b: Facts, c: Facts): seq<Event> { Two(a, b) + [ImportRows(2, Some(2), 0, [c])] }

  lemma AfterOne(a: Facts)
    ensures Run(One(a)) == State(map[0 := RowOf(0, a)], map[], [], 1, 0) && QuietRun(One(a)) && CalmRun(One(a))
  {
    RunExtends([], ImportRows(0, Some(0), 0, [a]));
    OneRow(EMPTY, 0, a);
  }

  lemma AfterTwo(a: Facts, b: Facts)
    ensures Run(Two(a, b)) == State(map[0 := RowOf(0, a), 1 := RowOf(1, b)], map[], [], 2, 0)
    ensures QuietRun(Two(a, b)) && CalmRun(Two(a, b))
  {
    AfterOne(a);
    RunExtends(One(a), ImportRows(1, Some(1), 0, [b]));
    OneRow(Run(One(a)), 1, b);
  }

  lemma AfterThree(a: Facts, b: Facts, c: Facts)
    ensures Run(Three(a, b, c))
         == State(map[0 := RowOf(0, a), 1 := RowOf(1, b), 2 := RowOf(2, c)], map[], [], 3, 0)
  {
    AfterTwo(a, b);
    RunExtends(Two(a, b), ImportRows(2, Some(2), 0, [c]));
    OneRow(Run(Two(a, b)), 2, c);
  }

  // ---- Accepted again ----

  /** A row is accepted, its transaction deleted, and the row accepted again: it says it is accepted, and nothing
      counts. */
  lemma AcceptedAgainCountsNowhere()
    ensures var s := Run(One(SPENT) + [Accept(0, None, true)] + [DeleteTransaction(0)] + [Accept(0, None, true)]);
      && s.rows.Keys == {0} && s.rows[0].status.Accepted? && s.rows[0].tx == Some(0)
      && s.txs == [Tx(FromRow(0), true)] && Counted(s) == {}
  {
    var e1 := One(SPENT);
    var e2 := e1 + [Accept(0, None, true)];
    var e3 := e2 + [DeleteTransaction(0)];
    AfterOne(SPENT);
    RunExtends(e1, Accept(0, None, true));
    RunExtends(e2, DeleteTransaction(0));
    RunExtends(e3, Accept(0, None, true));
    assert Run(e2) == State(map[0 := Linked(RowOf(0, SPENT), 0)], map[], [Tx(FromRow(0), false)], 1, 0);
    assert Run(e3).rows == map[0 := RowOf(0, SPENT)] && Run(e3).txs == [Tx(FromRow(0), true)];
    assert SaveOnce(Run(e3).txs, FromRow(0)) == Saved(Run(e3).txs, 0);
  }

  // ---- A chain of merges ----

  /** Row 0 is merged into row 1, then row 1 into row 2. */
  lemma MergedIntoMerged()
    ensures var s := Run(Three(SPENT, SPENT, SPENT) + [Merge(1, [0])] + [Merge(2, [1])]);
      s.rows.Keys == {0, 1, 2} && s.rows[0].mergedInto == Some(1) && s.rows[1].mergedInto == Some(2) && Chained(s.rows)
  {
    var e3 := Three(SPENT, SPENT, SPENT);
    var e4 := e3 + [Merge(1, [0])];
    AfterThree(SPENT, SPENT, SPENT);
    RunExtends(e3, Merge(1, [0]));
    RunExtends(e4, Merge(2, [1]));
    MergeOne(Run(e3).rows, 1, 0);
    MergeOne(Run(e4).rows, 2, 1);
  }

  lemma MergeOne(rows: map<nat, Row>, winner: nat, d: nat)
    requires winner in rows && rows[winner].mergedInto.None? && d in rows && d != winner && rows[d].tx.None?
    requires !rows[d].status.Merged?
    ensures MergeInto(rows, winner, [d]) == Some(rows[d := MergedRow(rows[d], winner)])
  {
    var next := rows[d := MergedRow(rows[d], winner)];
    assert [d][1..] == [] && MergeEach(next, winner, []) == Some(next);
  }

  // ---- An orphan ----

  /** Row 1 is merged into row 0, and row 0's screenshot is imported again. */
  lemma MergedIntoNothing()
    ensures var s := Run(Two(SPENT, SPENT) + [Merge(0, [1])] + [ImportRows(0, Some(2), 0, [])]);
      s.rows.Keys == {1} && Orphan(s.rows, 1)
  {
    var e2 := Two(SPENT, SPENT);
    var e3 := e2 + [Merge(0, [1])];
    AfterTwo(SPENT, SPENT);
    RunExtends(e2, Merge(0, [1]));
    RunExtends(e3, ImportRows(0, Some(2), 0, []));
    MergeOne(Run(e2).rows, 0, 1);
    var s := Run(e3);
    assert s.rows == map[0 := RowOf(0, SPENT), 1 := MergedRow(RowOf(1, SPENT), 0)];
    assert Gone(s.rows, 0, 0, Some(2)) && !Gone(s.rows, 1, 0, Some(2)) && CanImport(s, 0, Some(2), 0, 0);
    assert Kept(s, 0, Some(2)).rows == map[1 := MergedRow(RowOf(1, SPENT), 0).(mergedInto := None)];
  }

  // ---- A refund whose match goes with its purchase ----

  /** Row 0 is the refund of the purchase in row 1. */
  function Refunded(): seq<Event> {
    Two(BACK, SPENT) + [Propose(0, 1, Refund, false)] + [MakeRefund(0, true)]
  }

  const REFUNDED := State(map[0 := Linked(RowOf(0, BACK), 0), 1 := RowOf(1, SPENT)],
                          map[0 := Match(0, 1, Refund, Confirmed)], [Tx(FromRefund(0), false)], 2, 1)

  lemma RefundMade(s: State)
    requires s == State(map[0 := RowOf(0, BACK), 1 := RowOf(1, SPENT)], map[], [], 2, 0)
    ensures ConfirmRefund(RecordMatch(s, 0, 1, Refund, false), 0, true) == REFUNDED
  {
    var t := RecordMatch(s, 0, 1, Refund, false);
    assert t == s.(matches := map[0 := Match(0, 1, Refund, Proposed)], nextMatch := 1);
    assert SplitSides(t, t.matches[0], Credit, Debit) == Some((0, 1));
    assert CanRefund(t, 0, true);
    assert SaveOnce([], FromRefund(0)) == Saved([Tx(FromRefund(0), false)], 0);
    assert DismissCompeting(map[0 := Match(0, 1, Refund, Confirmed)], 0, 0) == map[0 := Match(0, 1, Refund, Confirmed)];
  }

  lemma AfterRefund()
    ensures Run(Refunded()) == REFUNDED && QuietRun(Refunded()) && CalmRun(Refunded())
  {
    var e2 := Two(BACK, SPENT);
    AfterTwo(BACK, SPENT);
    RunExtends(e2, Propose(0, 1, Refund, false));
    RunExtends(e2 + [Propose(0, 1, Refund, false)], MakeRefund(0, true));
    RefundMade(Run(e2));
  }

  /** A confirmed refund, then a new pass over the purchase's screenshot: the refund still counts, and no
      confirmed match speaks for it. */
  lemma RefundLosesItsMatch()
    ensures var events := Refunded() + [ImportRows(1, Some(2), 0, [])];
      && QuietRun(events) && LosesAt(events, |Refunded()|)
      && Refunds(Run(events)) == 1 && Run(events).matches == map[] && LostRefunds(Run(events)) == {0}
  {
    AfterRefund();
    RunExtends(Refunded(), ImportRows(1, Some(2), 0, []));
    var s := REFUNDED;
    assert (Refunded() + [ImportRows(1, Some(2), 0, [])])[..|Refunded()|] == Refunded();
    assert Gone(s.rows, 1, 1, Some(2)) && !Gone(s.rows, 0, 1, Some(2));
    assert RefundTouched(s.rows, s.matches[0], 1, Some(2));
    assert CanImport(s, 1, Some(2), 0, 0);
    assert Kept(s, 1, Some(2)).matches == map[];
    OneRefund(Run(Refunded() + [ImportRows(1, Some(2), 0, [])]));
  }

  lemma OneRefund(s: State)
    requires s.txs == [Tx(FromRefund(0), false)] && s.matches == map[]
    ensures Refunds(s) == 1 && LostRefunds(s) == {0}
  {
    assert LiveCount(s.txs, 0, (o: Origin) => o.FromRefund?) == 0;
    assert Ids(s.txs, 0, IsRefund) == {} && Ids(s.txs, 1, IsRefund) == {0};
  }

  // ---- Unlinking a refund undoes the purchase ----

  /** The purchase is accepted too, and then corrected to be a credit. */
  function BothCredit(): seq<Event> { Refunded() + [Accept(1, None, true)] + [Correct(1, BACK)] }

  function Corrected1(): Row { Linked(RowOf(1, SPENT), 1).(facts := BACK, corrected := true, status := Corrected) }

  const TXS := [Tx(FromRefund(0), false), Tx(FromRow(1), false)]

  lemma AfterBothCredit()
    ensures Run(BothCredit()) == REFUNDED.(rows := map[0 := Linked(RowOf(0, BACK), 0), 1 := Corrected1()], txs := TXS)
    ensures CalmRun(BothCredit())
  {
    var e4 := Refunded();
    var e5 := e4 + [Accept(1, None, true)];
    AfterRefund();
    RunExtends(e4, Accept(1, None, true));
    RunExtends(e5, Correct(1, BACK));
    assert SaveOnce(REFUNDED.txs, FromRow(1)) == Saved(TXS, 1);
  }

  /** The order in which the two rows are read decides what an unlink voids: the refund, or the purchase's own
      transaction, and then the refund stays in force without a match. */
  lemma ReadOrderDecides()
    ensures var s := Run(BothCredit());
      && 0 in s.matches && Crossed(s, 0)
      && Unlink(s, 0, true).txs == [Tx(FromRefund(0), true), Tx(FromRow(1), false)]
      && Unlink(s, 0, false).txs == [Tx(FromRefund(0), false), Tx(FromRow(1), true)]
  {
    AfterBothCredit();
    var s := Run(BothCredit());
    assert HoldsRefund(s, 0, 0) && HoldsInForce(s, 1) && PicksOther(s, 0, false);
    assert ToUndo(s, s.matches[0], true) == Some(Some(0)) && ToUndo(s, s.matches[0], false) == Some(Some(1));
  }

  /** With the refund row corrected to a debit as well, both orders take the purchase. */
  function Swapped(): seq<Event> { BothCredit() + [Correct(0, SPENT)] }

  function Corrected0(): Row { Linked(RowOf(0, BACK), 0).(facts := SPENT, corrected := true, status := Corrected) }

  lemma AfterSwap()
    ensures Run(Swapped()) == REFUNDED.(rows := map[0 := Corrected0(), 1 := Corrected1()], txs := TXS)
    ensures CalmRun(Swapped())
  {
    AfterBothCredit();
    RunExtends(BothCredit(), Correct(0, SPENT));
  }

  const SET_ASIDE := State(map[0 := Corrected0(), 1 := Corrected1().(tx := None, status := Unreviewed)],
                           map[0 := Match(0, 1, Refund, Dismissed)],
                           [Tx(FromRefund(0), false), Tx(FromRow(1), true)], 2, 1)

  lemma UnlinkSwapped(leftFirst: bool)
    ensures var s := REFUNDED.(rows := map[0 := Corrected0(), 1 := Corrected1()], txs := TXS);
      && PicksOther(s, 0, leftFirst) && Unlink(s, 0, leftFirst) == SET_ASIDE
      && RecordMatch(SET_ASIDE, 0, 1, Refund, true) == SetMatch(SET_ASIDE, 0, Proposed)
  {
    var s := REFUNDED.(rows := map[0 := Corrected0(), 1 := Corrected1()], txs := TXS);
    assert HoldsRefund(s, 0, 0) && HoldsInForce(s, 1);
    assert ToUndo(s, s.matches[0], leftFirst) == Some(Some(1));
    assert DeleteTx(s, 1).rows == SET_ASIDE.rows;
    assert FindMatch(SET_ASIDE.matches, 0, 1, Refund, 1) == Some(0);
  }

  lemma ConfirmedAgain(s: State)
    requires s == SetMatch(SET_ASIDE, 0, Proposed)
    ensures var t := ConfirmRefund(s, 0, true);
      t.txs == SET_ASIDE.txs && Holders(t.rows, 0) == {0, 1} && Counted(t) == {0, 1}
  {
    assert SplitSides(s, s.matches[0], Credit, Debit) == Some((1, 0));
    assert CanRefund(s, 0, true);
    assert FindOrigin(s.txs, FromRefund(0)) == Some(0) by {
      assert s.txs[..1] == [Tx(FromRefund(0), false)];
    }
  }

  function Relinked(leftFirst: bool): seq<Event> {
    Swapped() + [UnlinkMatch(0, leftFirst)] + [Propose(0, 1, Refund, true)]
  }

  lemma AfterRelink(leftFirst: bool)
    ensures PicksOther(Run(Swapped()), 0, leftFirst)
    ensures Run(Relinked(leftFirst)) == SetMatch(SET_ASIDE, 0, Proposed)
  {
    AfterSwap();
    RunExtends(Swapped(), UnlinkMatch(0, leftFirst));
    RunExtends(Swapped() + [UnlinkMatch(0, leftFirst)], Propose(0, 1, Refund, true));
    UnlinkSwapped(leftFirst);
  }

  /** Unlinking voids the purchase's transaction; linking the pair again and confirming it makes both rows hold the
      one refund, which is still in force. */
  lemma UnlinkedRefundDoubles(leftFirst: bool)
    ensures PicksOther(Run(Swapped()), 0, leftFirst)
    ensures var t := Run(Relinked(leftFirst) + [MakeRefund(0, true)]);
      && t.txs == [Tx(FromRefund(0), false), Tx(FromRow(1), true)]
      && Holders(t.rows, 0) == {0, 1} && Counted(t) == {0, 1}
  {
    AfterRelink(leftFirst);
    RunExtends(Relinked(leftFirst), MakeRefund(0, true));
    ConfirmedAgain(Run(Relinked(leftFirst)));
  }

  // ---- Unlinking a transfer whose transaction is gone ----

  function Moved(): seq<Event> {
    Two(SPENT, ARRIVED) + [Propose(0, 1, Transfer, false)] + [MakeTransfer(0, true)]
  }

  const MOVED := State(map[0 := Linked(RowOf(0, SPENT), 0), 1 := Linked(RowOf(1, ARRIVED), 0)],
                       map[0 := Match(0, 1, Transfer, Confirmed)], [Tx(FromTransfer(0), false)], 2, 1)

  lemma TransferMade(s: State)
    requires s == State(map[0 := RowOf(0, SPENT), 1 := RowOf(1, ARRIVED)], map[], [], 2, 0)
    ensures ConfirmTransfer(RecordMatch(s, 0, 1, Transfer, false), 0, true) == MOVED
  {
    var t := RecordMatch(s, 0, 1, Transfer, false);
    assert t == s.(matches := map[0 := Match(0, 1, Transfer, Proposed)], nextMatch := 1);
    assert SplitSides(t, t.matches[0], Debit, Credit) == Some((0, 1));
    assert CanTransfer(t, 0, true);
    assert SaveOnce([], FromTransfer(0)) == Saved([Tx(FromTransfer(0), false)], 0);
  }

  lemma AfterMoved()
    ensures Run(Moved()) == MOVED && CalmRun(Moved())
  {
    var e2 := Two(SPENT, ARRIVED);
    AfterTwo(SPENT, ARRIVED);
    RunExtends(e2, Propose(0, 1, Transfer, false));
    RunExtends(e2 + [Propose(0, 1, Transfer, false)], MakeTransfer(0, true));
    TransferMade(Run(e2));
  }

  function Unmoved(): seq<Event> { Moved() + [DeleteTransaction(0)] }

  /** Its transaction is deleted, and one of its rows accepted on its own. */
  function Broken(): seq<Event> { Unmoved() + [Accept(0, None, true)] }

  const BROKEN := MOVED.(rows := map[0 := Linked(RowOf(0, SPENT), 1), 1 := RowOf(1, ARRIVED)],
                         txs := [Tx(FromTransfer(0), true), Tx(FromRow(0), false)])

  lemma BrokenUp()
    ensures AcceptRow(DeleteTx(MOVED, 0), 0, None, true) == BROKEN
  {
    var t := DeleteTx(MOVED, 0);
    assert t.rows == map[0 := RowOf(0, SPENT), 1 := RowOf(1, ARRIVED)] && t.txs == [Tx(FromTransfer(0), true)];
    assert t.txs[..0] == [] && SaveOnce(t.txs, FromRow(0)) == Saved(BROKEN.txs, 1);
  }

  lemma AfterUnmoved()
    ensures Run(Unmoved()) == DeleteTx(MOVED, 0) && CalmRun(Unmoved())
  {
    AfterMoved();
    RunExtends(Moved(), DeleteTransaction(0));
  }

  lemma AfterBroken()
    ensures Run(Broken()) == BROKEN && CalmRun(Broken())
  {
    AfterUnmoved();
    RunExtends(Unmoved(), Accept(0, None, true));
    BrokenUp();
  }

  /** Unlinking it, though the pair is not crossed, voids the transaction of the row that was accepted on its own. */
  lemma UnlinkVoidsASingle(leftFirst: bool)
    ensures var s := Run(Broken());
      && CalmRun(Broken() + [UnlinkMatch(0, leftFirst)])
      && Run(Broken() + [UnlinkMatch(0, leftFirst)]).txs == [Tx(FromTransfer(0), true), Tx(FromRow(0), true)]
  {
    AfterBroken();
    RunExtends(Broken(), UnlinkMatch(0, leftFirst));
    var s := Run(Broken());
    assert ToUndo(s, s.matches[0], leftFirst) == Some(Some(1));
    assert !HoldsRefund(s, 0, 0) && !HoldsRefund(s, 0, 1);
  }
}
