/** Review over whole histories: merges lead somewhere, and no event is counted twice. */
module ReviewRuns {
  import opened Common
  import opened Review
  import opened ReviewLaws
  import opened ReviewStructure

  function Run(events: seq<Event>): State {
    if events == [] then EMPTY else Apply(Run(events[..|events| - 1]), events[|events| - 1])
  }

  /** No crossed pair is unlinked in the history. */
  predicate CalmRun(events: seq<Event>) {
    events == [] || (CalmRun(events[..|events| - 1]) && Calm(Run(events[..|events| - 1]), events[|events| - 1]))
  }

  /** The structure survives every history, calm or not. */
  lemma {:induction false} StructRun(events: seq<Event>)
    ensures Struct(Run(events))
  {
    if events == [] {
      assert Ranked(map[], map[]);
    } else {
      StructRun(events[..|events| - 1]);
      StructStep(Run(events[..|events| - 1]), events[|events| - 1]);
    }
  }

  lemma {:induction false} RunKeeps(events: seq<Event>)
    requires CalmRun(events)
    ensures Inv(Run(events))
  {
    StructRun(events);
    if events != [] {
      RunKeeps(events[..|events| - 1]);
      StepKeeps(Run(events[..|events| - 1]), events[|events| - 1]);
    }
  }

  // ---- Merged rows lead somewhere ----

  function Follow(rows: map<nat, Row>, id: nat, steps: nat): nat
    decreases steps
  {
    if steps == 0 || id !in rows || rows[id].mergedInto.None? then id
    else Follow(rows, rows[id].mergedInto.value, steps - 1)
  }

  predicate Root(rows: map<nat, Row>, id: nat) { id in rows && rows[id].mergedInto.None? }

  lemma {:induction false} FollowClimbs(rows: map<nat, Row>, rank: map<nat, nat>, id: nat, top: nat)
    returns (steps: nat)
    requires Ranked(rows, rank) && id in rows && (forall x :: x in rank ==> rank[x] < top)
    requires forall x :: x in rows && rows[x].mergedInto.Some? ==> rows[x].mergedInto.value in rows
    ensures Root(rows, Follow(rows, id, steps))
    decreases top - rank[id]
  {
    if rows[id].mergedInto.None? {
      steps := 0;
    } else {
      var rest := FollowClimbs(rows, rank, rows[id].mergedInto.value, top);
      steps := rest + 1;
    }
  }

  /** After any history a row that names a winner is merged and holds no transaction. */
  lemma MergedRowsHoldNothing(events: seq<Event>, id: nat)
    requires id in Run(events).rows && Run(events).rows[id].mergedInto.Some?
    ensures Run(events).rows[id].tx.None? && Run(events).rows[id].status.Merged?
  {
    StructRun(events);
    assert RowOk(Run(events).rows, Run(events).rows[id]);
  }

  /** After any history following merge targets from any row ends, at a row that exists and names no winner. */
  lemma MergesEndAtARoot(events: seq<Event>, id: nat)
    requires id in Run(events).rows
    ensures exists steps :: Root(Run(events).rows, Follow(Run(events).rows, id, steps))
  {
    StructRun(events);
    var rows := Run(events).rows;
    var rank :| Ranked(rows, rank);
    var top := RankBound(rank);
    forall x | x in rows && rows[x].mergedInto.Some? ensures rows[x].mergedInto.value in rows {
      assert RowOk(rows, rows[x]);
    }
    var steps := FollowClimbs(rows, rank, id, top);
  }

  // ---- No event is counted twice ----

  /** Rows that hold a transaction in force among the first n. */
  function HeldBelow(s: State, n: nat): set<nat> {
    set id | id in s.rows && s.rows[id].tx.Some? && s.rows[id].tx.value < n && s.rows[id].tx.value < |s.txs|
             && !s.txs[s.rows[id].tx.value].voided
  }

  function LiveCount(txs: seq<Tx>, n: nat, counts: Origin -> bool): nat
    requires n <= |txs|
  {
    if n == 0 then 0 else
      LiveCount(txs, n - 1, counts) + if !txs[n - 1].voided && counts(txs[n - 1].origin) then 1 else 0
  }

  function Singles(s: State): nat { LiveCount(s.txs, |s.txs|, (o: Origin) => o.FromRow?) }

  function Transfers(s: State): nat { LiveCount(s.txs, |s.txs|, (o: Origin) => o.FromTransfer?) }

  function Refunds(s: State): nat { LiveCount(s.txs, |s.txs|, (o: Origin) => o.FromRefund?) }

  lemma HeldBelowGrows(s: State, n: nat)
    requires n < |s.txs|
    ensures HeldBelow(s, n + 1) == HeldBelow(s, n) + (if s.txs[n].voided then {} else Holders(s.rows, n))
    ensures HeldBelow(s, n) !! Holders(s.rows, n)
  {}

  lemma HeldBelowStep(s: State, n: nat)
    requires HeldOk(s) && n < |s.txs|
    ensures |HeldBelow(s, n + 1)| == |HeldBelow(s, n)| + if s.txs[n].voided then 0 else Arity(s.txs[n].origin)
  {
    HeldBelowGrows(s, n);
    assert TxOk(s, n);
  }

  lemma {:induction false} HeldBelowCounts(s: State, n: nat)
    requires HeldOk(s) && n <= |s.txs|
    ensures |HeldBelow(s, n)| == LiveCount(s.txs, n, (o: Origin) => o.FromRow?)
                                 + 2 * LiveCount(s.txs, n, (o: Origin) => o.FromTransfer?)
                                 + LiveCount(s.txs, n, (o: Origin) => o.FromRefund?)
  {
    if n > 0 {
      HeldBelowCounts(s, n - 1);
      HeldBelowStep(s, n - 1);
    } else {
      assert HeldBelow(s, 0) == {};
    }
  }

  /** Rows that hold a transaction in force. */
  function Counted(s: State): set<nat> { HeldBelow(s, |s.txs|) }

  /** After any calm history the rows that count are one for each accepted single, two for each transfer and
      one for each refund in force; they are accepted or corrected, and merged into nothing. */
  lemma NoEventCountedTwice(events: seq<Event>)
    requires CalmRun(events)
    ensures var s := Run(events);
      && |Counted(s)| == Singles(s) + 2 * Transfers(s) + Refunds(s)
      && forall id :: id in Counted(s) ==>
           && (s.rows[id].status.Accepted? || s.rows[id].status.Corrected?)
           && s.rows[id].mergedInto.None?
  {
    RunKeeps(events);
    var s := Run(events);
    HeldBelowCounts(s, |s.txs|);
    forall id | id in Counted(s)
      ensures (s.rows[id].status.Accepted? || s.rows[id].status.Corrected?) && s.rows[id].mergedInto.None?
    {
      assert RowOk(s.rows, s.rows[id]);
    }
  }

  /** Each transaction in force is held by the rows of its own event and by no other row. */
  lemma HeldByItsOwnRows(events: seq<Event>, t: nat)
    requires CalmRun(events) && t < |Run(events).txs| && !Run(events).txs[t].voided
    ensures var s := Run(events);
      match s.txs[t].origin
      case FromRow(id) => Holders(s.rows, t) == {id}
      case FromTransfer(m) =>
        |Holders(s.rows, t)| == 2 && (m in s.matches ==> Holders(s.rows, t) == {s.matches[m].left, s.matches[m].right})
      case FromRefund(m) =>
        |Holders(s.rows, t)| == 1 && (m in s.matches ==> Holders(s.rows, t) <= {s.matches[m].left, s.matches[m].right})
  {
    RunKeeps(events);
    var s := Run(events);
    assert TxOk(s, t);
    match s.txs[t].origin
    case FromRow(id) =>
      forall x | x in Holders(s.rows, t) ensures x == id { assert OwnTx(s, x, t); }
      assert Holders(s.rows, t) <= {id};
      var x :| x in Holders(s.rows, t);
    case FromTransfer(m) =>
      if m in s.matches {
        HeldByThePair(s, m, t);
        TwoHolders(s.matches[m].left, s.matches[m].right, Holders(s.rows, t));
      }
    case FromRefund(m) =>
      if m in s.matches {
        HeldByThePair(s, m, t);
      }
  }
}
