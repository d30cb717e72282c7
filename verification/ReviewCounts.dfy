/** Counting the rows that hold a transaction by accepted singles and confirmed matches. */
module ReviewCounts {
  import opened Common
  import opened Review
  import opened ReviewLaws
  import opened ReviewRuns
  import opened ReviewStructure

  // ---- Histories without deletions ----

  predicate HasKey(txs: seq<Tx>, o: Origin) { exists t :: 0 <= t < |txs| && txs[t].origin == o }

  /** Neither a deletion nor the unlink of a transfer or a refund. */
  predicate Quiet(s: State, e: Event) {
    && !e.DeleteTransaction?
    && (e.UnlinkMatch? ==> e.m !in s.matches || s.matches[e.m].kind.Duplicate? || s.matches[e.m].kind.Related?)
  }

  predicate QuietRun(events: seq<Event>) {
    events == [] || (QuietRun(events[..|events| - 1]) && Quiet(Run(events[..|events| - 1]), events[|events| - 1]))
  }

  predicate Keyed(txs: seq<Tx>, m: nat, x: Match) {
    x.status.Confirmed? ==>
      (x.kind.Transfer? ==> HasKey(txs, FromTransfer(m))) && (x.kind.Refund? ==> HasKey(txs, FromRefund(m)))
  }

  /** Nothing was voided, transfers still have their match, and every confirmed transfer or refund its key. */
  predicate Settled(s: State) {
    && (forall t :: 0 <= t < |s.txs| ==>
          !s.txs[t].voided && (s.txs[t].origin.FromTransfer? ==> s.txs[t].origin.id in s.matches))
    && (forall m :: m in s.matches ==> Keyed(s.txs, m, s.matches[m]))
  }

  lemma KeysStay(txs: seq<Tx>, more: seq<Tx>, o: Origin)
    requires HasKey(txs, o)
    ensures HasKey(txs + more, o)
  {
    var t :| 0 <= t < |txs| && txs[t].origin == o;
    assert (txs + more)[t] == txs[t];
  }

  /** Matches after an event that creates no transaction. */
  predicate NoNewEvents(s: State, after: map<nat, Match>) {
    forall m :: m in after && after[m].status.Confirmed? && (after[m].kind.Transfer? || after[m].kind.Refund?) ==>
      m in s.matches && s.matches[m] == after[m]
  }

  lemma SettledKept(s: State, t: State)
    requires Settled(s) && t.txs == s.txs && NoNewEvents(s, t.matches) && s.matches.Keys <= t.matches.Keys
    ensures Settled(t)
  {
    forall m | m in t.matches ensures Keyed(t.txs, m, t.matches[m]) {
      assert m in s.matches && s.matches[m] == t.matches[m] ==> Keyed(s.txs, m, s.matches[m]);
    }
  }

  /** Re-import deletes open rows only, so no transfer loses its match. */
  lemma KeptSettled(s: State, doc: nat, run: Option<nat>)
    requires Inv(s) && Settled(s)
    ensures Settled(Kept(s, doc, run))
  {
    var t := Kept(s, doc, run);
    forall u | 0 <= u < |t.txs| && t.txs[u].origin.FromTransfer? ensures t.txs[u].origin.id in t.matches {
      var m := s.txs[u].origin.id;
      assert TxOk(s, u);
      TransferHeld(s, m, u);
      assert RowOk(s.rows, s.rows[s.matches[m].left]) && RowOk(s.rows, s.rows[s.matches[m].right]);
      assert !Touches(s.rows, s.matches[m], doc, run);
    }
    forall m | m in t.matches ensures Keyed(t.txs, m, t.matches[m]) {
      assert Keyed(s.txs, m, s.matches[m]);
    }
  }

  lemma {:induction false} AddRowsLeaves(s: State, doc: nat, run: Option<nat>, parser: nat, index: nat,
                                         parsed: seq<Facts>)
    ensures var t := AddRows(s, doc, run, parser, index, parsed); t.txs == s.txs && t.matches == s.matches
    decreases |parsed|
  {
    if parsed != [] {
      AddRowsLeaves(AddRow(s, NewRow(doc, run, parser, index, parsed[0])), doc, run, parser, index + 1, parsed[1..]);
    }
  }

  /** Confirmed transfers and refunds were confirmed before, or are the one that made the transaction. */
  predicate NewlyConfirmed(s: State, t: State, origin: Origin, m: nat)
    requires m in s.matches && m in t.matches
  {
    t.matches[m].status.Confirmed? && t.matches[m].kind in {Transfer, Refund} && t.matches[m] != s.matches[m] ==>
      origin == if t.matches[m].kind.Transfer? then FromTransfer(m) else FromRefund(m)
  }

  lemma LinkKeyed(s: State, t: State, origin: Origin, m: nat)
    requires m in s.matches && m in t.matches && Keyed(s.txs, m, s.matches[m]) && NewlyConfirmed(s, t, origin, m)
    requires t.txs == s.txs + [Tx(origin, false)]
    ensures Keyed(t.txs, m, t.matches[m])
  {
    assert t.txs[|s.txs|].origin == origin;
    if HasKey(s.txs, FromTransfer(m)) { KeysStay(s.txs, [Tx(origin, false)], FromTransfer(m)); }
    if HasKey(s.txs, FromRefund(m)) { KeysStay(s.txs, [Tx(origin, false)], FromRefund(m)); }
  }

  lemma LinkSettled(s: State, t: State, ids: set<nat>, origin: Origin)
    requires Settled(s) && Links(s, t, ids, origin)
    requires origin.FromTransfer? ==> origin.id in s.matches
    requires forall m :: m in t.matches ==> NewlyConfirmed(s, t, origin, m)
    ensures Settled(t)
  {
    assert t.txs == s.txs + [Tx(origin, false)];
    forall m | m in t.matches ensures Keyed(t.txs, m, t.matches[m]) {
      LinkKeyed(s, t, origin, m);
    }
    forall u | 0 <= u < |t.txs| && t.txs[u].origin.FromTransfer? ensures t.txs[u].origin.id in t.matches {
      assert u < |s.txs| ==> t.txs[u] == s.txs[u];
    }
  }

  lemma AcceptSettled(s: State, id: nat, account: Option<nat>, allowed: bool)
    requires Inv(s) && Settled(s)
    ensures Settled(AcceptRow(s, id, account, allowed))
  {
    if CanAccept(s, id, account, allowed) {
      AcceptLinks(s, id, account, allowed);
      LinkSettled(s, AcceptRow(s, id, account, allowed), {id}, FromRow(id));
    }
  }

  lemma TransferSettled(s: State, m: nat, valid: bool)
    requires Inv(s) && Settled(s)
    ensures Settled(ConfirmTransfer(s, m, valid))
  {
    if CanTransfer(s, m, valid) {
      TransferLinks(s, m, valid);
      LinkSettled(s, ConfirmTransfer(s, m, valid), {Sides(s, m).0, Sides(s, m).1}, FromTransfer(m));
    }
  }

  lemma RefundSettled(s: State, m: nat, valid: bool)
    requires Inv(s) && Settled(s)
    ensures Settled(ConfirmRefund(s, m, valid))
  {
    if CanRefund(s, m, valid) {
      RefundLinks(s, m, valid);
      RefundShape(s, m, valid);
      LinkSettled(s, ConfirmRefund(s, m, valid), {RefundSide(s, m)}, FromRefund(m));
    }
  }

  lemma MatchEventSettled(s: State, e: Event)
    requires Inv(s) && Settled(s) && Quiet(s, e)
    requires e.Propose? || e.ConfirmRelation? || e.Dismiss? || e.UnlinkMatch?
    ensures Settled(Apply(s, e))
  {
    SettledKept(s, Apply(s, e));
  }

  lemma RowEventSettled(s: State, e: Event)
    requires Inv(s) && Settled(s)
    requires e.Reject? || e.Correct? || e.Merge?
    ensures Settled(Apply(s, e))
  {
    SettledKept(s, Apply(s, e));
  }

  lemma DuplicateSettled(s: State, m: nat, winner: nat)
    requires Inv(s) && Settled(s)
    ensures Settled(ConfirmDuplicate(s, m, winner)) && Settled(AutoMerge(s, m))
  {
    SettledKept(s, ConfirmDuplicate(s, m, winner));
    SettledKept(s, AutoMerge(s, m));
  }

  lemma ImportSettled(s: State, doc: nat, run: Option<nat>, parser: nat, parsed: seq<Facts>)
    requires Inv(s) && Settled(s)
    ensures Settled(Import(s, doc, run, parser, parsed))
  {
    if CanImport(s, doc, run, parser, |parsed|) {
      KeptSettled(s, doc, run);
      AddRowsLeaves(Kept(s, doc, run), doc, run, parser, 0, parsed);
      SettledKept(Kept(s, doc, run), Import(s, doc, run, parser, parsed));
    }
  }

  lemma OnlyRefundsCross(s: State, m: nat)
    requires Inv(s) && Crossed(s, m)
    ensures s.matches[m].kind.Refund?
  {
    var x := s.matches[m];
    var holder := if TakesOther(s, m, x.left, x.right, true) then x.left else x.right;
    assert TxOk(s, s.rows[holder].tx.value);
  }

  lemma QuietStep(s: State, e: Event)
    requires Inv(s) && Settled(s) && Quiet(s, e)
    ensures Settled(Apply(s, e)) && Calm(s, e)
  {
    match e
    case ImportRows(doc, run, parser, parsed) => ImportSettled(s, doc, run, parser, parsed);
    case Accept(id, account, allowed) => AcceptSettled(s, id, account, allowed);
    case MakeTransfer(m, valid) => TransferSettled(s, m, valid);
    case MakeRefund(m, valid) => RefundSettled(s, m, valid);
    case Reject(_) => RowEventSettled(s, e);
    case Correct(_, _) => RowEventSettled(s, e);
    case Merge(_, _) => RowEventSettled(s, e);
    case Propose(_, _, _, _) => MatchEventSettled(s, e);
    case ConfirmPair(m, winner) => DuplicateSettled(s, m, winner);
    case MergeAutomatically(m) => DuplicateSettled(s, m, 0);
    case ConfirmRelation(_) => MatchEventSettled(s, e);
    case Dismiss(_) => MatchEventSettled(s, e);
    case UnlinkMatch(m, _) =>
      MatchEventSettled(s, e);
      if Crossed(s, m) { OnlyRefundsCross(s, m); }
    case DeleteTransaction(_) =>
  }

  lemma {:induction false} QuietRunKeeps(events: seq<Event>)
    requires QuietRun(events)
    ensures CalmRun(events) && Inv(Run(events)) && Settled(Run(events))
  {
    if events == [] {
      RunKeeps(events);
    } else {
      QuietRunKeeps(events[..|events| - 1]);
      QuietStep(Run(events[..|events| - 1]), events[|events| - 1]);
      RunKeeps(events);
    }
  }

  function ConfirmedOf(s: State, kind: Kind): set<nat> {
    set m | m in s.matches && s.matches[m].kind == kind && s.matches[m].status.Confirmed?
  }

  function Ids(txs: seq<Tx>, n: nat, counts: Origin -> bool): set<nat>
    requires n <= |txs|
  {
    if n == 0 then {} else
      Ids(txs, n - 1, counts)
      + if counts(txs[n - 1].origin) && !txs[n - 1].origin.FromRow? then {txs[n - 1].origin.id} else {}
  }

  predicate IsTransfer(o: Origin) { o.FromTransfer? }

  predicate IsRefund(o: Origin) { o.FromRefund? }

  lemma {:induction false} IdsListed(txs: seq<Tx>, n: nat, counts: Origin -> bool)
    requires n <= |txs|
    ensures forall m :: m in Ids(txs, n, counts) <==>
      exists t :: 0 <= t < n && counts(txs[t].origin) && !txs[t].origin.FromRow? && txs[t].origin.id == m
  {
    if n > 0 {
      IdsListed(txs, n - 1, counts);
    }
  }

  lemma NewId(txs: seq<Tx>, n: nat, counts: Origin -> bool)
    requires 0 < n <= |txs| && KeysUnique(txs) && counts(txs[n - 1].origin)
    requires counts == IsTransfer || counts == IsRefund
    ensures txs[n - 1].origin.id !in Ids(txs, n - 1, counts)
  {
    IdsListed(txs, n - 1, counts);
    forall t | 0 <= t < n - 1 && counts(txs[t].origin) ensures txs[t].origin.id != txs[n - 1].origin.id {
      assert txs[t].origin != txs[n - 1].origin;
    }
  }

  lemma {:induction false} IdsCount(txs: seq<Tx>, n: nat, counts: Origin -> bool)
    requires n <= |txs| && KeysUnique(txs) && forall t :: 0 <= t < |txs| ==> !txs[t].voided
    requires counts == IsTransfer || counts == IsRefund
    ensures |Ids(txs, n, counts)| == LiveCount(txs, n, counts)
  {
    if n > 0 {
      IdsCount(txs, n - 1, counts);
      if counts(txs[n - 1].origin) {
        NewId(txs, n, counts);
      }
    }
  }

  /** Refund transactions whose match was deleted with its purchase row. */
  function LostRefunds(s: State): set<nat> { Ids(s.txs, |s.txs|, IsRefund) - s.matches.Keys }

  lemma {:induction false} SameCount(txs: seq<Tx>, n: nat, a: Origin -> bool, b: Origin -> bool)
    requires n <= |txs| && forall o :: a(o) == b(o)
    ensures LiveCount(txs, n, a) == LiveCount(txs, n, b)
  {
    if n > 0 {
      SameCount(txs, n - 1, a, b);
    }
  }

  lemma TransferIds(s: State)
    requires Inv(s) && Settled(s)
    ensures Ids(s.txs, |s.txs|, IsTransfer) == ConfirmedOf(s, Transfer)
  {
    IdsListed(s.txs, |s.txs|, IsTransfer);
    forall m | m in Ids(s.txs, |s.txs|, IsTransfer) ensures m in ConfirmedOf(s, Transfer) {
      var t :| 0 <= t < |s.txs| && IsTransfer(s.txs[t].origin) && s.txs[t].origin.id == m;
      assert TxOk(s, t) && CameFrom(s.txs[t].origin, m);
    }
    forall m | m in ConfirmedOf(s, Transfer) ensures m in Ids(s.txs, |s.txs|, IsTransfer) {
      assert Keyed(s.txs, m, s.matches[m]);
      var t :| 0 <= t < |s.txs| && s.txs[t].origin == FromTransfer(m);
      assert IsTransfer(s.txs[t].origin);
    }
  }

  lemma RefundIds(s: State)
    requires Inv(s) && Settled(s)
    ensures Ids(s.txs, |s.txs|, IsRefund) == ConfirmedOf(s, Refund) + LostRefunds(s)
  {
    IdsListed(s.txs, |s.txs|, IsRefund);
    forall m | m in Ids(s.txs, |s.txs|, IsRefund) && m in s.matches ensures m in ConfirmedOf(s, Refund) {
      var t :| 0 <= t < |s.txs| && IsRefund(s.txs[t].origin) && s.txs[t].origin.id == m;
      assert TxOk(s, t) && CameFrom(s.txs[t].origin, m);
    }
    forall m | m in ConfirmedOf(s, Refund) ensures m in Ids(s.txs, |s.txs|, IsRefund) {
      assert Keyed(s.txs, m, s.matches[m]);
      var t :| 0 <= t < |s.txs| && s.txs[t].origin == FromRefund(m);
      assert IsRefund(s.txs[t].origin);
    }
  }

  /** Over import, correction, acceptance, rejection, merges, transfers and refunds the rows that hold a
      transaction number the accepted singles, twice the confirmed transfers, the confirmed refunds, and the
      refunds whose match a re-import deleted together with their purchase row. */
  lemma CountByMatches(events: seq<Event>)
    requires QuietRun(events)
    ensures var s := Run(events);
      |Counted(s)| == Singles(s) + 2 * |ConfirmedOf(s, Transfer)| + |ConfirmedOf(s, Refund)| + |LostRefunds(s)|
  {
    QuietRunKeeps(events);
    NoEventCountedTwice(events);
    var s := Run(events);
    TransferIds(s);
    RefundIds(s);
    IdsCount(s.txs, |s.txs|, IsTransfer);
    IdsCount(s.txs, |s.txs|, IsRefund);
    SameCount(s.txs, |s.txs|, IsTransfer, (o: Origin) => o.FromTransfer?);
    SameCount(s.txs, |s.txs|, IsRefund, (o: Origin) => o.FromRefund?);
    assert ConfirmedOf(s, Refund) !! LostRefunds(s);
  }

  // ---- Which import loses a refund ----

  /** An import that goes through and deletes an open row of a confirmed refund, which can only be its purchase. */
  predicate LosesRefund(s: State, e: Event) {
    && e.ImportRows? && CanImport(s, e.doc, e.run, e.parser, |e.parsed|)
    && exists m :: m in s.matches && RefundTouched(s.rows, s.matches[m], e.doc, e.run)
  }

  predicate RefundTouched(rows: map<nat, Row>, x: Match, doc: nat, run: Option<nat>) {
    x.kind.Refund? && x.status.Confirmed? && Touches(rows, x, doc, run)
  }

  lemma LostIff(s: State, m: nat)
    ensures m in LostRefunds(s) <==> HasKey(s.txs, FromRefund(m)) && m !in s.matches
  {
    IdsListed(s.txs, |s.txs|, IsRefund);
    if m in LostRefunds(s) {
      var t :| 0 <= t < |s.txs| && IsRefund(s.txs[t].origin) && s.txs[t].origin.id == m;
      assert s.txs[t].origin == FromRefund(m);
    }
    if HasKey(s.txs, FromRefund(m)) {
      var t :| 0 <= t < |s.txs| && s.txs[t].origin == FromRefund(m);
      assert IsRefund(s.txs[t].origin);
    }
  }

  lemma ImportLoses(s: State, e: Event, m: nat)
    requires Inv(s) && Settled(s) && e.ImportRows? && CanImport(s, e.doc, e.run, e.parser, |e.parsed|)
    ensures m in LostRefunds(Apply(s, e)) <==>
      m in LostRefunds(s) || (m in s.matches && RefundTouched(s.rows, s.matches[m], e.doc, e.run))
  {
    LostIff(s, m);
    LostIff(Apply(s, e), m);
    AddRowsLeaves(Kept(s, e.doc, e.run), e.doc, e.run, e.parser, 0, e.parsed);
    if m in s.matches {
      assert Keyed(s.txs, m, s.matches[m]);
      if t :| 0 <= t < |s.txs| && s.txs[t].origin == FromRefund(m) {
        assert TxOk(s, t) && CameFrom(s.txs[t].origin, m);
      }
    }
  }

  /** The old matches stay, and any new refund transaction is of one of them. */
  predicate NothingLost(s: State, t: State) {
    && (forall m :: 0 <= m < s.nextMatch ==> (m in t.matches <==> m in s.matches))
    && (t.txs == s.txs || AddedOne(s, t.txs))
  }

  predicate AddedOne(s: State, txs: seq<Tx>) {
    && |txs| == |s.txs| + 1 && txs[..|s.txs|] == s.txs
    && (txs[|s.txs|].origin.FromRefund? ==> txs[|s.txs|].origin.id in s.matches)
  }

  lemma LostSame(s: State, t: State, m: nat)
    requires Inv(s) && NothingLost(s, t)
    ensures m in LostRefunds(t) <==> m in LostRefunds(s)
  {
    LostIff(s, m);
    LostIff(t, m);
    assert m in s.matches ==> MatchOk(s, m, s.matches[m]);
    if HasKey(s.txs, FromRefund(m)) {
      var u :| 0 <= u < |s.txs| && s.txs[u].origin == FromRefund(m);
      assert TxOk(s, u) && t.txs[..|s.txs|][u].origin == FromRefund(m);
    }
    if HasKey(t.txs, FromRefund(m)) && m !in t.matches {
      var u :| 0 <= u < |t.txs| && t.txs[u].origin == FromRefund(m);
      assert u < |s.txs| ==> s.txs[u] == t.txs[..|s.txs|][u];
    }
  }

  lemma LinkingLosesNothing(s: State, e: Event)
    requires e.Accept? || e.MakeTransfer? || e.MakeRefund?
    ensures NothingLost(s, Apply(s, e))
  {
    match e
    case MakeRefund(m, valid) =>
      if CanRefund(s, m, valid) { RefundShape(s, m, valid); }
    case _ =>
  }

  lemma OtherEventsLoseNothing(s: State, e: Event)
    requires Inv(s) && Settled(s) && Quiet(s, e) && !e.ImportRows?
    ensures NothingLost(s, Apply(s, e))
  {
    if e.Accept? || e.MakeTransfer? || e.MakeRefund? {
      LinkingLosesNothing(s, e);
    } else if e.UnlinkMatch? {
      assert Apply(s, e).txs == s.txs;
    }
  }

  /** Only such an import loses a refund, and a lost refund stays lost. */
  lemma StepLosesIff(s: State, e: Event)
    requires Inv(s) && Settled(s) && Quiet(s, e)
    ensures LostRefunds(Apply(s, e)) == {} <==> LostRefunds(s) == {} && !LosesRefund(s, e)
  {
    var t := Apply(s, e);
    if e.ImportRows? && CanImport(s, e.doc, e.run, e.parser, |e.parsed|) {
      forall m: nat
        ensures m in LostRefunds(t) <==>
          m in LostRefunds(s) || (m in s.matches && RefundTouched(s.rows, s.matches[m], e.doc, e.run))
      {
        ImportLoses(s, e, m);
      }
      assert LosesRefund(s, e) ==> exists m :: m in LostRefunds(t);
    } else if !e.ImportRows? {
      OtherEventsLoseNothing(s, e);
      forall m: nat ensures m in LostRefunds(t) <==> m in LostRefunds(s) {
        LostSame(s, t, m);
      }
    }
  }

  predicate LosesAt(events: seq<Event>, k: nat)
    requires k < |events|
  {
    LosesRefund(Run(events[..k]), events[k])
  }

  lemma LosesAtPrefix(events: seq<Event>, n: nat)
    requires n + 1 == |events|
    ensures forall k :: 0 <= k < n ==> LosesAt(events, k) == LosesAt(events[..n], k)
  {
    forall k | 0 <= k < n ensures LosesAt(events, k) == LosesAt(events[..n], k) {
      assert events[..n][..k] == events[..k];
    }
  }

  lemma LastEventLosesIff(events: seq<Event>, n: nat)
    requires QuietRun(events) && n + 1 == |events|
    ensures LostRefunds(Run(events)) == {} <==> LostRefunds(Run(events[..n])) == {} && !LosesAt(events, n)
  {
    QuietRunKeeps(events[..n]);
    StepLosesIff(Run(events[..n]), events[n]);
  }

  predicate NoneLoses(events: seq<Event>) { forall k :: 0 <= k < |events| ==> !LosesAt(events, k) }

  lemma {:induction false} RunLosesIff(events: seq<Event>)
    requires QuietRun(events)
    ensures LostRefunds(Run(events)) == {} <==> NoneLoses(events)
  {
    if events != [] {
      var n := |events| - 1;
      RunLosesIff(events[..n]);
      LastEventLosesIff(events, n);
      LosesAtPrefix(events, n);
      assert NoneLoses(events) <==> NoneLoses(events[..n]) && !LosesAt(events, n);
    }
  }

  /** So the count by confirmed matches is right exactly when no import of the history deletes an open row of a
      confirmed refund. */
  lemma CountByMatchesIff(events: seq<Event>)
    requires QuietRun(events)
    ensures var s := Run(events);
      |Counted(s)| == Singles(s) + 2 * |ConfirmedOf(s, Transfer)| + |ConfirmedOf(s, Refund)| <==> NoneLoses(events)
  {
    CountByMatches(events);
    RunLosesIff(events);
    assert |LostRefunds(Run(events))| == 0 <==> LostRefunds(Run(events)) == {};
  }
}
