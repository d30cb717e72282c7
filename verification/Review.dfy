/** Reviewing imported rows and reconciling them (apps/observations/review.py, services.py; apps/reconciliation/
    services.py, transfers.py, refunds.py; apps/transactions/idempotency.py, deletion.py). Each event is one
    database transaction; an error, or a violated CHECK constraint, leaves the state as it was. */
module Review {
  import opened Common
  import opened Values

  datatype Status = Unreviewed | Accepted | Corrected | Rejected | Merged

  /** What a screenshot row says: its direction, whether amount and date are usable, its account, and `details`
      for the other fields a person can correct. */
  datatype Facts = Facts(direction: Direction, usable: bool, account: Option<nat>, details: nat)

  /** A row of the screenshot `doc`, at place `index` of what `parser` read in one OCR run. */
  datatype Row = Row(doc: nat, run: Option<nat>, parser: nat, index: nat, facts: Facts, status: Status,
                     corrected: bool, tx: Option<nat>, mergedInto: Option<nat>)

  datatype Kind = Duplicate | Transfer | Refund | Related

  datatype MatchStatus = Proposed | Confirmed | Dismissed

  datatype Match = Match(left: nat, right: nat, kind: Kind, status: MatchStatus)

  /** The idempotency key of a transaction. */
  datatype Origin = FromRow(row: nat) | FromTransfer(id: nat) | FromRefund(id: nat)

  datatype Tx = Tx(origin: Origin, voided: bool)

  /** Identifiers grow and are never used again; a row's identifier is its creation order. */
  datatype State = State(rows: map<nat, Row>, matches: map<nat, Match>, txs: seq<Tx>, nextRow: nat, nextMatch: nat)

  const EMPTY := State(map[], map[], [], 0, 0)

  predicate Resolved(r: Row) { r.status.Rejected? || r.status.Merged? }

  /** The two CHECK constraints on a row. */
  predicate RowChecks(r: Row) {
    (r.mergedInto.None? || r.tx.None?) && (r.mergedInto.None? || r.status.Merged?)
  }

  // ---- save_once ----

  function FindOrigin(txs: seq<Tx>, origin: Origin): (t: Option<nat>)
    ensures t.Some? ==> t.value < |txs| && txs[t.value].origin == origin
    ensures t.None? ==> forall i :: 0 <= i < |txs| ==> txs[i].origin != origin
  {
    if txs == [] then None
    else if txs[|txs| - 1].origin == origin then Some(|txs| - 1)
    else FindOrigin(txs[..|txs| - 1], origin)
  }

  datatype Saved = Saved(txs: seq<Tx>, tx: nat)

  /** A transaction is inserted, or the one that has its key is looked up, whatever its status. */
  function SaveOnce(txs: seq<Tx>, origin: Origin): Saved {
    var found := FindOrigin(txs, origin);
    if found.Some? then Saved(txs, found.value) else Saved(txs + [Tx(origin, false)], |txs|)
  }

  function Linked(r: Row, tx: nat): Row {
    r.(tx := Some(tx), status := if r.corrected then Corrected else Accepted)
  }

  // ---- Review actions ----

  /** `allowed` stands for the refusals about confirmation, transaction type and instrument. */
  predicate CanAccept(s: State, id: nat, account: Option<nat>, allowed: bool) {
    && id in s.rows && s.rows[id].tx.None? && !Resolved(s.rows[id]) && allowed
    && (account.Some? || s.rows[id].facts.account.Some?) && s.rows[id].facts.usable
  }

  function AcceptRow(s: State, id: nat, account: Option<nat>, allowed: bool): State {
    if !CanAccept(s, id, account, allowed) then s else
      var saved := SaveOnce(s.txs, FromRow(id));
      s.(txs := saved.txs, rows := s.rows[id := Linked(s.rows[id], saved.tx)])
  }

  function RejectRow(s: State, id: nat): State {
    if id !in s.rows || s.rows[id].tx.Some? || s.rows[id].status.Rejected? then s else
      var r := s.rows[id].(status := Rejected);
      if RowChecks(r) then s.(rows := s.rows[id := r]) else s
  }

  function CorrectRow(s: State, id: nat, facts: Facts): State {
    if id !in s.rows || Resolved(s.rows[id]) || s.rows[id].facts == facts then s
    else s.(rows := s.rows[id := s.rows[id].(facts := facts, corrected := true, status := Corrected)])
  }

  /** The loop over the duplicates; None is an error. */
  function MergeEach(rows: map<nat, Row>, winner: nat, duplicates: seq<nat>): Option<map<nat, Row>> {
    if duplicates == [] then Some(rows) else
      var d := duplicates[0];
      if d == winner || d !in rows || rows[d].tx.Some? then None
      else if rows[d].status.Merged? then
        if rows[d].mergedInto == Some(winner) then MergeEach(rows, winner, duplicates[1..]) else None
      else MergeEach(rows[d := MergedRow(rows[d], winner)], winner, duplicates[1..])
  }

  function MergedRow(r: Row, winner: nat): Row { r.(mergedInto := Some(winner), status := Merged) }

  function MergeInto(rows: map<nat, Row>, winner: nat, duplicates: seq<nat>): Option<map<nat, Row>> {
    if winner !in rows || rows[winner].mergedInto.Some? then None else MergeEach(rows, winner, duplicates)
  }

  function MergeRows(s: State, winner: nat, duplicates: seq<nat>): State {
    var merged := MergeInto(s.rows, winner, duplicates);
    if merged.None? then s else s.(rows := merged.value)
  }

  // ---- Matches ----

  function FindMatch(matches: map<nat, Match>, left: nat, right: nat, kind: Kind, n: nat): (m: Option<nat>)
    ensures m.Some? ==> m.value in matches && IsPair(matches[m.value], left, right, kind)
  {
    if n == 0 then None
    else if n - 1 in matches && IsPair(matches[n - 1], left, right, kind) then Some(n - 1)
    else FindMatch(matches, left, right, kind, n - 1)
  }

  predicate IsPair(x: Match, left: nat, right: nat, kind: Kind) {
    x.left == left && x.right == right && x.kind == kind
  }

  function Least(a: nat, b: nat): nat { if a <= b then a else b }

  function Greatest(a: nat, b: nat): nat { if a <= b then b else a }

  /** `record_match`, and `link_observations` when `manual`: only a person reopens a dismissed pair. */
  function RecordMatch(s: State, a: nat, b: nat, kind: Kind, manual: bool): State {
    if a == b || a !in s.rows || b !in s.rows then s else
      var found := FindMatch(s.matches, Least(a, b), Greatest(a, b), kind, s.nextMatch);
      if found.None? then
        s.(matches := s.matches[s.nextMatch := Match(Least(a, b), Greatest(a, b), kind, Proposed)],
           nextMatch := s.nextMatch + 1)
      else if manual && s.matches[found.value].status.Dismissed? then
        SetMatch(s, found.value, Proposed)
      else s
  }

  function SetMatch(s: State, m: nat, status: MatchStatus): State
    requires m in s.matches
  {
    s.(matches := s.matches[m := s.matches[m].(status := status)])
  }

  function ConfirmDuplicate(s: State, m: nat, winner: nat): State {
    if m !in s.matches || !s.matches[m].kind.Duplicate? || winner !in {s.matches[m].left, s.matches[m].right}
       || !s.matches[m].status.Proposed? then s
    else
      var loser := if winner == s.matches[m].left then s.matches[m].right else s.matches[m].left;
      var merged := MergeInto(s.rows, winner, [loser]);
      if merged.None? then s else SetMatch(s, m, Confirmed).(rows := merged.value)
  }

  /** The automatic policy: the older of two unmerged rows wins. */
  function AutoMerge(s: State, m: nat): State {
    if m !in s.matches || !s.matches[m].kind.Duplicate? || !s.matches[m].status.Proposed?
       || s.matches[m].left !in s.rows || s.matches[m].right !in s.rows
       || s.rows[s.matches[m].left].mergedInto.Some? || s.rows[s.matches[m].right].mergedInto.Some? then s
    else ConfirmDuplicate(s, m, Least(s.matches[m].left, s.matches[m].right))
  }

  function ConfirmRelated(s: State, m: nat): State {
    if m in s.matches && s.matches[m].kind.Related? && s.matches[m].status.Proposed? then SetMatch(s, m, Confirmed)
    else s
  }

  function DismissMatch(s: State, m: nat): State {
    if m in s.matches && s.matches[m].status.Proposed? then SetMatch(s, m, Dismissed) else s
  }

  /** `_split_sides`: the row with direction `first` and the one with direction `second`. */
  function SplitSides(s: State, m: Match, first: Direction, second: Direction): Option<(nat, nat)> {
    if m.left !in s.rows || m.right !in s.rows then None
    else
      var left, right := s.rows[m.left].facts.direction, s.rows[m.right].facts.direction;
      if left == first && right == second then Some((m.left, m.right))
      else if right == first && left == second then Some((m.right, m.left))
      else None
  }

  predicate CanTransfer(s: State, m: nat, valid: bool) {
    && m in s.matches && s.matches[m].kind.Transfer? && s.matches[m].status.Proposed?
    && SplitSides(s, s.matches[m], Debit, Credit).Some?
    && var sides := SplitSides(s, s.matches[m], Debit, Credit).value;
       var out, into := s.rows[sides.0], s.rows[sides.1];
       && !Resolved(out) && !Resolved(into) && out.tx.None? && into.tx.None?
       && out.facts.account.Some? && into.facts.account.Some? && out.facts.account != into.facts.account
       && out.facts.usable && valid
  }

  function ConfirmTransfer(s: State, m: nat, valid: bool): State {
    if !CanTransfer(s, m, valid) then s else
      var sides := SplitSides(s, s.matches[m], Debit, Credit).value;
      var saved := SaveOnce(s.txs, FromTransfer(m));
      SetMatch(s, m, Confirmed).(
        txs := saved.txs,
        rows := s.rows[sides.0 := Linked(s.rows[sides.0], saved.tx)][sides.1 := Linked(s.rows[sides.1], saved.tx)])
  }

  predicate CanRefund(s: State, m: nat, valid: bool) {
    && m in s.matches && s.matches[m].kind.Refund? && s.matches[m].status.Proposed?
    && SplitSides(s, s.matches[m], Credit, Debit).Some?
    && var sides := SplitSides(s, s.matches[m], Credit, Debit).value;
       var refund, purchase := s.rows[sides.0], s.rows[sides.1];
       && !Resolved(refund) && refund.tx.None?
       && (refund.facts.account.Some? || purchase.facts.account.Some?) && refund.facts.usable && valid
  }

  predicate Competes(x: Match, refund: nat) {
    x.kind.Refund? && x.status.Proposed? && (x.left == refund || x.right == refund)
  }

  /** `_dismiss_competing_candidates`. */
  function DismissCompeting(matches: map<nat, Match>, confirmed: nat, refund: nat): map<nat, Match> {
    map x | x in matches ::
      if x != confirmed && Competes(matches[x], refund) then matches[x].(status := Dismissed) else matches[x]
  }

  function ConfirmRefund(s: State, m: nat, valid: bool): State {
    if !CanRefund(s, m, valid) then s else
      var refund := SplitSides(s, s.matches[m], Credit, Debit).value.0;
      var saved := SaveOnce(s.txs, FromRefund(m));
      s.(txs := saved.txs, rows := s.rows[refund := Linked(s.rows[refund], saved.tx)],
         matches := DismissCompeting(s.matches[m := s.matches[m].(status := Confirmed)], m, refund))
  }

  // ---- Undoing ----

  function Released(r: Row, t: nat): Row {
    if r.tx == Some(t) then r.(tx := None, status := Unreviewed) else r
  }

  /** `delete_transaction`: void it and put the rows that fed it back into the queue. */
  function DeleteTx(s: State, t: nat): State {
    if t >= |s.txs| || s.txs[t].voided then s
    else s.(txs := s.txs[t := s.txs[t].(voided := true)], rows := map id | id in s.rows :: Released(s.rows[id], t))
  }

  /** The row whose transaction the unlink of a refund undoes: the first credit row of the pair. The pair is read
      in the order of document, place in it and creation, so either row may come first. */
  function CreditRow(s: State, x: Match, leftFirst: bool): (id: Option<nat>)
    requires x.left in s.rows && x.right in s.rows
    ensures id.Some? ==> id.value in s.rows
  {
    var first, second := if leftFirst then x.left else x.right, if leftFirst then x.right else x.left;
    if s.rows[first].facts.direction.Credit? then Some(first)
    else if s.rows[second].facts.direction.Credit? then Some(second)
    else None
  }

  /** The transaction an unlink has to undo: None when the unlink is refused, Some(None) when there is none. */
  function ToUndo(s: State, x: Match, leftFirst: bool): Option<Option<nat>> {
    if x.left !in s.rows || x.right !in s.rows then None
    else
      var a, b := s.rows[x.left].tx, s.rows[x.right].tx;
      match x.kind
      case Transfer =>
        if a.Some? && (b.None? || b == a) then Some(a) else if a.None? && b.Some? then Some(b) else None
      case Refund =>
        var credit := CreditRow(s, x, leftFirst);
        if credit.None? || s.rows[credit.value].tx.None? then None else Some(s.rows[credit.value].tx)
      case _ => Some(None)
  }

  predicate InForce(txs: seq<Tx>, t: nat) { t < |txs| && !txs[t].voided }

  function Unmerged(r: Row, left: nat, right: nat): Row {
    if r.mergedInto == Some(left) || r.mergedInto == Some(right) then r.(mergedInto := None, status := Unreviewed)
    else r
  }

  function UnmergePair(s: State, left: nat, right: nat): State
    requires left in s.rows && right in s.rows
  {
    s.(rows := s.rows[left := Unmerged(s.rows[left], left, right)][right := Unmerged(s.rows[right], left, right)])
  }

  predicate CanUnlink(s: State, m: nat, leftFirst: bool) {
    && m in s.matches && s.matches[m].status.Confirmed?
    && s.matches[m].left in s.rows && s.matches[m].right in s.rows
    && var undo := ToUndo(s, s.matches[m], leftFirst);
       undo.Some? && (undo.value.Some? ==> InForce(s.txs, undo.value.value))
  }

  function Unlink(s: State, m: nat, leftFirst: bool): State {
    if !CanUnlink(s, m, leftFirst) then s else
      var x := s.matches[m];
      var undo := ToUndo(s, x, leftFirst).value;
      var t := if undo.Some? then DeleteTx(s, undo.value) else s;
      UnmergePair(SetMatch(t, m, Dismissed), x.left, x.right)
  }

  // ---- Import ----

  predicate SameImport(r: Row, run: nat, parser: nat) { r.run == Some(run) && r.parser == parser }

  /** An open row of an earlier pass over the document. */
  predicate Replaced(r: Row, doc: nat, run: Option<nat>) {
    r.doc == doc && r.status.Unreviewed? && (run.None? || r.run != run)
  }

  /** Deleting rows: references to them are set to null, matches on them go with them. */
  function Kept(s: State, doc: nat, run: Option<nat>): State {
    s.(rows := map id | id in s.rows && !Replaced(s.rows[id], doc, run) :: Detached(s.rows, s.rows[id], doc, run),
       matches := map m | m in s.matches && !Touches(s.rows, s.matches[m], doc, run) :: s.matches[m])
  }

  predicate Gone(rows: map<nat, Row>, id: nat, doc: nat, run: Option<nat>) {
    id in rows && Replaced(rows[id], doc, run)
  }

  predicate Touches(rows: map<nat, Row>, m: Match, doc: nat, run: Option<nat>) {
    Gone(rows, m.left, doc, run) || Gone(rows, m.right, doc, run)
  }

  function Detached(rows: map<nat, Row>, r: Row, doc: nat, run: Option<nat>): Row {
    if r.mergedInto.Some? && Gone(rows, r.mergedInto.value, doc, run) then r.(mergedInto := None) else r
  }

  function NewRow(doc: nat, run: Option<nat>, parser: nat, index: nat, facts: Facts): Row {
    Row(doc, run, parser, index, facts, Unreviewed, false, None, None)
  }

  function AddRow(s: State, r: Row): State { s.(rows := s.rows[s.nextRow := r], nextRow := s.nextRow + 1) }

  /** The parsed rows are added in order, the first at place `index`. */
  function AddRows(s: State, doc: nat, run: Option<nat>, parser: nat, index: nat, parsed: seq<Facts>): State
    decreases |parsed|
  {
    if parsed == [] then s else
      AddRows(AddRow(s, NewRow(doc, run, parser, index, parsed[0])), doc, run, parser, index + 1, parsed[1..])
  }

  predicate AlreadyImported(s: State, run: Option<nat>, parser: nat) {
    run.Some? && exists id :: id in s.rows && SameImport(s.rows[id], run.value, parser)
  }

  /** A reviewed row of an earlier pass without a run has the import key of one of the n new rows. */
  predicate Collides(s: State, doc: nat, run: Option<nat>, parser: nat, n: nat) {
    run.None? && exists id :: id in s.rows && SameKey(s.rows[id], doc, parser, n) && !Replaced(s.rows[id], doc, run)
  }

  predicate SameKey(r: Row, doc: nat, parser: nat, n: nat) {
    r.doc == doc && r.run.None? && r.parser == parser && r.index < n
  }

  /** Nothing is done twice for one run, and a colliding import is rolled back. */
  predicate CanImport(s: State, doc: nat, run: Option<nat>, parser: nat, n: nat) {
    !AlreadyImported(s, run, parser) && !Collides(s, doc, run, parser, n)
  }

  function Import(s: State, doc: nat, run: Option<nat>, parser: nat, parsed: seq<Facts>): State {
    if CanImport(s, doc, run, parser, |parsed|) then AddRows(Kept(s, doc, run), doc, run, parser, 0, parsed) else s
  }

  // ---- Events ----

  datatype Event =
    | ImportRows(doc: nat, run: Option<nat>, parser: nat, parsed: seq<Facts>)
    | Accept(row: nat, account: Option<nat>, allowed: bool)
    | Reject(row: nat)
    | Correct(row: nat, facts: Facts)
    | Merge(winner: nat, duplicates: seq<nat>)
    | Propose(a: nat, b: nat, kind: Kind, manual: bool)
    | ConfirmPair(m: nat, winner: nat)
    | MergeAutomatically(m: nat)
    | ConfirmRelation(m: nat)
    | Dismiss(m: nat)
    | MakeTransfer(m: nat, valid: bool)
    | MakeRefund(m: nat, valid: bool)
    | UnlinkMatch(m: nat, leftFirst: bool)
    | DeleteTransaction(tx: nat)

  function Apply(s: State, e: Event): State {
    match e
    case ImportRows(doc, run, parser, parsed) => Import(s, doc, run, parser, parsed)
    case Accept(id, account, allowed) => AcceptRow(s, id, account, allowed)
    case Reject(id) => RejectRow(s, id)
    case Correct(id, facts) => CorrectRow(s, id, facts)
    case Merge(winner, duplicates) => MergeRows(s, winner, duplicates)
    case Propose(a, b, kind, manual) => RecordMatch(s, a, b, kind, manual)
    case ConfirmPair(m, winner) => ConfirmDuplicate(s, m, winner)
    case MergeAutomatically(m) => AutoMerge(s, m)
    case ConfirmRelation(m) => ConfirmRelated(s, m)
    case Dismiss(m) => DismissMatch(s, m)
    case MakeTransfer(m, valid) => ConfirmTransfer(s, m, valid)
    case MakeRefund(m, valid) => ConfirmRefund(s, m, valid)
    case UnlinkMatch(m, leftFirst) => Unlink(s, m, leftFirst)
    case DeleteTransaction(t) => DeleteTx(s, t)
  }
}
