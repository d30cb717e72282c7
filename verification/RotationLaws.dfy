/** Rotation over whole histories of runs: nothing is lost, and what is left behind. */
module RotationLaws {
  import opened Common
  import opened Rotation

  // ---- One row ----

  /** What a column means, whatever key it is under; None when no key opens it. */
  function Meaning(v: Stored): Option<string> {
    match v
    case Empty => Some("")
    case Plain(t) => Some(t)
    case Sealed(_, _, _, t) => Some(t)
    case Broken(_) => None
  }

  predicate SameMeaning(a: Row, b: Row) {
    && a.pk == b.pk && |a.fields| == |b.fields|
    && forall f :: 0 <= f < |a.fields| ==> Meaning(a.fields[f]) == Meaning(b.fields[f])
  }

  lemma RowKeepsMeaning(spec: Spec, row: Row, job: Job)
    ensures SameMeaning(row, RotateRow(spec, row, job))
  {}

  /** Empty, or an envelope at the target version. */
  predicate Moved(v: Stored, job: Job) { Blank(v) || Version(v) == job.newVersion }

  predicate RowMoved(row: Row, job: Job) {
    forall f :: 0 <= f < |row.fields| ==> Moved(row.fields[f], job)
  }

  predicate AllMoved(rows: seq<Row>, job: Job) {
    forall i :: 0 <= i < |rows| ==> RowMoved(rows[i], job)
  }

  lemma {:induction false} FailuresListed(spec: Spec, row: Row, n: nat, f: nat, job: Job)
    requires f < n <= |row.fields|
    ensures Failure(spec.name, row.pk, f) in FailuresOf(spec, row, n, job) <==> StepAt(spec, row, f, job).Fails?
  {
    if f < n - 1 {
      FailuresListed(spec, row, n - 1, f, job);
    } else {
      FailuresBelow(spec, row, n - 1, job);
    }
  }

  lemma {:induction false} FailuresBelow(spec: Spec, row: Row, n: nat, job: Job)
    requires n <= |row.fields|
    ensures forall x :: x in FailuresOf(spec, row, n, job) ==>
      x.model == spec.name && x.pk == row.pk && x.field < n && StepAt(spec, row, x.field, job).Fails?
  {
    if n > 0 {
      FailuresBelow(spec, row, n - 1, job);
    }
  }

  lemma {:induction false} ChangedIffMoves(spec: Spec, row: Row, n: nat, job: Job)
    requires n <= |row.fields|
    ensures Changed(spec, row, n, job) == 0 <==> forall f :: 0 <= f < n ==> !StepAt(spec, row, f, job).Move?
  {
    if n > 0 {
      ChangedIffMoves(spec, row, n - 1, job);
    }
  }

  /** Every field of a rotated row is moved or was reported. */
  lemma FieldSettled(spec: Spec, row: Row, f: nat, job: Job)
    requires f < |row.fields|
    ensures Moved(RotateRow(spec, row, job).fields[f], job) <==> !StepAt(spec, row, f, job).Fails?
  {}

  lemma MovedFieldReads(spec: Spec, row: Row, f: nat, job: Job)
    requires job.newVersion >= 1 && f < |row.fields| && StepAt(spec, row, f, job).Move?
    ensures var after := RotateRow(spec, row, job);
      StepAt(spec, after, f, job) ==
        if StepAt(spec, row, f, job).text == "" then Skip else Keep(StepAt(spec, row, f, job).text)
  {}

  lemma SecondPassSteps(spec: Spec, row: Row, f: nat, job: Job)
    requires job.newVersion >= 1 && f < |row.fields|
    ensures var after := RotateRow(spec, row, job);
      && !StepAt(spec, after, f, job).Move?
      && (StepAt(spec, after, f, job).Raises? <==> StepAt(spec, row, f, job).Raises?)
      && (StepAt(spec, after, f, job).Fails? <==> StepAt(spec, row, f, job).Fails?)
  {
    if StepAt(spec, row, f, job).Move? {
      MovedFieldReads(spec, row, f, job);
    }
  }

  /** A second pass over a rotated row changes nothing and raises only where the first would have. */
  lemma RowIdempotent(spec: Spec, row: Row, job: Job)
    requires job.newVersion >= 1
    ensures RotateRow(spec, RotateRow(spec, row, job), job) == RotateRow(spec, row, job)
    ensures !RowRaises(spec, row, job) ==> !RowRaises(spec, RotateRow(spec, row, job), job)
  {
    var once := RotateRow(spec, row, job);
    forall f | 0 <= f < |row.fields|
      ensures !StepAt(spec, once, f, job).Move? && NewField(spec, once, f, job) == once.fields[f]
      ensures StepAt(spec, once, f, job).Raises? <==> StepAt(spec, row, f, job).Raises?
    {
      SecondPassSteps(spec, row, f, job);
    }
    ChangedIffMoves(spec, once, |once.fields|, job);
    assert !Touched(spec, once, job);
    assert NewFields(spec, once, job) == once.fields;
  }

  /** Rebuilt index columns agree with the merchant the row holds. */
  lemma IndexesAgree(spec: Spec, row: Row, column: nat, job: Job)
    requires Touched(spec, row, job) && column < |row.indexes| && column < |spec.sources|
    requires spec.sources[column] < |row.fields|
    requires var s := StepAt(spec, row, spec.sources[column], job); !s.Fails? && !s.Raises?
    ensures var after := RotateRow(spec, row, job);
      var text := Meaning(after.fields[spec.sources[column]]);
      text.Some? && (text.value != "" ==> after.indexes[column] == Some(job.normalize(text.value)))
  {}

  // ---- Reports add up ----

  lemma MergeAssociative(a: Report, b: Report, c: Report)
    ensures Merge(Merge(a, b), c) == Merge(a, Merge(b, c))
  {}

  lemma ReportAppends(spec: Spec, rows: seq<Row>, row: Row, job: Job)
    ensures RowsReport(spec, rows + [row], job) == Merge(RowsReport(spec, rows, job), RowReport(spec, row, job))
  {
    assert (rows + [row])[..|rows|] == rows;
  }

  lemma {:induction false} ReportSplits(spec: Spec, a: seq<Row>, b: seq<Row>, job: Job)
    ensures RowsReport(spec, a + b, job) == Merge(RowsReport(spec, a, job), RowsReport(spec, b, job))
  {
    if b == [] {
      assert a + b == a;
      MergeNothing(RowsReport(spec, a, job));
    } else {
      var front, last := b[..|b| - 1], b[|b| - 1];
      assert a + b == (a + front) + [last] && b == front + [last];
      ReportSplits(spec, a, front, job);
      ReportAppends(spec, a + front, last, job);
      ReportAppends(spec, front, last, job);
      MergeAssociative(RowsReport(spec, a, job), RowsReport(spec, front, job), RowReport(spec, last, job));
    }
  }

  predicate RowFails(spec: Spec, row: Row, job: Job) {
    exists f :: 0 <= f < |row.fields| && StepAt(spec, row, f, job).Fails?
  }

  lemma RowFailureFree(spec: Spec, row: Row, job: Job)
    ensures RowReport(spec, row, job).failures == [] <==> !RowFails(spec, row, job)
  {
    var own := FailuresOf(spec, row, |row.fields|, job);
    FailuresBelow(spec, row, |row.fields|, job);
    assert own != [] ==> own[0] in own;
    if RowFails(spec, row, job) {
      var f :| 0 <= f < |row.fields| && StepAt(spec, row, f, job).Fails?;
      FailuresListed(spec, row, |row.fields|, f, job);
    }
  }

  lemma {:induction false} FailureFree(spec: Spec, rows: seq<Row>, job: Job)
    ensures RowsReport(spec, rows, job).failures == [] <==>
      forall i :: 0 <= i < |rows| ==> !RowFails(spec, rows[i], job)
  {
    if rows != [] {
      var n := |rows| - 1;
      FailureFree(spec, rows[..n], job);
      RowFailureFree(spec, rows[n], job);
      assert forall i :: 0 <= i < n ==> rows[..n][i] == rows[i];
    }
  }

  // ---- A run is one pass over the rows it reaches ----

  ghost predicate OnePass(t: Table, pos: nat, w: Walk, job: Job)
    requires pos <= |t.rows|
  {
    && pos <= w.pos <= |t.rows|
    && w.table.spec == t.spec
    && w.table.rows == t.rows[..pos] + RotateRows(t.spec, t.rows[pos..w.pos], job) + t.rows[w.pos..]
    && w.report == RowsReport(t.spec, t.rows[pos..w.pos], job)
    && !AnyRaises(t.spec, t.rows[pos..w.pos], job)
    && (w.completed ==> w.pos == |t.rows|)
  }

  /** One committed batch of a walk. */
  lemma WalkContinues(t: Table, pos: nat, size: nat, batches: nat, job: Job)
    requires pos < |t.rows| && size >= 1 && batches > 0
    requires !AnyRaises(t.spec, t.rows[pos..BatchEnd(t.rows, pos, size)], job)
    ensures var end := BatchEnd(t.rows, pos, size);
      var u := CommitBatch(t, pos, end, job);
      && |u.rows| == |t.rows|
      && var rest := WalkFrom(u, end, size, batches - 1, job);
        WalkFrom(t, pos, size, batches, job)
        == rest.(report := Merge(RowsReport(t.spec, t.rows[pos..end], job), rest.report))
  {
    CommitShape(t, pos, BatchEnd(t.rows, pos, size), job);
  }

  lemma MergeNothing(r: Report)
    ensures Merge(r, NOTHING) == r && Merge(NOTHING, r) == r
  {}

  lemma CommitShape(t: Table, pos: nat, end: nat, job: Job)
    requires pos < end <= |t.rows|
    ensures var u := CommitBatch(t, pos, end, job);
      && |u.rows| == |t.rows|
      && u.rows[..end] == t.rows[..pos] + RotateRows(t.spec, t.rows[pos..end], job)
      && (forall q :: end <= q <= |t.rows| ==> u.rows[end..q] == t.rows[end..q] && u.rows[q..] == t.rows[q..])
  {
    var u := CommitBatch(t, pos, end, job);
    assert |RotateRows(t.spec, t.rows[pos..end], job)| == end - pos;
    assert u.rows[end..] == t.rows[end..];
    forall q | end <= q <= |t.rows| ensures u.rows[end..q] == t.rows[end..q] && u.rows[q..] == t.rows[q..] {
      assert u.rows[end..q] == u.rows[end..][..q - end];
      assert u.rows[q..] == u.rows[end..][q - end..];
    }
  }

  lemma NoneRaisesJoin(spec: Spec, a: seq<Row>, b: seq<Row>, job: Job)
    requires !AnyRaises(spec, a, job) && !AnyRaises(spec, b, job)
    ensures !AnyRaises(spec, a + b, job)
  {
    forall i | 0 <= i < |a + b| ensures !RowRaises(spec, (a + b)[i], job) {
      assert (a + b)[i] == if i < |a| then a[i] else b[i - |a|];
    }
  }

  lemma RowsJoin(spec: Spec, a: seq<Row>, b: seq<Row>, job: Job)
    ensures RotateRows(spec, a + b, job) == RotateRows(spec, a, job) + RotateRows(spec, b, job)
  {}

  lemma Regroup<T>(a: seq<T>, b: seq<T>, c: seq<T>, d: seq<T>)
    ensures (a + b) + c + d == a + (b + c) + d
  {}

  lemma JoinedRows(t: Table, pos: nat, end: nat, rest: Walk, job: Job)
    requires pos < end <= |t.rows| && |CommitBatch(t, pos, end, job).rows| == |t.rows|
    requires OnePass(CommitBatch(t, pos, end, job), end, rest, job)
    ensures rest.table.rows == t.rows[..pos] + RotateRows(t.spec, t.rows[pos..rest.pos], job) + t.rows[rest.pos..]
  {
    var first, second := t.rows[pos..end], t.rows[end..rest.pos];
    CommitShape(t, pos, end, job);
    Regroup(t.rows[..pos], RotateRows(t.spec, first, job), RotateRows(t.spec, second, job), t.rows[rest.pos..]);
    RowsJoin(t.spec, first, second, job);
    assert t.rows[pos..rest.pos] == first + second;
  }

  lemma PassesJoin(t: Table, pos: nat, end: nat, w: Walk, rest: Walk, job: Job)
    requires pos < end <= |t.rows| && !AnyRaises(t.spec, t.rows[pos..end], job)
    requires |CommitBatch(t, pos, end, job).rows| == |t.rows|
    requires OnePass(CommitBatch(t, pos, end, job), end, rest, job)
    requires w == rest.(report := Merge(RowsReport(t.spec, t.rows[pos..end], job), rest.report))
    ensures OnePass(t, pos, w, job)
  {
    var first, second := t.rows[pos..end], t.rows[end..rest.pos];
    CommitShape(t, pos, end, job);
    JoinedRows(t, pos, end, rest, job);
    assert t.rows[pos..rest.pos] == first + second;
    ReportSplits(t.spec, first, second, job);
    NoneRaisesJoin(t.spec, first, second, job);
  }

  lemma EmptyPass(t: Table, pos: nat, w: Walk, job: Job)
    requires pos <= |t.rows| && w.pos == pos && w.table.spec == t.spec && w.table.rows == t.rows
    requires w.report == NOTHING && (w.completed ==> pos == |t.rows|)
    ensures OnePass(t, pos, w, job)
  {
    assert t.rows[pos..pos] == [];
    assert t.rows == t.rows[..pos] + [] + t.rows[pos..];
    assert RotateRows(t.spec, [], job) == [];
  }

  /** Batch sizes, kills and exceptions decide how far a run gets, and nothing else. */
  lemma {:induction false} WalkIsOnePass(t: Table, pos: nat, size: nat, batches: nat, job: Job)
    requires pos <= |t.rows| && size >= 1
    ensures OnePass(t, pos, WalkFrom(t, pos, size, batches, job), job)
    decreases |t.rows| - pos
  {
    var end := BatchEnd(t.rows, pos, size);
    if batches == 0 || pos == |t.rows| || AnyRaises(t.spec, t.rows[pos..end], job) {
      EmptyPass(t, pos, WalkFrom(t, pos, size, batches, job), job);
    } else {
      CommitShape(t, pos, end, job);
      WalkIsOnePass(CommitBatch(t, pos, end, job), end, size, batches - 1, job);
      PassesJoin(t, pos, end, WalkFrom(t, pos, size, batches, job),
                 WalkFrom(CommitBatch(t, pos, end, job), end, size, batches - 1, job), job);
    }
  }
}
