/** Rotation while the application keeps writing: rows are written, added and removed between runs, every write
    under the new key because it is active before rotation starts. */
module RotationWrites {
  import opened Common
  import opened Rotation
  import opened RotationLaws
  import opened RotationRuns

  datatype Step =
    | Rotate(run: Run)
    | Write(pk: int, field: nat, text: string)
    | Insert(row: Row)
    | Remove(pk: int)

  function WriteField(spec: Spec, row: Row, f: nat, text: string, job: Job): Row {
    if f < |row.fields| then row.(fields := row.fields[f := Encrypt(text, At(spec, row, f), job)]) else row
  }

  function InsertRow(rows: seq<Row>, row: Row): seq<Row> {
    rows[..Position(rows, row.pk)] + [row] + rows[Position(rows, row.pk)..]
  }

  /** A new row has an unused key and nothing under an older one. */
  predicate CanInsert(rows: seq<Row>, row: Row, job: Job) {
    RowMoved(row, job) && forall i :: 0 <= i < |rows| ==> rows[i].pk != row.pk
  }

  function WriteRows(t: Table, pk: int, f: nat, text: string, job: Job): seq<Row> {
    seq(|t.rows|, i requires 0 <= i < |t.rows| =>
      if t.rows[i].pk == pk then WriteField(t.spec, t.rows[i], f, text, job) else t.rows[i])
  }

  function Without(rows: seq<Row>, pk: int): seq<Row> {
    if rows == [] then [] else
      Without(rows[..|rows| - 1], pk) + if rows[|rows| - 1].pk == pk then [] else [rows[|rows| - 1]]
  }

  function Apply(t: Table, s: Step, job: Job): Table {
    match s
    case Rotate(r) => RotateModel(t, r.size, r.batches, job).table
    case Write(pk, f, text) => t.(rows := WriteRows(t, pk, f, text, job))
    case Insert(row) => if CanInsert(t.rows, row, job) then t.(rows := InsertRow(t.rows, row)) else t
    case Remove(pk) => t.(rows := Without(t.rows, pk))
  }

  function History(t: Table, steps: seq<Step>, job: Job): Table {
    if steps == [] then t else Apply(History(t, steps[..|steps| - 1], job), steps[|steps| - 1], job)
  }

  /** Failures the runs of a history met in batches they committed. */
  function Log(t: Table, steps: seq<Step>, job: Job): seq<Failure> {
    if steps == [] then [] else
      var front, last := steps[..|steps| - 1], steps[|steps| - 1];
      Log(t, front, job)
      + if last.Rotate? then RotateModel(History(t, front, job), last.run.size, last.run.batches, job).report.failures
        else []
  }

  // ---- What a run keeps, whatever the table ----

  /** A run changes no column's meaning, from any table and any checkpoint. */
  lemma RunKeepsMeaning(t: Table, r: Run, job: Job, i: nat)
    requires i < |t.rows|
    ensures var after := RotateModel(t, r.size, r.batches, job).table;
      |after.rows| == |t.rows| && SameMeaning(t.rows[i], after.rows[i])
  {
    var w := RotateModel(t, r.size, r.batches, job);
    WalkIsOnePass(t, StartOf(t), r.size, r.batches, job);
    PassByRow(t, StartOf(t), w, job);
    RowKeepsMeaning(t.spec, t.rows[i], job);
  }

  // ---- Rows behind the cursor ----

  /** At or before the cursor; everything, once a run has completed. */
  predicate Behind(c: Option<Checkpoint>, pk: int) {
    c.Some? && (c.value.complete || (c.value.last.Some? && pk <= c.value.last.value))
  }

  predicate SettledRow(model: string, row: Row, log: seq<Failure>, job: Job) {
    forall f :: 0 <= f < |row.fields| ==> Moved(row.fields[f], job) || Failure(model, row.pk, f) in log
  }

  predicate Settled(t: Table, log: seq<Failure>, job: Job) {
    forall i :: 0 <= i < |t.rows| && Behind(t.checkpoint, t.rows[i].pk) ==> SettledRow(t.spec.name, t.rows[i], log, job)
  }

  /** The cursor of an unfinished checkpoint is set. */
  predicate CursorSet(t: Table) {
    t.checkpoint.Some? ==> t.checkpoint.value.complete || t.checkpoint.value.last.Some?
  }

  lemma RotatedRowSettled(spec: Spec, row: Row, log: seq<Failure>, report: Report, job: Job)
    requires forall f :: 0 <= f < |row.fields| && StepAt(spec, row, f, job).Fails? ==>
      Failure(spec.name, row.pk, f) in report.failures
    ensures SettledRow(spec.name, RotateRow(spec, row, job), log + report.failures, job)
  {
    var after := RotateRow(spec, row, job);
    forall f | 0 <= f < |after.fields|
      ensures Moved(after.fields[f], job) || Failure(spec.name, after.pk, f) in log + report.failures
    {
      FieldSettled(spec, row, f, job);
    }
  }

  lemma ReachedRowSettled(t: Table, pos: nat, w: Walk, log: seq<Failure>, i: nat, job: Job)
    requires pos <= i < w.pos <= |t.rows| == |w.table.rows| && OnePass(t, pos, w, job)
    ensures SettledRow(t.spec.name, w.table.rows[i], log + w.report.failures, job)
  {
    PassByRow(t, pos, w, job);
    var walked := t.rows[pos..w.pos];
    assert walked[i - pos] == t.rows[i];
    forall f | 0 <= f < |t.rows[i].fields| && StepAt(t.spec, t.rows[i], f, job).Fails?
      ensures Failure(t.spec.name, t.rows[i].pk, f) in w.report.failures
    {
      ReportLists(t.spec, walked, i - pos, f, job);
    }
    RotatedRowSettled(t.spec, t.rows[i], log, w.report, job);
  }

  lemma LongerLog(model: string, row: Row, log: seq<Failure>, more: seq<Failure>, job: Job)
    requires SettledRow(model, row, log, job)
    ensures SettledRow(model, row, log + more, job)
  {}

  /** A row behind the new cursor was reached by this run, or lay behind the old one. */
  lemma BehindAfterRun(t: Table, r: Run, i: nat, job: Job)
    requires Ordered(t.rows) && CursorSet(t) && i < |t.rows|
    requires var w := RotateModel(t, r.size, r.batches, job);
      w.pos <= |t.rows| && CheckpointFits(t, StartOf(t), w) && (w.completed ==> w.pos == |t.rows|)
    requires Behind(RotateModel(t, r.size, r.batches, job).table.checkpoint, t.rows[i].pk)
    ensures StartOf(t) <= i < RotateModel(t, r.size, r.batches, job).pos || Behind(t.checkpoint, t.rows[i].pk)
  {
    var w, start := RotateModel(t, r.size, r.batches, job), StartOf(t);
    if w.pos > start && i >= w.pos {
      assert t.rows[w.pos - 1].pk < t.rows[i].pk;
    }
    if i < start {
      assert t.rows[i].pk <= ResumePoint(t.checkpoint).value;
    }
  }

  lemma RunSettles(t: Table, r: Run, log: seq<Failure>, job: Job)
    requires Ordered(t.rows) && CursorSet(t) && Settled(t, log, job)
    ensures var w := RotateModel(t, r.size, r.batches, job);
      && Ordered(w.table.rows) && CursorSet(w.table) && w.table.spec == t.spec
      && Settled(w.table, log + w.report.failures, job)
  {
    var w := RotateModel(t, r.size, r.batches, job);
    WalkIsOnePass(t, StartOf(t), r.size, r.batches, job);
    WalkCheckpoint(t, StartOf(t), r.size, r.batches, job);
    PassByRow(t, StartOf(t), w, job);
    forall i | 0 <= i < |w.table.rows| && Behind(w.table.checkpoint, w.table.rows[i].pk)
      ensures SettledRow(t.spec.name, w.table.rows[i], log + w.report.failures, job)
    {
      BehindAfterRun(t, r, i, job);
      if StartOf(t) <= i < w.pos {
        ReachedRowSettled(t, StartOf(t), w, log, i, job);
      } else {
        LongerLog(t.spec.name, t.rows[i], log, w.report.failures, job);
      }
    }
  }

  lemma WriteSettles(t: Table, pk: int, f: nat, text: string, log: seq<Failure>, job: Job)
    requires Ordered(t.rows) && Settled(t, log, job)
    ensures var after := t.(rows := WriteRows(t, pk, f, text, job));
      Ordered(after.rows) && Settled(after, log, job)
  {
    var rows := WriteRows(t, pk, f, text, job);
    forall i | 0 <= i < |rows| && Behind(t.checkpoint, rows[i].pk) ensures SettledRow(t.spec.name, rows[i], log, job) {
      assert SettledRow(t.spec.name, t.rows[i], log, job);
    }
  }

  lemma InsertSettles(t: Table, row: Row, log: seq<Failure>, job: Job)
    requires Ordered(t.rows) && Settled(t, log, job) && CanInsert(t.rows, row, job)
    ensures var after := t.(rows := InsertRow(t.rows, row));
      Ordered(after.rows) && Settled(after, log, job)
  {
    var n, rows := Position(t.rows, row.pk), InsertRow(t.rows, row);
    assert forall i :: 0 <= i < |rows| ==>
      rows[i] == if i < n then t.rows[i] else if i == n then row else t.rows[i - 1];
    assert SettledRow(t.spec.name, row, log, job);
    forall i, j | 0 <= i < j < |rows| ensures rows[i].pk < rows[j].pk {
      assert n < |t.rows| ==> t.rows[n].pk > row.pk;
    }
  }

  lemma {:induction false} WithoutShape(rows: seq<Row>, pk: int)
    ensures |Without(rows, pk)| <= |rows| && forall x :: x in Without(rows, pk) ==> x in rows
    ensures Ordered(rows) ==> Ordered(Without(rows, pk))
  {
    if rows != [] {
      var front, last := rows[..|rows| - 1], rows[|rows| - 1];
      WithoutShape(front, pk);
      if Ordered(rows) {
        forall x | x in Without(front, pk) ensures x.pk < last.pk {
          var k :| 0 <= k < |front| && front[k] == x;
        }
      }
    }
  }

  lemma RemoveSettles(t: Table, pk: int, log: seq<Failure>, job: Job)
    requires Ordered(t.rows) && Settled(t, log, job)
    ensures var after := t.(rows := Without(t.rows, pk));
      Ordered(after.rows) && Settled(after, log, job)
  {
    WithoutShape(t.rows, pk);
    var rows := Without(t.rows, pk);
    forall i | 0 <= i < |rows| && Behind(t.checkpoint, rows[i].pk) ensures SettledRow(t.spec.name, rows[i], log, job) {
      assert rows[i] in t.rows;
      var k :| 0 <= k < |t.rows| && t.rows[k] == rows[i];
    }
  }

  /** Whatever is written, added or removed between interrupted and resumed runs, each field of each row at or
      before the cursor, and of every row once a run has completed, is empty, at the target version, or named
      in a run's failures. */
  lemma {:induction false} SettledDespiteWrites(start: Table, steps: seq<Step>, job: Job)
    requires Fresh(start)
    ensures var t := History(start, steps, job);
      Ordered(t.rows) && CursorSet(t) && Settled(t, Log(start, steps, job), job)
  {
    if steps != [] {
      var front, last := steps[..|steps| - 1], steps[|steps| - 1];
      var t, log := History(start, front, job), Log(start, front, job);
      SettledDespiteWrites(start, front, job);
      assert log + [] == log;
      match last
      case Rotate(r) => RunSettles(t, r, log, job);
      case Write(pk, f, text) => WriteSettles(t, pk, f, text, log, job);
      case Insert(row) => if CanInsert(t.rows, row, job) { InsertSettles(t, row, log, job); }
      case Remove(pk) => RemoveSettles(t, pk, log, job);
    }
  }

  /** A rotation none of whose runs met a failure has moved every value once a run has completed. */
  lemma NoFailuresMeansAllMoved(start: Table, steps: seq<Step>, job: Job)
    requires Fresh(start) && Log(start, steps, job) == []
    requires History(start, steps, job).checkpoint.Some? && History(start, steps, job).checkpoint.value.complete
    ensures AllMoved(History(start, steps, job).rows, job)
  {
    SettledDespiteWrites(start, steps, job);
    var t := History(start, steps, job);
    forall i | 0 <= i < |t.rows| ensures RowMoved(t.rows[i], job) {
      assert SettledRow(t.spec.name, t.rows[i], [], job);
    }
  }
}
