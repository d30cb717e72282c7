/** Interrupted and resumed rotations. */
module RotationRuns {
  import opened Common
  import opened Rotation
  import opened RotationLaws

  type Size = n: nat | n >= 1 witness 1

  /** A run with its batch size, killed after `batches` commits unless it ends before. */
  datatype Run = Run(size: Size, batches: nat)

  function After(t: Table, runs: seq<Run>, job: Job): Table {
    if runs == [] then t else
      var r := runs[|runs| - 1];
      RotateModel(After(t, runs[..|runs| - 1], job), r.size, r.batches, job).table
  }

  /** Every failure any of the runs met in a batch it committed. */
  function Reported(t: Table, runs: seq<Run>, job: Job): seq<Failure> {
    if runs == [] then [] else
      var front, r := runs[..|runs| - 1], runs[|runs| - 1];
      Reported(t, front, job) + RotateModel(After(t, front, job), r.size, r.batches, job).report.failures
  }

  // ---- The checkpoint follows the walk ----

  lemma Spliced(rows: seq<Row>, pos: nat, end: nat, middle: seq<Row>)
    requires pos <= end <= |rows| && |middle| == end - pos
    ensures var s := rows[..pos] + middle + rows[end..];
      && |s| == |rows|
      && forall i :: 0 <= i < |rows| ==> s[i] == if pos <= i < end then middle[i - pos] else rows[i]
  {}

  lemma CommitKeepsKeys(t: Table, pos: nat, end: nat, job: Job)
    requires pos < end <= |t.rows|
    ensures |CommitBatch(t, pos, end, job).rows| == |t.rows|
    ensures forall i :: 0 <= i < |t.rows| ==> CommitBatch(t, pos, end, job).rows[i].pk == t.rows[i].pk
  {
    Spliced(t.rows, pos, end, RotateRows(t.spec, t.rows[pos..end], job));
  }

  lemma RecordsAddUp(c: Option<Checkpoint>, a: Option<int>, m: nat, b: Option<int>, n: nat, complete: bool)
    ensures Record(Record(c, a, m, false), b, n, complete) == Record(c, b, m + n, complete)
  {}

  function CheckpointAfter(t: Table, pos: nat, q: nat, completed: bool): Option<Checkpoint>
    requires pos <= q <= |t.rows|
  {
    if completed then Record(t.checkpoint, None, q - pos, true)
    else if q == pos then t.checkpoint
    else Record(t.checkpoint, Some(t.rows[q - 1].pk), q - pos, false)
  }

  lemma CheckpointStep(t: Table, pos: nat, end: nat, q: nat, completed: bool, job: Job)
    requires pos < end <= q <= |t.rows| && |CommitBatch(t, pos, end, job).rows| == |t.rows|
    ensures CheckpointAfter(CommitBatch(t, pos, end, job), end, q, completed) == CheckpointAfter(t, pos, q, completed)
  {
    var u, last := CommitBatch(t, pos, end, job), Some(t.rows[end - 1].pk);
    CommitKeepsKeys(t, pos, end, job);
    assert u.checkpoint == Record(t.checkpoint, last, end - pos, false);
    if completed {
      RecordsAddUp(t.checkpoint, last, end - pos, None, q - end, true);
    } else if q > end {
      assert u.rows[q - 1].pk == t.rows[q - 1].pk;
      RecordsAddUp(t.checkpoint, last, end - pos, Some(t.rows[q - 1].pk), q - end, false);
    }
  }

  predicate CheckpointFits(t: Table, pos: nat, w: Walk) {
    pos <= w.pos <= |t.rows| && w.table.checkpoint == CheckpointAfter(t, pos, w.pos, w.completed)
  }

  /** What is left of a walk that stops where it is, and of one that commits another batch. */
  predicate StandsStill(t: Table, pos: nat, w: Walk) {
    w.pos == pos && w.table.checkpoint == if w.completed then Record(t.checkpoint, None, 0, true) else t.checkpoint
  }

  predicate GoesOn(u: Table, rest: Walk, t: Table, w: Walk) {
    |u.rows| == |t.rows| && w.pos == rest.pos && w.completed == rest.completed && w.table == rest.table
  }

  lemma CheckpointAtStart(t: Table, pos: nat, w: Walk)
    requires pos <= |t.rows| && StandsStill(t, pos, w)
    ensures CheckpointFits(t, pos, w)
  {}

  lemma CheckpointAfterBatch(t: Table, pos: nat, end: nat, rest: Walk, w: Walk, job: Job)
    requires pos < end <= |t.rows| && GoesOn(CommitBatch(t, pos, end, job), rest, t, w)
    requires CheckpointFits(CommitBatch(t, pos, end, job), end, rest)
    ensures CheckpointFits(t, pos, w)
  {
    CheckpointStep(t, pos, end, rest.pos, rest.completed, job);
  }

  lemma WalkCases(t: Table, pos: nat, size: nat, batches: nat, job: Job) returns (stops: bool)
    requires pos <= |t.rows| && size >= 1
    ensures stops ==> StandsStill(t, pos, WalkFrom(t, pos, size, batches, job))
    ensures !stops ==>
      && pos < |t.rows| && batches > 0
      && var end := BatchEnd(t.rows, pos, size);
         var u := CommitBatch(t, pos, end, job);
         && |u.rows| == |t.rows|
         && GoesOn(u, WalkFrom(u, end, size, batches - 1, job), t, WalkFrom(t, pos, size, batches, job))
  {
    stops := batches == 0 || pos == |t.rows| || AnyRaises(t.spec, t.rows[pos..BatchEnd(t.rows, pos, size)], job);
    if !stops {
      WalkContinues(t, pos, size, batches, job);
    }
  }

  lemma {:induction false} WalkCheckpoint(t: Table, pos: nat, size: nat, batches: nat, job: Job)
    requires pos <= |t.rows| && size >= 1
    ensures CheckpointFits(t, pos, WalkFrom(t, pos, size, batches, job))
    decreases |t.rows| - pos
  {
    var w := WalkFrom(t, pos, size, batches, job);
    var stops := WalkCases(t, pos, size, batches, job);
    if stops {
      CheckpointAtStart(t, pos, w);
    } else {
      var end := BatchEnd(t.rows, pos, size);
      var u := CommitBatch(t, pos, end, job);
      WalkCheckpoint(u, end, size, batches - 1, job);
      CheckpointAfterBatch(t, pos, end, WalkFrom(u, end, size, batches - 1, job), w, job);
    }
  }

  lemma PositionOfRow(rows: seq<Row>, k: nat)
    requires Ordered(rows) && k < |rows|
    ensures Position(rows, rows[k].pk) == k + 1
  {
    if k + 1 < |rows| {
      assert rows[k].pk < rows[k + 1].pk;
    }
  }

  // ---- A rotation in pieces ----

  function Part(t: Table, p: nat, job: Job): seq<Row>
    requires p <= |t.rows|
  {
    RotateRows(t.spec, t.rows[..p], job) + t.rows[p..]
  }

  /** How many rows the runs so far have finished. */
  function Progress(t: Table): nat {
    if t.checkpoint.None? then 0
    else if t.checkpoint.value.complete then |t.rows|
    else if t.checkpoint.value.last.Some? then Position(t.rows, t.checkpoint.value.last.value)
    else 0
  }

  predicate Fresh(t: Table) { Ordered(t.rows) && t.checkpoint.None? }

  /** The table is the first one with exactly the finished rows rotated, each once; until the first
      completion the checkpoint's counter is their number. */
  predicate InStep(start: Table, t: Table, job: Job) {
    && t.spec == start.spec && |t.rows| == |start.rows|
    && Progress(t) <= |t.rows|
    && t.rows == Part(start, Progress(t), job)
    && !AnyRaises(start.spec, start.rows[..Progress(t)], job)
    && (t.checkpoint.Some? && !t.checkpoint.value.complete ==>
          t.checkpoint.value.last.Some? && t.checkpoint.value.rowsRotated == Progress(t))
  }

  lemma PartShape(t: Table, p: nat, job: Job)
    requires p <= |t.rows|
    ensures var part := Part(t, p, job);
      && |part| == |t.rows|
      && (forall i :: 0 <= i < |part| ==> part[i] == if i < p then RotateRow(t.spec, t.rows[i], job) else t.rows[i])
      && (forall i :: 0 <= i < |part| ==> part[i].pk == t.rows[i].pk)
  {}

  /** A pass, row by row. */
  lemma PassByRow(t: Table, pos: nat, w: Walk, job: Job)
    requires pos <= |t.rows| && OnePass(t, pos, w, job)
    ensures |w.table.rows| == |t.rows|
    ensures forall i :: 0 <= i < |t.rows| ==>
      w.table.rows[i] == if pos <= i < w.pos then RotateRow(t.spec, t.rows[i], job) else t.rows[i]
  {
    var middle := RotateRows(t.spec, t.rows[pos..w.pos], job);
    Spliced(t.rows, pos, w.pos, middle);
    forall i | 0 <= i < |t.rows| && pos <= i < w.pos ensures middle[i - pos] == RotateRow(t.spec, t.rows[i], job) {
      assert t.rows[pos..w.pos][i - pos] == t.rows[i];
    }
  }

  lemma PartTail(start: Table, p: nat, q: nat, job: Job)
    requires p <= q <= |start.rows|
    ensures |Part(start, p, job)| == |start.rows| && Part(start, p, job)[p..q] == start.rows[p..q]
  {
    PartShape(start, p, job);
  }

  lemma ExtendPart(start: Table, t: Table, w: Walk, job: Job)
    requires t.spec == start.spec && Progress(t) <= |t.rows| == |start.rows| && t.rows == Part(start, Progress(t), job)
    requires OnePass(t, Progress(t), w, job)
    ensures w.table.rows == Part(start, w.pos, job)
  {
    PartShape(start, Progress(t), job);
    PartShape(start, w.pos, job);
    PassByRow(t, Progress(t), w, job);
    forall i | 0 <= i < |start.rows| ensures w.table.rows[i] == Part(start, w.pos, job)[i] {}
  }

  lemma RepeatPart(start: Table, t: Table, w: Walk, job: Job)
    requires job.newVersion >= 1
    requires t.spec == start.spec && |t.rows| == |start.rows| && t.rows == Part(start, |start.rows|, job)
    requires OnePass(t, 0, w, job)
    ensures w.table.rows == t.rows
  {
    PartShape(start, |start.rows|, job);
    PassByRow(t, 0, w, job);
    forall i | 0 <= i < |t.rows| ensures w.table.rows[i] == t.rows[i] {
      RowIdempotent(t.spec, start.rows[i], job);
    }
  }

  lemma NoRaisesJoin(start: Table, t: Table, p: nat, q: nat, job: Job)
    requires p <= q <= |start.rows| == |t.rows| && t.spec == start.spec
    requires !AnyRaises(start.spec, start.rows[..p], job) && !AnyRaises(t.spec, t.rows[p..q], job)
    requires t.rows[p..q] == start.rows[p..q]
    ensures !AnyRaises(start.spec, start.rows[..q], job)
  {
    forall i | 0 <= i < |start.rows[..q]| ensures !RowRaises(start.spec, start.rows[..q][i], job) {
      assert i < p ==> start.rows[..q][i] == start.rows[..p][i];
      assert i >= p ==> start.rows[..q][i] == start.rows[p..q][i - p];
    }
  }

  lemma OrderedParts(start: Table, p: nat, job: Job)
    requires Ordered(start.rows) && p <= |start.rows|
    ensures Ordered(Part(start, p, job))
  {
    PartShape(start, p, job);
  }

  /** The checkpoint of a first walk names the row the walk stopped behind. */
  lemma ProgressAfter(t: Table, u: Table, pos: nat, q: nat, completed: bool)
    requires Ordered(t.rows) && pos <= q <= |t.rows| == |u.rows| && (completed ==> q == |t.rows|)
    requires pos == Progress(t) && (t.checkpoint.Some? ==> !t.checkpoint.value.complete)
    requires forall i :: 0 <= i < |t.rows| ==> u.rows[i].pk == t.rows[i].pk
    requires u.checkpoint == CheckpointAfter(t, pos, q, completed)
    ensures Progress(u) == q
  {
    if completed {
    } else if q > pos {
      PositionOfRow(t.rows, q - 1);
      SamePosition(t.rows, u.rows, t.rows[q - 1].pk);
    } else if t.checkpoint.Some? && t.checkpoint.value.last.Some? {
      SamePosition(t.rows, u.rows, t.checkpoint.value.last.value);
    }
  }

  lemma {:induction false} SamePosition(a: seq<Row>, b: seq<Row>, cursor: int)
    requires |a| == |b| && forall i :: 0 <= i < |a| ==> a[i].pk == b[i].pk
    ensures Position(a, cursor) == Position(b, cursor)
  {
    if a != [] && a[0].pk <= cursor {
      SamePosition(a[1..], b[1..], cursor);
    }
  }

  predicate FirstWalk(t: Table) { t.checkpoint.None? || !t.checkpoint.value.complete }

  lemma StartIsProgress(start: Table, t: Table, job: Job)
    requires InStep(start, t, job) && FirstWalk(t)
    ensures StartOf(t) == Progress(t)
  {}

  /** What one run of the first walk does. */
  ghost predicate FirstWalkStep(start: Table, t: Table, w: Walk, job: Job)
    requires Progress(t) <= |t.rows|
  {
    && OnePass(t, Progress(t), w, job)
    && w.pos <= |start.rows| && w.table.rows == Part(start, w.pos, job)
    && t.rows[Progress(t)..w.pos] == start.rows[Progress(t)..w.pos]
    && w.table.checkpoint == CheckpointAfter(t, Progress(t), w.pos, w.completed)
    && Progress(w.table) == w.pos
  }

  lemma FirstWalkSteps(start: Table, t: Table, r: Run, job: Job)
    requires Fresh(start) && InStep(start, t, job) && FirstWalk(t)
    ensures FirstWalkStep(start, t, RotateModel(t, r.size, r.batches, job), job)
  {
    var w := RotateModel(t, r.size, r.batches, job);
    var p := Progress(t);
    StartIsProgress(start, t, job);
    WalkIsOnePass(t, p, r.size, r.batches, job);
    WalkCheckpoint(t, p, r.size, r.batches, job);
    ExtendPart(start, t, w, job);
    PartTail(start, p, w.pos, job);
    PartShape(start, w.pos, job);
    PartShape(start, p, job);
    OrderedParts(start, p, job);
    ProgressAfter(t, w.table, p, w.pos, w.completed);
  }

  lemma FirstWalkKeepsStep(start: Table, t: Table, r: Run, job: Job)
    requires Fresh(start) && InStep(start, t, job) && FirstWalk(t)
    ensures InStep(start, RotateModel(t, r.size, r.batches, job).table, job)
  {
    var w := RotateModel(t, r.size, r.batches, job);
    FirstWalkSteps(start, t, r, job);
    PartShape(start, w.pos, job);
    NoRaisesJoin(start, t, Progress(t), w.pos, job);
  }

  lemma LaterWalkKeepsStep(start: Table, t: Table, r: Run, job: Job)
    requires Fresh(start) && InStep(start, t, job) && job.newVersion >= 1
    requires t.checkpoint.Some? && t.checkpoint.value.complete
    ensures InStep(start, RotateModel(t, r.size, r.batches, job).table, job)
  {
    var w := RotateModel(t, r.size, r.batches, job);
    WalkIsOnePass(t, 0, r.size, r.batches, job);
    RepeatPart(start, t, w, job);
    WalkCheckpoint(t, 0, r.size, r.batches, job);
  }

  /** Runs with any batch sizes, interrupted after any committed batch and resumed any number of times, amount
      to one pass over the original rows: the finished rows rotated once, the others untouched. */
  lemma {:induction false} ResumedEqualsOnePass(start: Table, runs: seq<Run>, job: Job)
    requires Fresh(start) && job.newVersion >= 1
    ensures InStep(start, After(start, runs, job), job)
  {
    if runs == [] {
      assert start.rows == RotateRows(start.spec, start.rows[..0], job) + start.rows[0..];
    } else {
      var front, r := runs[..|runs| - 1], runs[|runs| - 1];
      var t := After(start, front, job);
      ResumedEqualsOnePass(start, front, job);
      if !FirstWalk(t) {
        LaterWalkKeepsStep(start, t, r, job);
      } else {
        FirstWalkKeepsStep(start, t, r, job);
      }
    }
  }

  /** No run, interruption or failure changes what any column means. */
  lemma PlaintextsNeverChange(start: Table, runs: seq<Run>, job: Job, i: nat)
    requires Fresh(start) && job.newVersion >= 1 && i < |start.rows|
    ensures var t := After(start, runs, job);
      |t.rows| == |start.rows| && SameMeaning(start.rows[i], t.rows[i])
  {
    var t := After(start, runs, job);
    ResumedEqualsOnePass(start, runs, job);
    PartShape(start, Progress(t), job);
    RowKeepsMeaning(start.spec, start.rows[i], job);
  }

  // ---- Rows behind the cursor ----

  /** Every failing field of the first p rows is in the log. */
  ghost predicate Logged(start: Table, p: nat, log: seq<Failure>, job: Job)
    requires p <= |start.rows|
  {
    forall i, f :: 0 <= i < p && FailsAt(start, i, f, job) ==> Failure(start.spec.name, start.rows[i].pk, f) in log
  }

  predicate FailsAt(t: Table, i: nat, f: nat, job: Job) {
    i < |t.rows| && f < |t.rows[i].fields| && StepAt(t.spec, t.rows[i], f, job).Fails?
  }

  lemma {:induction false} ReportLists(spec: Spec, rows: seq<Row>, i: nat, f: nat, job: Job)
    requires i < |rows| && f < |rows[i].fields| && StepAt(spec, rows[i], f, job).Fails?
    ensures Failure(spec.name, rows[i].pk, f) in RowsReport(spec, rows, job).failures
  {
    var n := |rows| - 1;
    if i < n {
      ReportLists(spec, rows[..n], i, f, job);
    } else {
      FailuresListed(spec, rows[i], |rows[i].fields|, f, job);
    }
  }

  lemma LoggedOrReported(start: Table, p: nat, q: nat, log: seq<Failure>, i: nat, f: nat, job: Job)
    requires p <= q <= |start.rows| && i < q && FailsAt(start, i, f, job) && Logged(start, p, log, job)
    ensures Failure(start.spec.name, start.rows[i].pk, f)
            in log + RowsReport(start.spec, start.rows[p..q], job).failures
  {
    if i < p {
      assert Failure(start.spec.name, start.rows[i].pk, f) in log;
    } else {
      assert start.rows[p..q][i - p] == start.rows[i];
      ReportLists(start.spec, start.rows[p..q], i - p, f, job);
    }
  }

  lemma ReportExtendsLog(start: Table, t: Table, w: Walk, log: seq<Failure>, job: Job)
    requires InStep(start, t, job) && FirstWalkStep(start, t, w, job) && Logged(start, Progress(t), log, job)
    ensures Logged(start, w.pos, log + w.report.failures, job)
  {
    forall i, f | 0 <= i < w.pos && FailsAt(start, i, f, job)
      ensures Failure(start.spec.name, start.rows[i].pk, f) in log + w.report.failures
    {
      LoggedOrReported(start, Progress(t), w.pos, log, i, f, job);
    }
  }

  lemma {:induction false} FailuresAreReported(start: Table, runs: seq<Run>, job: Job)
    requires Fresh(start) && job.newVersion >= 1
    ensures Progress(After(start, runs, job)) <= |start.rows|
    ensures Logged(start, Progress(After(start, runs, job)), Reported(start, runs, job), job)
  {
    ResumedEqualsOnePass(start, runs, job);
    if runs != [] {
      var front, r := runs[..|runs| - 1], runs[|runs| - 1];
      var t := After(start, front, job);
      FailuresAreReported(start, front, job);
      ResumedEqualsOnePass(start, front, job);
      if FirstWalk(t) {
        FirstWalkSteps(start, t, r, job);
        ReportExtendsLog(start, t, RotateModel(t, r.size, r.batches, job), Reported(start, front, job), job);
      }
    }
  }

  /** Each declared field of each row at or before the cursor is empty, sealed at the target version, or
      named in the failures of some run; once a run has completed, that is every row. */
  lemma SettledBehindCursor(start: Table, runs: seq<Run>, job: Job, i: nat, f: nat)
    requires Fresh(start) && job.newVersion >= 1
    requires i < Progress(After(start, runs, job)) && i < |start.rows| && f < |start.rows[i].fields|
    ensures var t := After(start, runs, job);
      && i < |t.rows| && f < |t.rows[i].fields|
      && (Moved(t.rows[i].fields[f], job) || Failure(start.spec.name, t.rows[i].pk, f) in Reported(start, runs, job))
  {
    var t := After(start, runs, job);
    ResumedEqualsOnePass(start, runs, job);
    FailuresAreReported(start, runs, job);
    PartShape(start, Progress(t), job);
    FieldSettled(start.spec, start.rows[i], f, job);
  }

  lemma RotatedFails(spec: Spec, row: Row, job: Job)
    requires job.newVersion >= 1
    ensures RowFails(spec, RotateRow(spec, row, job), job) <==> RowFails(spec, row, job)
  {
    var after := RotateRow(spec, row, job);
    forall f | 0 <= f < |row.fields| ensures StepAt(spec, after, f, job).Fails? <==> StepAt(spec, row, f, job).Fails? {
      SecondPassSteps(spec, row, f, job);
    }
  }

  predicate NoneFails(t: Table, job: Job) { forall i :: 0 <= i < |t.rows| ==> !RowFails(t.spec, t.rows[i], job) }

  lemma PartFails(start: Table, t: Table, job: Job)
    requires InStep(start, t, job) && job.newVersion >= 1 && NoneFails(start, job)
    ensures NoneFails(t, job)
  {
    PartShape(start, Progress(t), job);
    forall i | 0 <= i < |t.rows| ensures !RowFails(t.spec, t.rows[i], job) {
      RotatedFails(start.spec, start.rows[i], job);
    }
  }

  lemma {:induction false} NothingFailsNothingReported(start: Table, runs: seq<Run>, job: Job)
    requires Fresh(start) && job.newVersion >= 1 && NoneFails(start, job)
    ensures Reported(start, runs, job) == []
  {
    if runs != [] {
      var front, r := runs[..|runs| - 1], runs[|runs| - 1];
      var t := After(start, front, job);
      NothingFailsNothingReported(start, front, job);
      ResumedEqualsOnePass(start, front, job);
      PartFails(start, t, job);
      WalkIsOnePass(t, StartOf(t), r.size, r.batches, job);
      FailureFree(t.spec, t.rows[StartOf(t)..RotateModel(t, r.size, r.batches, job).pos], job);
    }
  }

  lemma RotatedMovedIff(spec: Spec, row: Row, job: Job)
    ensures RowMoved(RotateRow(spec, row, job), job) <==> !RowFails(spec, row, job)
  {
    forall f | 0 <= f < |row.fields|
      ensures Moved(RotateRow(spec, row, job).fields[f], job) <==> !StepAt(spec, row, f, job).Fails?
    {
      FieldSettled(spec, row, f, job);
    }
  }

  lemma NothingLoggedNoneFails(start: Table, job: Job)
    requires Logged(start, |start.rows|, [], job)
    ensures NoneFails(start, job)
  {
    forall i | 0 <= i < |start.rows| ensures !RowFails(start.spec, start.rows[i], job) {
      forall f | 0 <= f < |start.rows[i].fields| ensures !StepAt(start.spec, start.rows[i], f, job).Fails? {
        assert !FailsAt(start, i, f, job);
      }
    }
  }

  /** Once the runs have completed the table, they moved every value if and only if none of them reported a failure:
      the failures of all runs together say exactly whether something is left behind. */
  lemma AllMovedIffNothingReported(start: Table, runs: seq<Run>, job: Job)
    requires Fresh(start) && job.newVersion >= 1
    requires var c := After(start, runs, job).checkpoint; c.Some? && c.value.complete
    ensures AllMoved(After(start, runs, job).rows, job) <==> Reported(start, runs, job) == []
  {
    var t := After(start, runs, job);
    ResumedEqualsOnePass(start, runs, job);
    PartShape(start, Progress(t), job);
    forall i | 0 <= i < |t.rows| ensures RowMoved(t.rows[i], job) <==> !RowFails(start.spec, start.rows[i], job) {
      RotatedMovedIff(start.spec, start.rows[i], job);
    }
    if NoneFails(start, job) {
      NothingFailsNothingReported(start, runs, job);
    } else if Reported(start, runs, job) == [] {
      FailuresAreReported(start, runs, job);
      NothingLoggedNoneFails(start, job);
    }
  }

  /** Until the first completion the counter is the number of rows at or before the cursor. */
  lemma CounterCountsRows(start: Table, runs: seq<Run>, job: Job)
    requires Fresh(start) && job.newVersion >= 1
    ensures var t := After(start, runs, job);
      t.checkpoint.Some? && !t.checkpoint.value.complete ==>
        && t.checkpoint.value.last.Some?
        && t.checkpoint.value.rowsRotated == Position(t.rows, t.checkpoint.value.last.value) == StartOf(t)
  {
    ResumedEqualsOnePass(start, runs, job);
  }

  // ---- A clean finish does not look back ----

  /** A run that completes without failures leaves every row moved if and only if the rows it did not look
      at, those at or before its resume point, were moved already. */
  lemma CleanFinishIff(t: Table, r: Run, job: Job)
    requires job.newVersion >= 1
    requires var w := RotateModel(t, r.size, r.batches, job); w.completed && w.report.failures == []
    ensures AllMoved(RotateModel(t, r.size, r.batches, job).table.rows, job) <==> AllMoved(t.rows[..StartOf(t)], job)
  {
    var w, p := RotateModel(t, r.size, r.batches, job), StartOf(t);
    WalkIsOnePass(t, p, r.size, r.batches, job);
    PassByRow(t, p, w, job);
    SeenRowsMoved(t, p, w, job);
    forall i | 0 <= i < p ensures RowMoved(w.table.rows[i], job) <==> RowMoved(t.rows[..p][i], job) {
      assert t.rows[..p][i] == t.rows[i];
    }
  }

  lemma SeenRowsMoved(t: Table, p: nat, w: Walk, job: Job)
    requires p <= |t.rows| == |w.table.rows| && OnePass(t, p, w, job) && w.completed && w.report.failures == []
    ensures forall i :: p <= i < |t.rows| ==> RowMoved(w.table.rows[i], job)
  {
    var seen := t.rows[p..w.pos];
    FailureFree(t.spec, seen, job);
    PassByRow(t, p, w, job);
    forall i | p <= i < |t.rows| ensures RowMoved(w.table.rows[i], job) {
      assert seen[i - p] == t.rows[i];
      RotatedMovedIff(t.spec, t.rows[i], job);
    }
  }

  /** Without interruptions, then, a failure-free rotation moves everything. */
  lemma UninterruptedMovesAll(t: Table, r: Run, job: Job)
    requires job.newVersion >= 1 && StartOf(t) == 0
    requires var w := RotateModel(t, r.size, r.batches, job); w.completed && w.report.failures == []
    ensures AllMoved(RotateModel(t, r.size, r.batches, job).table.rows, job)
  {
    CleanFinishIff(t, r, job);
    assert t.rows[..0] == [];
  }

  // ---- A dry run ----

  /** `rotate_model` with dry_run: no resume, no writes, no checkpoint. None when it raises. */
  function DryRun(t: Table, pos: nat, size: Size, job: Job): Option<Report>
    requires pos <= |t.rows|
    decreases |t.rows| - pos
  {
    var end := BatchEnd(t.rows, pos, size);
    if pos == |t.rows| then Some(NOTHING)
    else if AnyRaises(t.spec, t.rows[pos..end], job) then None
    else
      var rest := DryRun(t, end, size, job);
      if rest.None? then None else Some(Merge(RowsReport(t.spec, t.rows[pos..end], job), rest.value))
  }

  lemma RaisesSplit(spec: Spec, rows: seq<Row>, pos: nat, end: nat, job: Job)
    requires pos <= end <= |rows|
    ensures AnyRaises(spec, rows[pos..], job) <==>
      AnyRaises(spec, rows[pos..end], job) || AnyRaises(spec, rows[end..], job)
  {
    if i :| 0 <= i < |rows[pos..end]| && RowRaises(spec, rows[pos..end][i], job) {
      assert rows[pos..][i] == rows[pos..end][i];
    }
    if i :| 0 <= i < |rows[end..]| && RowRaises(spec, rows[end..][i], job) {
      assert rows[pos..][i + end - pos] == rows[end..][i];
    }
    if i :| 0 <= i < |rows[pos..]| && RowRaises(spec, rows[pos..][i], job) {
      assert rows[pos..][i] == if i < end - pos then rows[pos..end][i] else rows[end..][i - (end - pos)];
    }
  }

  /** The dry run's answer in one piece. */
  predicate OneReport(t: Table, pos: nat, dry: Option<Report>, job: Job)
    requires pos <= |t.rows|
  {
    dry == if AnyRaises(t.spec, t.rows[pos..], job) then None else Some(RowsReport(t.spec, t.rows[pos..], job))
  }

  lemma OneReportAfterBatch(t: Table, pos: nat, end: nat, rest: Option<Report>, dry: Option<Report>, job: Job)
    requires pos < end <= |t.rows| && OneReport(t, end, rest, job) && !AnyRaises(t.spec, t.rows[pos..end], job)
    requires dry == if rest.None? then None else Some(Merge(RowsReport(t.spec, t.rows[pos..end], job), rest.value))
    ensures OneReport(t, pos, dry, job)
  {
    RaisesSplit(t.spec, t.rows, pos, end, job);
    ReportOfTail(t.spec, t.rows, pos, end, job);
  }

  lemma ReportOfTail(spec: Spec, rows: seq<Row>, pos: nat, end: nat, job: Job)
    requires pos <= end <= |rows|
    ensures RowsReport(spec, rows[pos..], job)
         == Merge(RowsReport(spec, rows[pos..end], job), RowsReport(spec, rows[end..], job))
  {
    Cut(rows, pos, end);
    ReportOfSplit(spec, rows[pos..], rows[pos..end], rows[end..], job);
  }

  lemma Cut<T>(s: seq<T>, pos: nat, end: nat)
    requires pos <= end <= |s|
    ensures s[pos..] == s[pos..end] + s[end..]
  {}

  lemma ReportOfSplit(spec: Spec, whole: seq<Row>, a: seq<Row>, b: seq<Row>, job: Job)
    requires whole == a + b
    ensures RowsReport(spec, whole, job) == Merge(RowsReport(spec, a, job), RowsReport(spec, b, job))
  {
    ReportSplits(spec, a, b, job);
  }

  lemma OneReportAtStop(t: Table, pos: nat, end: nat, job: Job)
    requires pos <= end <= |t.rows| && (pos < |t.rows| ==> AnyRaises(t.spec, t.rows[pos..end], job))
    ensures OneReport(t, pos, if pos == |t.rows| then Some(NOTHING) else None, job)
  {
    RaisesSplit(t.spec, t.rows, pos, end, job);
  }

  lemma {:induction false} DryIsOneReport(t: Table, pos: nat, size: Size, job: Job)
    requires pos <= |t.rows|
    ensures OneReport(t, pos, DryRun(t, pos, size, job), job)
    decreases |t.rows| - pos
  {
    var end := BatchEnd(t.rows, pos, size);
    if pos == |t.rows| || AnyRaises(t.spec, t.rows[pos..end], job) {
      OneReportAtStop(t, pos, end, job);
    } else {
      DryIsOneReport(t, end, size, job);
      OneReportAfterBatch(t, pos, end, DryRun(t, end, size, job), DryRun(t, pos, size, job), job);
    }
  }

  lemma TailKept(t: Table, pos: nat, end: nat, job: Job)
    requires pos < end <= |t.rows|
    ensures |CommitBatch(t, pos, end, job).rows| == |t.rows|
    ensures CommitBatch(t, pos, end, job).rows[end..] == t.rows[end..]
  {
    CommitShape(t, pos, end, job);
  }

  /** Enough batches, and no row that raises, get a run to the end. */
  predicate Finishes(t: Table, pos: nat, batches: nat, w: Walk, job: Job)
    requires pos <= |t.rows|
  {
    batches > |t.rows| - pos && !AnyRaises(t.spec, t.rows[pos..], job) ==> w.completed
  }

  lemma FinishesAfterBatch(t: Table, pos: nat, end: nat, batches: nat, rest: Walk, w: Walk, job: Job)
    requires pos < end <= |t.rows| && batches > 0 && GoesOn(CommitBatch(t, pos, end, job), rest, t, w)
    requires Finishes(CommitBatch(t, pos, end, job), end, batches - 1, rest, job)
    ensures Finishes(t, pos, batches, w, job)
  {
    RaisesSplit(t.spec, t.rows, pos, end, job);
    TailKept(t, pos, end, job);
  }

  lemma {:induction false} WalkFinishes(t: Table, pos: nat, size: Size, batches: nat, job: Job)
    requires pos <= |t.rows|
    ensures Finishes(t, pos, batches, WalkFrom(t, pos, size, batches, job), job)
    decreases |t.rows| - pos
  {
    var end := BatchEnd(t.rows, pos, size);
    if batches == 0 || pos == |t.rows| || AnyRaises(t.spec, t.rows[pos..end], job) {
      RaisesSplit(t.spec, t.rows, pos, end, job);
    } else {
      WalkContinues(t, pos, size, batches, job);
      var u := CommitBatch(t, pos, end, job);
      WalkFinishes(u, end, size, batches - 1, job);
      FinishesAfterBatch(t, pos, end, batches, WalkFrom(u, end, size, batches - 1, job),
                         WalkFrom(t, pos, size, batches, job), job);
    }
  }

  /** A dry run reports exactly what a fresh real run that nobody kills would report, and raises exactly when
      that run would. */
  lemma DryRunForetells(t: Table, size: Size, batches: nat, job: Job)
    requires t.checkpoint.None? && batches > |t.rows|
    ensures var w := RotateModel(t, size, batches, job);
      DryRun(t, 0, size, job) == if w.completed then Some(w.report) else None
  {
    var w := RotateModel(t, size, batches, job);
    DryIsOneReport(t, 0, size, job);
    WalkIsOnePass(t, 0, size, batches, job);
    WalkFinishes(t, 0, size, batches, job);
    assert t.rows[0..] == t.rows;
    assert w.completed ==> t.rows[0..w.pos] == t.rows;
  }

  // ---- Verification ----

  lemma RotatedRowIsClean(spec: Spec, row: Row, job: Job)
    requires job.newVersion >= 1 && !RowRaises(spec, row, job) && !RowFails(spec, row, job)
    ensures RowClean(spec, RotateRow(spec, row, job), job.newKey, job.newVersion, job)
  {
    var after := RotateRow(spec, row, job);
    forall f | 0 <= f < |after.fields|
      ensures !StaleField(after.fields[f], job.newVersion)
        && !UnreadableField(after.fields[f], At(spec, after, f), job.newKey, job.newVersion, job)
    {
      assert !StepAt(spec, row, f, job).Fails? && !StepAt(spec, row, f, job).Raises?;
      SecondPassSteps(spec, row, f, job);
    }
  }

  /** After a failure-free run from the beginning the verifier finds nothing. */
  lemma FailureFreeRunVerifies(t: Table, r: Run, job: Job)
    requires job.newVersion >= 1 && StartOf(t) == 0
    requires var w := RotateModel(t, r.size, r.batches, job); w.completed && w.report.failures == []
    ensures Clean(t.spec, RotateModel(t, r.size, r.batches, job).table.rows, job.newKey, job.newVersion, job)
  {
    var w := RotateModel(t, r.size, r.batches, job);
    WalkIsOnePass(t, 0, r.size, r.batches, job);
    assert t.rows[0..w.pos] == t.rows;
    FailureFree(t.spec, t.rows, job);
    assert w.table.rows == RotateRows(t.spec, t.rows, job);
    forall i | 0 <= i < |t.rows| ensures RowClean(t.spec, w.table.rows[i], job.newKey, job.newVersion, job) {
      RotatedRowIsClean(t.spec, t.rows[i], job);
    }
  }

  /** A clean verification of the active version means every value opens under that key and no other, and
      conversely; the key tried must be the owner's active one, or the ring's key for that version. */
  lemma CleanMeansOneKey(spec: Spec, rows: seq<Row>, key: nat, expected: int, job: Job)
    requires expected != 0
    requires job.ownerVersion == expected || (expected in job.ring ==> job.ring[expected] == key)
    ensures Clean(spec, rows, key, expected, job) <==>
      forall i, f :: 0 <= i < |rows| && 0 <= f < |rows[i].fields| && !Blank(rows[i].fields[f]) ==>
        OpensAlone(rows[i].fields[f], key, At(spec, rows[i], f), expected)
  {
    forall i | 0 <= i < |rows|
      ensures RowClean(spec, rows[i], key, expected, job) <==>
        forall f :: 0 <= f < |rows[i].fields| && !Blank(rows[i].fields[f]) ==>
          OpensAlone(rows[i].fields[f], key, At(spec, rows[i], f), expected)
    {
      forall f | 0 <= f < |rows[i].fields|
        ensures !StaleField(rows[i].fields[f], expected)
                && !UnreadableField(rows[i].fields[f], At(spec, rows[i], f), key, expected, job)
           <==> (Blank(rows[i].fields[f]) || OpensAlone(rows[i].fields[f], key, At(spec, rows[i], f), expected))
      {}
    }
  }

  predicate OpensAlone(v: Stored, key: nat, c: Context, expected: int) {
    Version(v) == expected && Open(v, key, c).Some?
  }

  // ---- Reads in the middle of it ----

  /** A reader with the new key sees the same text before and after a field is moved, as long as the ring
      keeps the old key under the version the envelope names. */
  lemma ReaderSeesNoDifference(spec: Spec, row: Row, f: nat, job: Job)
    requires f < |row.fields| && job.newVersion >= 1 && job.ownerVersion == job.newVersion
    requires row.fields[f].Sealed? && row.fields[f].key == job.oldKey && row.fields[f].version != job.newVersion ==>
      row.fields[f].version in job.ring && job.ring[row.fields[f].version] == job.oldKey
    ensures Read(RotateRow(spec, row, job).fields[f], Some(job.newKey), At(spec, row, f), job)
         == Read(row.fields[f], Some(job.newKey), At(spec, row, f), job)
  {}
}
