/** Rotation over all of a user's models, and the loops as the code writes them. */
module RotationVault {
  import opened Common
  import opened Rotation
  import opened RotationLaws
  import opened RotationRuns

  // ---- A row behind the cursor stays behind ----

  const LEFT_JOB := Job(7, 8, 2, map[], 2, (s: string) => s)
  const LEFT_ROW := Row(1, [Broken(1)], [])
  const LATER_ROW := Row(2, [Sealed(1, 7, Context("m", 2, 0), "x")], [])
  const LEFT_SPEC := Spec("m", [])

  lemma FirstRunStops(t: Table)
    requires t == Table(LEFT_SPEC, [LEFT_ROW, LATER_ROW], None)
    ensures RotateModel(t, 1, 1, LEFT_JOB).table == t.(checkpoint := Some(Checkpoint(Some(1), 1, false)))
  {
    assert t.rows[0..1] == [LEFT_ROW];
    assert StepAt(LEFT_SPEC, LEFT_ROW, 0, LEFT_JOB) == Fails;
    assert !AnyRaises(LEFT_SPEC, [LEFT_ROW], LEFT_JOB);
    assert Changed(LEFT_SPEC, LEFT_ROW, 1, LEFT_JOB) == 0;
    assert NewFields(LEFT_SPEC, LEFT_ROW, LEFT_JOB) == LEFT_ROW.fields;
    assert RotateRows(LEFT_SPEC, [LEFT_ROW], LEFT_JOB) == [LEFT_ROW];
    assert CommitBatch(t, 0, 1, LEFT_JOB).rows == t.rows;
    var u := CommitBatch(t, 0, 1, LEFT_JOB);
    assert WalkFrom(u, 1, 1, 0, LEFT_JOB).table == u;
  }

  lemma LaterRowMoves()
    ensures !AnyRaises(LEFT_SPEC, [LATER_ROW], LEFT_JOB)
    ensures RowsReport(LEFT_SPEC, [LATER_ROW], LEFT_JOB).failures == []
  {
    assert StepAt(LEFT_SPEC, LATER_ROW, 0, LEFT_JOB) == Move("x");
    assert !RowRaises(LEFT_SPEC, LATER_ROW, LEFT_JOB);
    FailureFree(LEFT_SPEC, [LATER_ROW], LEFT_JOB);
  }

  lemma SecondRunStarts(t: Table)
    requires t == Table(LEFT_SPEC, [LEFT_ROW, LATER_ROW], Some(Checkpoint(Some(1), 1, false)))
    ensures StartOf(t) == 1 && t.rows[1..BatchEnd(t.rows, 1, 1)] == [LATER_ROW]
  {
    assert t.rows[1..][0] == LATER_ROW && Position(t.rows[1..], 1) == 0;
    assert StartOf(t) == Position(t.rows, 1) == 1;
  }

  lemma SecondRunFinishes(t: Table)
    requires t == Table(LEFT_SPEC, [LEFT_ROW, LATER_ROW], Some(Checkpoint(Some(1), 1, false)))
    ensures StartOf(t) == 1
    ensures RotateModel(t, 1, 5, LEFT_JOB).completed && RotateModel(t, 1, 5, LEFT_JOB).report.failures == []
  {
    SecondRunStarts(t);
    LaterRowMoves();
    OneBatchFinishes(t);
  }

  lemma OneBatchFinishes(t: Table)
    requires |t.rows| == 2 && t.rows[1..BatchEnd(t.rows, 1, 1)] == [LATER_ROW] && t.spec == LEFT_SPEC
    requires !AnyRaises(LEFT_SPEC, [LATER_ROW], LEFT_JOB) && RowsReport(LEFT_SPEC, [LATER_ROW], LEFT_JOB).failures == []
    ensures WalkFrom(t, 1, 1, 5, LEFT_JOB).completed && WalkFrom(t, 1, 1, 5, LEFT_JOB).report.failures == []
  {
    WalkContinues(t, 1, 1, 5, LEFT_JOB);
    AtTheEnd(CommitBatch(t, 1, 2, LEFT_JOB), 4);
  }

  lemma AtTheEnd(t: Table, batches: nat)
    requires |t.rows| == 2 && batches > 0
    ensures WalkFrom(t, 2, 1, batches, LEFT_JOB).completed
    ensures WalkFrom(t, 2, 1, batches, LEFT_JOB).report == NOTHING
  {}

  /** The checkpoint can leave a row behind: the first run meets a failing row, commits and is killed; the
      second resumes after it, completes and reports no failure. */
  lemma RowLeftBehind()
    ensures var start := Table(LEFT_SPEC, [LEFT_ROW, LATER_ROW], None);
      var t := RotateModel(start, 1, 1, LEFT_JOB).table;
      var w := RotateModel(t, 1, 5, LEFT_JOB);
      && Fresh(start) && w.completed && w.report.failures == []
      && |w.table.rows| == 2 && !RowMoved(w.table.rows[0], LEFT_JOB)
  {
    var start := Table(LEFT_SPEC, [LEFT_ROW, LATER_ROW], None);
    FirstRunStops(start);
    var t := RotateModel(start, 1, 1, LEFT_JOB).table;
    SecondRunFinishes(t);
    WalkIsOnePass(t, StartOf(t), 1, 5, LEFT_JOB);
    PassByRow(t, StartOf(t), RotateModel(t, 1, 5, LEFT_JOB), LEFT_JOB);
    assert !Moved(LEFT_ROW.fields[0], LEFT_JOB);
  }

  // ---- All models ----

  datatype UserWalk = UserWalk(tables: seq<Table>, completed: bool, report: Report)

  /** `rotate_user` from model i on; each model gets a number of commits before the process is killed in it. */
  function RotateUser(tables: seq<Table>, i: nat, size: Size, batches: seq<nat>, job: Job): UserWalk
    requires i <= |tables| == |batches|
    decreases |tables| - i
  {
    if i == |tables| then UserWalk(tables, true, NOTHING) else
      var w := RotateModel(tables[i], size, batches[i], job);
      if !w.completed then UserWalk(tables[i := w.table], false, NOTHING) else
        var rest := RotateUser(tables[i := w.table], i + 1, size, batches, job);
        rest.(report := Merge(w.report, rest.report))
  }

  lemma UserContinues(tables: seq<Table>, i: nat, size: Size, batches: seq<nat>, job: Job)
    requires i < |tables| == |batches| && RotateModel(tables[i], size, batches[i], job).completed
    ensures var w := RotateModel(tables[i], size, batches[i], job);
      var rest := RotateUser(tables[i := w.table], i + 1, size, batches, job);
      RotateUser(tables, i, size, batches, job) == rest.(report := Merge(w.report, rest.report))
  {}

  /** What a completed rotation did to table k. */
  predicate TableDone(before: Table, after: Table, size: Size, batches: nat, quiet: bool, job: Job) {
    var w := RotateModel(before, size, batches, job);
    w.completed && after == w.table && (quiet ==> w.report.failures == [])
  }

  lemma {:induction false} UserKeepsEarlier(tables: seq<Table>, i: nat, size: Size, batches: seq<nat>, job: Job)
    requires i <= |tables| == |batches|
    ensures |RotateUser(tables, i, size, batches, job).tables| == |tables|
    ensures forall k :: 0 <= k < i ==> RotateUser(tables, i, size, batches, job).tables[k] == tables[k]
    decreases |tables| - i
  {
    if i < |tables| && RotateModel(tables[i], size, batches[i], job).completed {
      UserKeepsEarlier(tables[i := RotateModel(tables[i], size, batches[i], job).table], i + 1, size, batches, job);
    }
  }

  lemma {:induction false} UserWalkByTable(tables: seq<Table>, i: nat, size: Size, batches: seq<nat>, job: Job, k: nat)
    requires i <= k < |tables| == |batches| && RotateUser(tables, i, size, batches, job).completed
    ensures var u := RotateUser(tables, i, size, batches, job);
      |u.tables| == |tables| && TableDone(tables[k], u.tables[k], size, batches[k], u.report.failures == [], job)
    decreases |tables| - i
  {
    var w := RotateModel(tables[i], size, batches[i], job);
    UserContinues(tables, i, size, batches, job);
    UserKeepsEarlier(tables[i := w.table], i + 1, size, batches, job);
    if i < k {
      UserWalkByTable(tables[i := w.table], i + 1, size, batches, job, k);
    }
  }

  /** A whole rotation that starts afresh, completes and reports nothing leaves every model verifying clean
      under the new key. */
  lemma CleanRotationVerifies(tables: seq<Table>, size: Size, batches: seq<nat>, job: Job)
    requires |tables| == |batches| && job.newVersion >= 1
    requires forall k :: 0 <= k < |tables| ==> Fresh(tables[k])
    requires var u := RotateUser(tables, 0, size, batches, job); u.completed && u.report.failures == []
    ensures var u := RotateUser(tables, 0, size, batches, job);
      && |u.tables| == |tables|
      && forall k :: 0 <= k < |tables| ==>
           && Clean(tables[k].spec, u.tables[k].rows, job.newKey, job.newVersion, job)
           && AllMoved(u.tables[k].rows, job)
  {
    UserKeepsEarlier(tables, 0, size, batches, job);
    var u := RotateUser(tables, 0, size, batches, job);
    forall k | 0 <= k < |tables|
      ensures Clean(tables[k].spec, u.tables[k].rows, job.newKey, job.newVersion, job)
      ensures AllMoved(u.tables[k].rows, job)
    {
      UserWalkByTable(tables, 0, size, batches, job, k);
      FailureFreeRunVerifies(tables[k], Run(size, batches[k]), job);
      UninterruptedMovesAll(tables[k], Run(size, batches[k]), job);
    }
  }

  // ---- The loops ----

  /** A key the rotation may try opens the value: the new one for an envelope of the target version, the old one for
      any other, and the ring's key for an envelope of a version that is not the owner's. */
  predicate Opens(v: Stored, c: Context, job: Job) {
    || v.Plain?
    || Open(v, if Version(v) == job.newVersion then job.newKey else job.oldKey, c).Some?
    || (Version(v) != job.ownerVersion && Version(v) in job.ring && Open(v, job.ring[Version(v)], c).Some?)
  }

  /** The reads of one field, in the loop's order: a text is found exactly when an allowed key opens the value, and
      is what the value means; the version decides between keeping and moving, and between raising and failing. */
  method ReadForRotation(stored: Stored, context: Context, job: Job) returns (step: Step)
    ensures step == FieldStep(stored, context, job)
    ensures step.Skip? <==> Blank(stored)
    ensures step.Keep? || step.Raises? <==> !Blank(stored) && Version(stored) == job.newVersion
    ensures step.Keep? || step.Move? <==> !Blank(stored) && Opens(stored, context, job)
    ensures step.Keep? || step.Move? ==> Meaning(stored) == Some(step.text)
  {
    if Blank(stored) {
      return Skip;
    }
    if Version(stored) == job.newVersion {
      var read := Read(stored, Some(job.newKey), context, job);
      return if read.Some? then Keep(read.value) else Raises;
    }
    var read := Read(stored, if Version(stored) != 0 then Some(job.oldKey) else None, context, job);
    return if read.Some? then Move(read.value) else Fails;
  }

  /** The plaintexts gathered from the first n fields. */
  ghost predicate Gathered(plaintexts: map<nat, string>, spec: Spec, row: Row, n: nat, job: Job) {
    forall k: nat :: Lookup(plaintexts, k) == if k < n then Collected(spec, row, k, job) else ""
  }

  function Lookup(plaintexts: map<nat, string>, k: nat): string {
    if k in plaintexts then plaintexts[k] else ""
  }

  /** The loop over one record's fields and the index rebuild. */
  method RotateRecord(spec: Spec, row: Row, job: Job) returns (raised: bool, after: Row, report: Report)
    ensures raised <==> RowRaises(spec, row, job)
    ensures !raised ==> after == RotateRow(spec, row, job) && report == RowReport(spec, row, job)
  {
    raised, after, report := false, row, NOTHING;
    var bad, fields, plaintexts, changed, failures := RotateFields(spec, row, job);
    if bad {
      raised := true;
      return;
    }
    var indexes, rebuilt := row.indexes, 0;
    if changed > 0 {
      raised, indexes, rebuilt := RebuildIndexes(spec, row, plaintexts, job);
    }
    after := Row(row.pk, fields, indexes);
    report := Report(1, if changed > 0 then 1 else 0, changed, rebuilt, failures);
  }

  method RotateFields(spec: Spec, row: Row, job: Job)
    returns (raised: bool, fields: seq<Stored>, plaintexts: map<nat, string>, changed: nat, failures: seq<Failure>)
    ensures raised <==> exists f :: 0 <= f < |row.fields| && StepAt(spec, row, f, job).Raises?
    ensures !raised ==> fields == NewFields(spec, row, job) && Gathered(plaintexts, spec, row, |row.fields|, job)
    ensures !raised ==> changed == Changed(spec, row, |row.fields|, job)
    ensures !raised ==> failures == FailuresOf(spec, row, |row.fields|, job)
  {
    raised, fields, plaintexts, changed, failures := false, row.fields, map[], 0, [];
    var f := 0;
    while f < |row.fields|
      invariant 0 <= f <= |row.fields| == |fields|
      invariant forall k :: 0 <= k < f ==>
        fields[k] == NewField(spec, row, k, job) && !StepAt(spec, row, k, job).Raises?
      invariant forall k :: f <= k < |row.fields| ==> fields[k] == row.fields[k]
      invariant Gathered(plaintexts, spec, row, f, job)
      invariant changed == Changed(spec, row, f, job) && failures == FailuresOf(spec, row, f, job)
    {
      var step := ReadForRotation(fields[f], At(spec, row, f), job);
      assert step == StepAt(spec, row, f, job);
      match step {
        case Skip =>
        case Keep(text) => plaintexts := plaintexts[f := text];
        case Move(text) =>
          plaintexts := plaintexts[f := text];
          fields := fields[f := Encrypt(text, At(spec, row, f), job)];
          changed := changed + 1;
        case Fails => failures := failures + [Failure(spec.name, row.pk, f)];
        case Raises =>
          raised := true;
          return;
      }
      f := f + 1;
    }
  }

  /** How many of the first n texts are not empty. */
  function Present(texts: seq<string>, n: nat): nat
    requires n <= |texts|
  {
    if n == 0 then 0 else Present(texts, n - 1) + if texts[n - 1] != "" then 1 else 0
  }

  ghost predicate SourceTexts(texts: seq<string>, spec: Spec, row: Row, job: Job) {
    |texts| == |spec.sources| && forall c :: 0 <= c < |texts| ==> texts[c] == Collected(spec, row, spec.sources[c], job)
  }

  lemma {:induction false} PresentIsRebuilt(texts: seq<string>, spec: Spec, row: Row, n: nat, job: Job)
    requires SourceTexts(texts, spec, row, job) && n <= |texts|
    ensures Present(texts, n) == Rebuilt(spec, row, n, job)
  {
    if n > 0 {
      PresentIsRebuilt(texts, spec, row, n - 1, job);
    }
  }

  lemma SomeNoIndex(texts: seq<string>, spec: Spec, row: Row, job: Job)
    requires SourceTexts(texts, spec, row, job)
    ensures (exists c :: 0 <= c < |texts| && NoIndex(texts[c], job))
       <==> exists s :: s in spec.sources && NoIndex(Collected(spec, row, s, job), job)
  {
    if c :| 0 <= c < |texts| && NoIndex(texts[c], job) {
      assert spec.sources[c] in spec.sources;
    }
    if s :| s in spec.sources && NoIndex(Collected(spec, row, s, job), job) {
      var c :| 0 <= c < |spec.sources| && spec.sources[c] == s;
      assert NoIndex(texts[c], job);
    }
  }

  method RebuildIndexes(spec: Spec, row: Row, plaintexts: map<nat, string>, job: Job)
    returns (raised: bool, indexes: seq<Option<string>>, rebuilt: nat)
    requires Gathered(plaintexts, spec, row, |row.fields|, job)
    ensures raised <==> exists s :: s in spec.sources && NoIndex(Collected(spec, row, s, job), job)
    ensures !raised ==> rebuilt == Rebuilt(spec, row, |spec.sources|, job)
    ensures !raised ==> |indexes| == |row.indexes|
    ensures !raised ==> forall c :: 0 <= c < |row.indexes| ==> indexes[c] == NewIndex(spec, row, c, job)
  {
    var texts: seq<string> :=
      seq(|spec.sources|, c requires 0 <= c < |spec.sources| => Lookup(plaintexts, spec.sources[c]));
    assert SourceTexts(texts, spec, row, job);
    PresentIsRebuilt(texts, spec, row, |texts|, job);
    SomeNoIndex(texts, spec, row, job);
    raised, indexes, rebuilt := WriteIndexes(texts, row.indexes, job);
  }

  /** The loop over the index columns. */
  method WriteIndexes(texts: seq<string>, before: seq<Option<string>>, job: Job)
    returns (raised: bool, indexes: seq<Option<string>>, rebuilt: nat)
    ensures raised <==> exists c :: 0 <= c < |texts| && NoIndex(texts[c], job)
    ensures !raised ==> rebuilt == Present(texts, |texts|) && |indexes| == |before|
    ensures !raised ==> forall c :: 0 <= c < |before| ==>
      indexes[c] == if c < |texts| && texts[c] != "" then Some(job.normalize(texts[c])) else before[c]
  {
    raised, indexes, rebuilt := false, before, 0;
    var c := 0;
    while c < |texts|
      invariant 0 <= c <= |texts| && |indexes| == |before| && rebuilt == Present(texts, c)
      invariant forall k :: 0 <= k < c ==> !NoIndex(texts[k], job)
      invariant forall k :: 0 <= k < |before| ==>
        indexes[k] == if k < c && texts[k] != "" then Some(job.normalize(texts[k])) else before[k]
    {
      if texts[c] != "" {
        if job.normalize(texts[c]) == "" {
          assert NoIndex(texts[c], job);
          raised := true;
          return;
        }
        if c < |indexes| {
          indexes := indexes[c := Some(job.normalize(texts[c]))];
        }
        rebuilt := rebuilt + 1;
      }
      c := c + 1;
    }
  }

  /** One transaction's worth of rows; nothing of it survives when a row raises. */
  method RotateBatch(spec: Spec, rows: seq<Row>, job: Job) returns (raised: bool, after: seq<Row>, report: Report)
    ensures raised <==> AnyRaises(spec, rows, job)
    ensures !raised ==> after == RotateRows(spec, rows, job) && report == RowsReport(spec, rows, job)
  {
    raised, after, report := false, [], NOTHING;
    var i := 0;
    while i < |rows|
      invariant 0 <= i <= |rows| && |after| == i
      invariant forall k :: 0 <= k < i ==> after[k] == RotateRow(spec, rows[k], job) && !RowRaises(spec, rows[k], job)
      invariant report == RowsReport(spec, rows[..i], job)
    {
      var bad, row, own := RotateRecord(spec, rows[i], job);
      if bad {
        raised := true;
        return;
      }
      after := after + [row];
      assert rows[..i + 1][..i] == rows[..i];
      report := Merge(report, own);
      i := i + 1;
    }
    assert rows[..i] == rows;
  }

  /** The user's tables, rewritten in place one committed batch at a time. */
  class Vault {
    var tables: seq<Table>

    constructor (tables: seq<Table>)
      ensures this.tables == tables
    {
      this.tables := tables;
    }

    method RotateModelInPlace(i: nat, size: Size, batches: nat, job: Job) returns (completed: bool, report: Report)
      requires i < |tables|
      modifies this
      ensures ModelRotated(old(tables), tables, i, RotateModel(old(tables)[i], size, batches, job), completed, report)
    {
      ghost var whole := WalkStarts(tables[i], size, batches, job);
      var pos: nat, left: nat := StartOf(tables[i]), batches;
      report := NOTHING;
      var raised := false;
      while left > 0 && pos < |tables[i].rows| && !raised
        invariant OnlyTable(old(tables), tables, i)
        invariant if raised then Stopped(whole, tables[i], report)
                  else WalkLeft(whole, tables[i], pos, size, left, report, job)
        decreases left, !raised
      {
        raised, pos, report := CommitNextBatch(whole, i, pos, size, left, report, job);
        left := if raised then left else left - 1;
      }
      completed := !raised && left > 0;
      if !raised {
        WalkEnds(whole, tables[i], pos, size, left, report, job);
      }
      if completed {
        tables := tables[i := tables[i].(checkpoint := Record(tables[i].checkpoint, None, 0, true))];
      }
    }

    /** One transaction: a batch of rows and the checkpoint that describes it. */
    method CommitNextBatch(ghost whole: Walk, i: nat, pos: nat, size: Size, left: nat, report: Report, job: Job)
      returns (raised: bool, end: nat, total: Report)
      requires i < |tables| && pos < |tables[i].rows| && left > 0
      requires WalkLeft(whole, tables[i], pos, size, left, report, job)
      modifies this
      ensures OnlyTable(old(tables), tables, i)
      ensures if raised then Stopped(whole, tables[i], total)
              else WalkLeft(whole, tables[i], end, size, left - 1, total, job)
    {
      var u: Table, own: Report;
      raised, u, end, own := RunBatch(whole, tables[i], pos, size, left, report, job);
      total := report;
      if !raised {
        tables := tables[i := u];
        total := Merge(report, own);
      }
    }

    method RotateUserInPlace(size: Size, batches: seq<nat>, job: Job) returns (completed: bool, report: Report)
      requires |tables| == |batches|
      modifies this
      ensures UserRotated(tables, RotateUser(old(tables), 0, size, batches, job), completed, report)
    {
      ghost var whole := UserStarts(tables, size, batches, job);
      completed, report := true, NOTHING;
      var i: nat := 0;
      while i < |batches|
        invariant completed && UserLeft(whole, tables, i, size, batches, report, job)
      {
        completed, report := RotateNextModel(whole, i, size, batches, report, job);
        if !completed {
          return;
        }
        i := i + 1;
      }
      UserEnds(whole, tables, i, size, batches, report, job);
    }

    method RotateNextModel(ghost whole: UserWalk, i: nat, size: Size, batches: seq<nat>, report: Report, job: Job)
      returns (completed: bool, total: Report)
      requires i < |tables| == |batches| && UserLeft(whole, tables, i, size, batches, report, job)
      modifies this
      ensures |tables| == |batches|
      ensures if completed then UserLeft(whole, tables, i + 1, size, batches, total, job)
              else whole.tables == tables && !whole.completed
    {
      UserResumesAfter(whole, tables, i, size, batches, report, job);
      var own: Report;
      completed, own := RotateModelInPlace(i, size, batches[i], job);
      total := Merge(report, own);
    }

    /** `verify_user` for one model: each list names exactly the fields of its own kind. */
    method VerifyModel(i: nat, key: nat, expected: int, job: Job)
      returns (rowsChecked: nat, valuesChecked: nat, stale: seq<Failure>, unreadable: seq<Failure>)
      requires i < |tables|
      ensures rowsChecked == |tables[i].rows| && valuesChecked == ValueCount(tables[i].rows)
      ensures forall x :: x in stale <==> SomeStale(x, tables[i].spec, tables[i].rows, expected)
      ensures forall x :: x in unreadable <==> SomeUnreadable(x, tables[i].spec, tables[i].rows, key, expected, job)
      ensures stale == [] && unreadable == [] <==> Clean(tables[i].spec, tables[i].rows, key, expected, job)
    {
      var t := tables[i];
      rowsChecked, valuesChecked, stale, unreadable := 0, 0, [], [];
      while rowsChecked < |t.rows|
        invariant 0 <= rowsChecked <= |t.rows| && valuesChecked == ValueCount(t.rows[..rowsChecked])
        invariant forall x :: x in stale <==> SomeStale(x, t.spec, t.rows[..rowsChecked], expected)
        invariant forall x :: x in unreadable <==>
          SomeUnreadable(x, t.spec, t.rows[..rowsChecked], key, expected, job)
      {
        var row := t.rows[rowsChecked];
        var v, s, u := VerifyRecord(t.spec, row, key, expected, job);
        forall x { StaleAppends(x, t.spec, t.rows, rowsChecked, expected); }
        forall x { UnreadableAppends(x, t.spec, t.rows, rowsChecked, key, expected, job); }
        assert t.rows[..rowsChecked + 1][..rowsChecked] == t.rows[..rowsChecked];
        valuesChecked, stale, unreadable := valuesChecked + v, stale + s, unreadable + u;
        rowsChecked := rowsChecked + 1;
      }
      assert t.rows[..rowsChecked] == t.rows;
      CleanMeansNothingListed(t.spec, t.rows, key, expected, job, stale, unreadable);
    }
  }

  ghost predicate Resumes(whole: Walk, rest: Walk, report: Report) {
    whole == rest.(report := Merge(report, rest.report))
  }

  ghost predicate UserResumes(whole: UserWalk, rest: UserWalk, report: Report) {
    && whole.tables == rest.tables && whole.completed == rest.completed
    && (rest.completed ==> whole.report == Merge(report, rest.report))
  }

  /** Only table i has changed. */
  ghost predicate OnlyTable(before: seq<Table>, after: seq<Table>, i: nat) {
    i < |before| == |after| && after == before[i := after[i]]
  }

  ghost predicate ModelRotated(before: seq<Table>, after: seq<Table>, i: nat, w: Walk, completed: bool,
                               report: Report)
  {
    i < |before| && after == before[i := w.table] && completed == w.completed && report == w.report
  }

  ghost predicate UserRotated(after: seq<Table>, u: UserWalk, completed: bool, report: Report) {
    after == u.tables && completed == u.completed && (completed ==> report == u.report)
  }

  ghost predicate WalkLeft(whole: Walk, t: Table, pos: nat, size: nat, left: nat, report: Report, job: Job) {
    pos <= |t.rows| && size >= 1 && Resumes(whole, WalkFrom(t, pos, size, left, job), report)
  }

  ghost predicate UserLeft(whole: UserWalk, tables: seq<Table>, i: nat, size: Size, batches: seq<nat>, report: Report,
                           job: Job)
  {
    i <= |tables| == |batches| && UserResumes(whole, RotateUser(tables, i, size, batches, job), report)
  }

  ghost predicate Stopped(whole: Walk, t: Table, report: Report) {
    whole.table == t && !whole.completed && whole.report == report
  }

  lemma WalkStarts(t: Table, size: Size, batches: nat, job: Job) returns (whole: Walk)
    ensures whole == RotateModel(t, size, batches, job)
    ensures WalkLeft(whole, t, StartOf(t), size, batches, NOTHING, job)
  {
    whole := RotateModel(t, size, batches, job);
    MergeNothing(whole.report);
  }

  lemma WalkEnds(whole: Walk, t: Table, pos: nat, size: nat, left: nat, report: Report, job: Job)
    requires WalkLeft(whole, t, pos, size, left, report, job)
    requires left == 0 || pos == |t.rows|
    ensures whole.report == report && whole.completed == (left > 0)
    ensures whole.table == if left > 0 then t.(checkpoint := Record(t.checkpoint, None, 0, true)) else t
  {
    MergeNothing(report);
  }

  lemma UserStarts(tables: seq<Table>, size: Size, batches: seq<nat>, job: Job) returns (whole: UserWalk)
    requires |tables| == |batches|
    ensures whole == RotateUser(tables, 0, size, batches, job)
    ensures UserLeft(whole, tables, 0, size, batches, NOTHING, job)
  {
    whole := RotateUser(tables, 0, size, batches, job);
    MergeNothing(whole.report);
  }

  lemma UserEnds(whole: UserWalk, tables: seq<Table>, i: nat, size: Size, batches: seq<nat>, report: Report, job: Job)
    requires i == |tables| == |batches| && UserLeft(whole, tables, i, size, batches, report, job)
    ensures whole == UserWalk(tables, true, report)
  {
    MergeNothing(report);
  }

  /** One iteration of the batch loop. */
  method RunBatch(ghost whole: Walk, t: Table, pos: nat, size: Size, left: nat, report: Report, job: Job)
    returns (raised: bool, u: Table, end: nat, own: Report)
    requires pos < |t.rows| && left > 0 && WalkLeft(whole, t, pos, size, left, report, job)
    ensures raised ==> Stopped(whole, t, report)
    ensures !raised ==> pos < end <= |u.rows| == |t.rows|
    ensures !raised ==> WalkLeft(whole, u, end, size, left - 1, Merge(report, own), job)
  {
    end := BatchEnd(t.rows, pos, size);
    u := t;
    var rows: seq<Row>;
    raised, rows, own := RotateBatch(t.spec, t.rows[pos..end], job);
    if raised {
      StopsHere(whole, t, pos, size, left, report, job);
    } else {
      ResumesAfterBatch(whole, t, pos, size, left, report, job);
      u := Table(t.spec, t.rows[..pos] + rows + t.rows[end..],
                 Record(t.checkpoint, Some(t.rows[end - 1].pk), end - pos, false));
      assert u == CommitBatch(t, pos, end, job);
    }
  }

  lemma StopsHere(whole: Walk, t: Table, pos: nat, size: Size, left: nat, report: Report, job: Job)
    requires pos < |t.rows| && left > 0 && AnyRaises(t.spec, t.rows[pos..BatchEnd(t.rows, pos, size)], job)
    requires WalkLeft(whole, t, pos, size, left, report, job)
    ensures Stopped(whole, t, report)
  {
    MergeNothing(report);
  }

  lemma ResumesAfterBatch(whole: Walk, t: Table, pos: nat, size: nat, left: nat, report: Report, job: Job)
    requires pos < |t.rows| && size >= 1 && left > 0
    requires !AnyRaises(t.spec, t.rows[pos..BatchEnd(t.rows, pos, size)], job)
    requires Resumes(whole, WalkFrom(t, pos, size, left, job), report)
    ensures var end := BatchEnd(t.rows, pos, size);
      var u := CommitBatch(t, pos, end, job);
      && |u.rows| == |t.rows|
      && Resumes(whole, WalkFrom(u, end, size, left - 1, job), Merge(report, RowsReport(t.spec, t.rows[pos..end], job)))
  {
    var end := BatchEnd(t.rows, pos, size);
    WalkContinues(t, pos, size, left, job);
    MergeAssociative(report, RowsReport(t.spec, t.rows[pos..end], job),
                     WalkFrom(CommitBatch(t, pos, end, job), end, size, left - 1, job).report);
  }

  lemma UserResumesAfter(whole: UserWalk, tables: seq<Table>, i: nat, size: Size, batches: seq<nat>, report: Report,
                         job: Job)
    requires i < |tables| == |batches| && UserResumes(whole, RotateUser(tables, i, size, batches, job), report)
    ensures var w := RotateModel(tables[i], size, batches[i], job);
      if w.completed then
        UserResumes(whole, RotateUser(tables[i := w.table], i + 1, size, batches, job), Merge(report, w.report))
      else whole.tables == tables[i := w.table] && !whole.completed
  {
    var w := RotateModel(tables[i], size, batches[i], job);
    if w.completed {
      UserContinues(tables, i, size, batches, job);
      MergeAssociative(report, w.report, RotateUser(tables[i := w.table], i + 1, size, batches, job).report);
    }
  }

  /** x names a field of the row that is under another version. */
  predicate StaleAt(x: Failure, spec: Spec, row: Row, expected: int) {
    && x.model == spec.name && x.pk == row.pk && x.field < |row.fields|
    && StaleField(row.fields[x.field], expected)
  }

  /** x names a field of the row that is under the expected version and cannot be opened. */
  predicate UnreadableAt(x: Failure, spec: Spec, row: Row, key: nat, expected: int, job: Job) {
    && x.model == spec.name && x.pk == row.pk && x.field < |row.fields|
    && UnreadableField(row.fields[x.field], At(spec, row, x.field), key, expected, job)
  }

  predicate SomeStale(x: Failure, spec: Spec, rows: seq<Row>, expected: int) {
    exists i :: 0 <= i < |rows| && StaleAt(x, spec, rows[i], expected)
  }

  predicate SomeUnreadable(x: Failure, spec: Spec, rows: seq<Row>, key: nat, expected: int, job: Job) {
    exists i :: 0 <= i < |rows| && UnreadableAt(x, spec, rows[i], key, expected, job)
  }

  /** How many values the first n fields hold. */
  function ValuesIn(row: Row, n: nat): nat
    requires n <= |row.fields|
  {
    if n == 0 then 0 else ValuesIn(row, n - 1) + if Blank(row.fields[n - 1]) then 0 else 1
  }

  function ValueCount(rows: seq<Row>): nat {
    if rows == [] then 0
    else ValueCount(rows[..|rows| - 1]) + ValuesIn(rows[|rows| - 1], |rows[|rows| - 1].fields|)
  }

  lemma StaleAppends(x: Failure, spec: Spec, rows: seq<Row>, n: nat, expected: int)
    requires n < |rows|
    ensures SomeStale(x, spec, rows[..n + 1], expected) <==>
      SomeStale(x, spec, rows[..n], expected) || StaleAt(x, spec, rows[n], expected)
  {
    assert rows[..n + 1][n] == rows[n] && forall k :: 0 <= k < n ==> rows[..n + 1][k] == rows[..n][k];
  }

  lemma UnreadableAppends(x: Failure, spec: Spec, rows: seq<Row>, n: nat, key: nat, expected: int, job: Job)
    requires n < |rows|
    ensures SomeUnreadable(x, spec, rows[..n + 1], key, expected, job) <==>
      SomeUnreadable(x, spec, rows[..n], key, expected, job) || UnreadableAt(x, spec, rows[n], key, expected, job)
  {
    assert rows[..n + 1][n] == rows[n] && forall k :: 0 <= k < n ==> rows[..n + 1][k] == rows[..n][k];
  }

  lemma CleanMeansNothingListed(spec: Spec, rows: seq<Row>, key: nat, expected: int, job: Job, stale: seq<Failure>,
                                unreadable: seq<Failure>)
    requires forall x :: x in stale <==> SomeStale(x, spec, rows, expected)
    requires forall x :: x in unreadable <==> SomeUnreadable(x, spec, rows, key, expected, job)
    ensures stale == [] && unreadable == [] <==> Clean(spec, rows, key, expected, job)
  {
    assert stale != [] ==> SomeStale(stale[0], spec, rows, expected);
    assert unreadable != [] ==> SomeUnreadable(unreadable[0], spec, rows, key, expected, job);
    if stale == [] && unreadable == [] {
      forall i, f | 0 <= i < |rows| && 0 <= f < |rows[i].fields|
        ensures !StaleField(rows[i].fields[f], expected)
        ensures !UnreadableField(rows[i].fields[f], At(spec, rows[i], f), key, expected, job)
      {
        var x := Failure(spec.name, rows[i].pk, f);
        assert !SomeStale(x, spec, rows, expected) && !SomeUnreadable(x, spec, rows, key, expected, job);
        assert !StaleAt(x, spec, rows[i], expected) && !UnreadableAt(x, spec, rows[i], key, expected, job);
      }
    }
  }

  /** A value under another version is stale whether or not it opens; one under the expected version is unreadable
      when nothing opens it; nothing else is listed. */
  method VerifyRecord(spec: Spec, row: Row, key: nat, expected: int, job: Job)
    returns (valuesChecked: nat, stale: seq<Failure>, unreadable: seq<Failure>)
    ensures valuesChecked == ValuesIn(row, |row.fields|)
    ensures forall x :: x in stale <==> StaleAt(x, spec, row, expected)
    ensures forall x :: x in unreadable <==> UnreadableAt(x, spec, row, key, expected, job)
  {
    valuesChecked, stale, unreadable := 0, [], [];
    var f := 0;
    while f < |row.fields|
      invariant 0 <= f <= |row.fields| && valuesChecked == ValuesIn(row, f)
      invariant forall x :: x in stale <==> x.field < f && StaleAt(x, spec, row, expected)
      invariant forall x :: x in unreadable <==> x.field < f && UnreadableAt(x, spec, row, key, expected, job)
    {
      var stored := row.fields[f];
      if !Blank(stored) {
        valuesChecked := valuesChecked + 1;
        if Version(stored) != expected {
          stale := stale + [Failure(spec.name, row.pk, f)];
        } else if Read(stored, Some(key), At(spec, row, f), job).None? {
          unreadable := unreadable + [Failure(spec.name, row.pk, f)];
        }
      }
      f := f + 1;
    }
  }

  /** A readable row that rotation has not reached is stale, and not unreadable. */
  lemma UnreachedRowIsStale(job: Job)
    requires job.ring == map[]
    ensures var spec, row := Spec("m", []), Row(1, [Sealed(1, 7, Context("m", 1, 0), "x")], []);
      StaleAt(Failure("m", 1, 0), spec, row, 2) && forall x :: !UnreadableAt(x, spec, row, 8, 2, job)
  {}
}
