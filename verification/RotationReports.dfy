/** What a rotation's report counts: the rows and fields that differ afterwards. */
module RotationReports {
  import opened Common
  import opened Rotation
  import opened RotationLaws
  import opened RotationRuns

  /** Positions whose fields differ. */
  ghost function ChangedRows(before: seq<Row>, after: seq<Row>): set<nat>
    requires |after| == |before|
  {
    set i: nat | 0 <= i < |before| && after[i].fields != before[i].fields
  }

  function FieldsChanged(before: seq<Row>, after: seq<Row>): nat
    requires |after| == |before| && forall i :: 0 <= i < |before| ==> |after[i].fields| == |before[i].fields|
  {
    if before == [] then 0 else
      var n := |before| - 1;
      FieldsChanged(before[..n], after[..n]) + DifferingFields(before[n].fields, after[n].fields)
  }

  function DifferingFields(before: seq<Stored>, after: seq<Stored>): nat
    requires |after| == |before|
  {
    if before == [] then 0 else
      var n := |before| - 1;
      DifferingFields(before[..n], after[..n]) + if after[n] != before[n] then 1 else 0
  }

  /** A moved value is never the value it was. */
  lemma MovedDiffers(spec: Spec, row: Row, f: nat, job: Job)
    requires f < |row.fields|
    ensures NewFields(spec, row, job)[f] != row.fields[f] <==> StepAt(spec, row, f, job).Move?
  {}

  lemma {:induction false} ChangedCounts(spec: Spec, row: Row, n: nat, job: Job)
    requires n <= |row.fields|
    ensures Changed(spec, row, n, job) == DifferingFields(row.fields[..n], NewFields(spec, row, job)[..n])
  {
    if n > 0 {
      var before, after := row.fields[..n], NewFields(spec, row, job)[..n];
      ChangedCounts(spec, row, n - 1, job);
      MovedDiffers(spec, row, n - 1, job);
      assert before[..n - 1] == row.fields[..n - 1] && after[..n - 1] == NewFields(spec, row, job)[..n - 1];
    }
  }

  lemma {:induction false} NoFieldDiffersIff(before: seq<Stored>, after: seq<Stored>)
    requires |after| == |before|
    ensures DifferingFields(before, after) == 0 <==> before == after
  {
    if before != [] {
      var n := |before| - 1;
      NoFieldDiffersIff(before[..n], after[..n]);
      assert before == before[..n] + [before[n]] && after == after[..n] + [after[n]];
    }
  }

  /** A row's report: its changed fields, whether there are any, and without one the row is saved as it was. */
  lemma RowReportCounts(spec: Spec, row: Row, job: Job)
    ensures var after, r := RotateRow(spec, row, job), RowReport(spec, row, job);
      && r.examined == 1 && r.fieldsRewritten == DifferingFields(row.fields, after.fields)
      && r.rewritten == (if after.fields == row.fields then 0 else 1)
      && (r.rewritten == 0 ==> after == row && r.rebuilt == 0)
  {
    var after := NewFields(spec, row, job);
    ChangedCounts(spec, row, |row.fields|, job);
    assert row.fields[..|row.fields|] == row.fields && after[..|row.fields|] == after;
    NoFieldDiffersIff(row.fields, after);
  }

  /** Rows before and after one pass, and its report. */
  ghost predicate ReportFits(before: seq<Row>, after: seq<Row>, r: Report) {
    && |after| == |before| && (forall i :: 0 <= i < |before| ==> |after[i].fields| == |before[i].fields|)
    && r.rewritten == |ChangedRows(before, after)| && r.fieldsRewritten == FieldsChanged(before, after)
  }

  lemma {:induction false} PassCounts(spec: Spec, rows: seq<Row>, job: Job)
    ensures ReportFits(rows, RotateRows(spec, rows, job), RowsReport(spec, rows, job))
    ensures RowsReport(spec, rows, job).examined == |rows|
  {
    var after := RotateRows(spec, rows, job);
    if rows == [] {
      assert ChangedRows(rows, after) == {};
    } else {
      var n := |rows| - 1;
      PassCounts(spec, rows[..n], job);
      assert after[..n] == RotateRows(spec, rows[..n], job);
      RowReportCounts(spec, rows[n], job);
      ChangedRowsGrow(rows, after);
    }
  }

  lemma ChangedRowsGrow(before: seq<Row>, after: seq<Row>)
    requires |after| == |before| && before != []
    ensures var n := |before| - 1;
      |ChangedRows(before, after)|
      == |ChangedRows(before[..n], after[..n])| + if after[n].fields != before[n].fields then 1 else 0
  {
    var n := |before| - 1;
    var fewer := ChangedRows(before[..n], after[..n]);
    assert ChangedRows(before, after) == if after[n].fields != before[n].fields then fewer + {n} else fewer;
  }

  lemma {:induction false} SamePrefixCounts(head: seq<Row>, before: seq<Row>, after: seq<Row>, r: Report)
    requires ReportFits(before, after, r)
    ensures ReportFits(head + before, head + after, r)
  {
    if before == [] {
      NothingChanged(head);
      assert head + before == head == head + after;
      assert ChangedRows(before, after) == {};
    } else {
      var n := |before| - 1;
      var shorter := r.(rewritten := |ChangedRows(before[..n], after[..n])|,
                        fieldsRewritten := FieldsChanged(before[..n], after[..n]));
      SamePrefixCounts(head, before[..n], after[..n], shorter);
      assert (head + before)[..|head| + n] == head + before[..n] && (head + after)[..|head| + n] == head + after[..n];
      ChangedRowsGrow(before, after);
      ChangedRowsGrow(head + before, head + after);
    }
  }

  lemma {:induction false} SameSuffixCounts(before: seq<Row>, after: seq<Row>, tail: seq<Row>, r: Report)
    requires ReportFits(before, after, r)
    ensures ReportFits(before + tail, after + tail, r)
  {
    if tail == [] {
      assert before + tail == before && after + tail == after;
    } else {
      var n := |tail| - 1;
      SameSuffixCounts(before, after, tail[..n], r);
      assert (before + tail)[..|before| + n] == before + tail[..n];
      assert (after + tail)[..|after| + n] == after + tail[..n];
      ChangedRowsGrow(before + tail, after + tail);
      NoFieldDiffersIff(tail[n].fields, tail[n].fields);
    }
  }

  lemma {:induction false} NothingChanged(rows: seq<Row>)
    ensures ChangedRows(rows, rows) == {} && FieldsChanged(rows, rows) == 0
  {
    if rows != [] {
      NothingChanged(rows[..|rows| - 1]);
      NoFieldDiffersIff(rows[|rows| - 1].fields, rows[|rows| - 1].fields);
    }
  }

  lemma PassInTheMiddle(head: seq<Row>, before: seq<Row>, after: seq<Row>, tail: seq<Row>, r: Report)
    requires ReportFits(before, after, r)
    ensures ReportFits(head + before + tail, head + after + tail, r)
  {
    SamePrefixCounts(head, before, after, r);
    SameSuffixCounts(head + before, head + after, tail, r);
  }

  /** A run's report counts exactly the rows and fields that differ in the table afterwards, wherever the run began
      and however it ended. */
  lemma RunCountsItsWork(t: Table, size: Size, batches: nat, job: Job)
    ensures var w := RotateModel(t, size, batches, job);
      ReportFits(t.rows, w.table.rows, w.report) && w.report.examined == w.pos - StartOf(t)
  {
    var pos := StartOf(t);
    WalkIsOnePass(t, pos, size, batches, job);
    OnePassCounts(t, pos, RotateModel(t, size, batches, job), job);
  }

  lemma OnePassCounts(t: Table, pos: nat, w: Walk, job: Job)
    requires pos <= |t.rows| && OnePass(t, pos, w, job)
    ensures ReportFits(t.rows, w.table.rows, w.report) && w.report.examined == w.pos - pos
  {
    var head, done, tail := t.rows[..pos], t.rows[pos..w.pos], t.rows[w.pos..];
    PassCounts(t.spec, done, job);
    PassInTheMiddle(head, done, RotateRows(t.spec, done, job), tail, w.report);
    assert t.rows == head + done + tail;
  }
}
