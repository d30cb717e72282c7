/** Moving a user's encrypted values to the next key (apps/core/rotation.py, encrypted_fields.py, crypto.py).
    AES-GCM is abstract: an envelope opens under its own key and for its own row and field, and no other way. */
module Rotation {
  import opened Common

  datatype Context = Context(model: string, pk: int, field: nat)

  /** A stored column. `Broken` starts like an envelope and opens under no key. */
  datatype Stored =
    | Empty
    | Plain(text: string)
    | Sealed(version: int, key: nat, context: Context, text: string)
    | Broken(version: int)

  /** One rotation: the keys, the key ring by version, the owner's active version, merchant normalisation. */
  datatype Job = Job(oldKey: nat, newKey: nat, newVersion: nat, ring: map<int, nat>, ownerVersion: int,
                     normalize: string -> string)

  predicate Blank(v: Stored) { v == Empty || v == Plain("") }

  /** `envelope_key_version`. */
  function Version(v: Stored): int {
    match v
    case Sealed(n, _, _, _) => n
    case Broken(n) => n
    case _ => 0
  }

  function Open(v: Stored, key: nat, c: Context): Option<string> {
    if v.Sealed? && v.version >= 1 && v.key == key && v.context == c then Some(v.text) else None
  }

  /** `read_field`: the given key first, then, if that fails, the key of the version the envelope names. */
  function Read(v: Stored, key: Option<nat>, c: Context, job: Job): Option<string> {
    if v.Empty? then Some("")
    else if v.Plain? then Some(v.text)
    else if key.None? then None
    else if Open(v, key.value, c).Some? then Open(v, key.value, c)
    else if Version(v) == 0 || Version(v) == job.ownerVersion || Version(v) !in job.ring then None
    else Open(v, job.ring[Version(v)], c)
  }

  function Encrypt(text: string, c: Context, job: Job): Stored {
    if text == "" then Empty else Sealed(job.newVersion, job.newKey, c, text)
  }

  // ---- One field, one row ----

  /** What the loop does with one field. `Raises` is an exception outside its `try`. */
  datatype Step = Skip | Keep(text: string) | Move(text: string) | Fails | Raises

  function FieldStep(v: Stored, c: Context, job: Job): Step {
    if Blank(v) then Skip
    else if Version(v) == job.newVersion then
      var read := Read(v, Some(job.newKey), c, job);
      if read.Some? then Keep(read.value) else Raises
    else
      var read := Read(v, if Version(v) != 0 then Some(job.oldKey) else None, c, job);
      if read.Some? then Move(read.value) else Fails
  }

  datatype Row = Row(pk: int, fields: seq<Stored>, indexes: seq<Option<string>>)

  /** A model: its label, and the field each blind-index column is built from. */
  datatype Spec = Spec(name: string, sources: seq<nat>)

  function At(spec: Spec, row: Row, f: nat): Context { Context(spec.name, row.pk, f) }

  function StepAt(spec: Spec, row: Row, f: nat, job: Job): Step
    requires f < |row.fields|
  {
    FieldStep(row.fields[f], At(spec, row, f), job)
  }

  function Changed(spec: Spec, row: Row, n: nat, job: Job): nat
    requires n <= |row.fields|
  {
    if n == 0 then 0 else Changed(spec, row, n - 1, job) + if StepAt(spec, row, n - 1, job).Move? then 1 else 0
  }

  datatype Failure = Failure(model: string, pk: int, field: nat)

  function FailuresOf(spec: Spec, row: Row, n: nat, job: Job): seq<Failure>
    requires n <= |row.fields|
  {
    if n == 0 then [] else
      FailuresOf(spec, row, n - 1, job)
      + if StepAt(spec, row, n - 1, job).Fails? then [Failure(spec.name, row.pk, n - 1)] else []
  }

  /** The plaintext the index rebuild finds for a field, "" when the loop did not collect one. */
  function Collected(spec: Spec, row: Row, f: nat, job: Job): string {
    if f < |row.fields| then
      match StepAt(spec, row, f, job)
      case Keep(t) => t
      case Move(t) => t
      case _ => ""
    else ""
  }

  function NewIndex(spec: Spec, row: Row, column: nat, job: Job): Option<string>
    requires column < |row.indexes|
  {
    if column < |spec.sources| && Collected(spec, row, spec.sources[column], job) != "" then
      Some(job.normalize(Collected(spec, row, spec.sources[column], job)))
    else row.indexes[column]
  }

  function Rebuilt(spec: Spec, row: Row, n: nat, job: Job): nat
    requires n <= |spec.sources|
  {
    if n == 0 then 0 else
      Rebuilt(spec, row, n - 1, job) + if Collected(spec, row, spec.sources[n - 1], job) != "" then 1 else 0
  }

  function Touched(spec: Spec, row: Row, job: Job): bool { Changed(spec, row, |row.fields|, job) > 0 }

  /** An unreadable value already at the target version, or a merchant that normalises to nothing. */
  predicate RowRaises(spec: Spec, row: Row, job: Job) {
    (exists f :: 0 <= f < |row.fields| && StepAt(spec, row, f, job).Raises?)
    || (Touched(spec, row, job) && exists s :: s in spec.sources && NoIndex(Collected(spec, row, s, job), job))
  }

  /** A merchant without an index: the blind index refuses an empty value. */
  predicate NoIndex(text: string, job: Job) { text != "" && job.normalize(text) == "" }

  function NewField(spec: Spec, row: Row, f: nat, job: Job): Stored
    requires f < |row.fields|
  {
    match StepAt(spec, row, f, job)
    case Move(t) => Encrypt(t, At(spec, row, f), job)
    case _ => row.fields[f]
  }

  function NewFields(spec: Spec, row: Row, job: Job): seq<Stored> {
    seq(|row.fields|, f requires 0 <= f < |row.fields| => NewField(spec, row, f, job))
  }

  function NewIndexes(spec: Spec, row: Row, job: Job): seq<Option<string>> {
    if Touched(spec, row, job) then
      seq(|row.indexes|, c requires 0 <= c < |row.indexes| => NewIndex(spec, row, c, job))
    else row.indexes
  }

  /** The row as it is saved. */
  function RotateRow(spec: Spec, row: Row, job: Job): Row {
    Row(row.pk, NewFields(spec, row, job), NewIndexes(spec, row, job))
  }

  datatype Report = Report(examined: nat, rewritten: nat, fieldsRewritten: nat, rebuilt: nat, failures: seq<Failure>)

  const NOTHING := Report(0, 0, 0, 0, [])

  function Merge(a: Report, b: Report): Report {
    Report(a.examined + b.examined, a.rewritten + b.rewritten, a.fieldsRewritten + b.fieldsRewritten,
           a.rebuilt + b.rebuilt, a.failures + b.failures)
  }

  function RowReport(spec: Spec, row: Row, job: Job): Report {
    var touched := Touched(spec, row, job);
    Report(1, if touched then 1 else 0, Changed(spec, row, |row.fields|, job),
           if touched then Rebuilt(spec, row, |spec.sources|, job) else 0,
           FailuresOf(spec, row, |row.fields|, job))
  }

  function RowsReport(spec: Spec, rows: seq<Row>, job: Job): Report {
    if rows == [] then NOTHING
    else Merge(RowsReport(spec, rows[..|rows| - 1], job), RowReport(spec, rows[|rows| - 1], job))
  }

  function RotateRows(spec: Spec, rows: seq<Row>, job: Job): seq<Row> {
    seq(|rows|, i requires 0 <= i < |rows| => RotateRow(spec, rows[i], job))
  }

  predicate AnyRaises(spec: Spec, rows: seq<Row>, job: Job) {
    exists i :: 0 <= i < |rows| && RowRaises(spec, rows[i], job)
  }

  // ---- One run over a table ----

  datatype Checkpoint = Checkpoint(last: Option<int>, rowsRotated: nat, complete: bool)

  datatype Table = Table(spec: Spec, rows: seq<Row>, checkpoint: Option<Checkpoint>)

  predicate Ordered(rows: seq<Row>) {
    forall i, j :: 0 <= i < j < |rows| ==> rows[i].pk < rows[j].pk
  }

  /** Rows at or before a keyset cursor. */
  function Position(rows: seq<Row>, cursor: int): (n: nat)
    ensures n <= |rows|
    ensures forall i :: 0 <= i < n ==> rows[i].pk <= cursor
    ensures n < |rows| ==> rows[n].pk > cursor
  {
    if rows == [] || rows[0].pk > cursor then 0 else 1 + Position(rows[1..], cursor)
  }

  /** `resume_point`: nothing to resume from once the checkpoint was ever marked complete. */
  function ResumePoint(checkpoint: Option<Checkpoint>): Option<int> {
    if checkpoint.None? || checkpoint.value.complete then None else checkpoint.value.last
  }

  function StartOf(t: Table): (n: nat)
    ensures n <= |t.rows|
  {
    var cursor := ResumePoint(t.checkpoint);
    if cursor.None? then 0 else Position(t.rows, cursor.value)
  }

  /** `_record_progress`; `complete` is only ever set. */
  function Record(checkpoint: Option<Checkpoint>, last: Option<int>, rows: nat, complete: bool): Option<Checkpoint> {
    var prior := if checkpoint.Some? then checkpoint.value else Checkpoint(None, 0, false);
    Some(Checkpoint(last, prior.rowsRotated + rows, prior.complete || complete))
  }

  function BatchEnd(rows: seq<Row>, pos: nat, size: nat): nat
    requires pos <= |rows|
  {
    if pos + size < |rows| then pos + size else |rows|
  }

  /** What a run leaves behind. It completes, or stops at a batch that raised, or is killed after `batches`
      committed batches. */
  datatype Walk = Walk(table: Table, pos: nat, completed: bool, report: Report)

  function CommitBatch(t: Table, pos: nat, end: nat, job: Job): Table
    requires pos < end <= |t.rows|
  {
    Table(t.spec, t.rows[..pos] + RotateRows(t.spec, t.rows[pos..end], job) + t.rows[end..],
          Record(t.checkpoint, Some(t.rows[end - 1].pk), end - pos, false))
  }

  function WalkFrom(t: Table, pos: nat, size: nat, batches: nat, job: Job): Walk
    requires pos <= |t.rows| && size >= 1
    decreases |t.rows| - pos
  {
    var end := BatchEnd(t.rows, pos, size);
    if batches == 0 then Walk(t, pos, false, NOTHING)
    else if pos == |t.rows| then Walk(t.(checkpoint := Record(t.checkpoint, None, 0, true)), pos, true, NOTHING)
    else if AnyRaises(t.spec, t.rows[pos..end], job) then Walk(t, pos, false, NOTHING)
    else
      var rest := WalkFrom(CommitBatch(t, pos, end, job), end, size, batches - 1, job);
      rest.(report := Merge(RowsReport(t.spec, t.rows[pos..end], job), rest.report))
  }

  /** `rotate_model` with resuming on. */
  function RotateModel(t: Table, size: nat, batches: nat, job: Job): Walk
    requires size >= 1
  {
    WalkFrom(t, StartOf(t), size, batches, job)
  }

  // ---- Verification ----

  predicate StaleField(v: Stored, expected: int) { !Blank(v) && Version(v) != expected }

  predicate UnreadableField(v: Stored, c: Context, key: nat, expected: int, job: Job) {
    !Blank(v) && Version(v) == expected && Read(v, Some(key), c, job).None?
  }

  /** `verify_user` reports nothing about a row. */
  predicate RowClean(spec: Spec, row: Row, key: nat, expected: int, job: Job) {
    forall f :: 0 <= f < |row.fields| ==>
      !StaleField(row.fields[f], expected) && !UnreadableField(row.fields[f], At(spec, row, f), key, expected, job)
  }

  predicate Clean(spec: Spec, rows: seq<Row>, key: nat, expected: int, job: Job) {
    forall i :: 0 <= i < |rows| ==> RowClean(spec, rows[i], key, expected, job)
  }
}
