/** What every reachable state of the queue keeps. */
module QueueLaws {
  import opened Common
  import opened Queue

  predicate Busy(d: DocStatus) { d in {Preprocessing, OcrRunning, Parsing} }

  function Before(next: DocStatus): DocStatus {
    match next
    case Preprocessing => Validating
    case OcrRunning => Preprocessing
    case Parsing => OcrRunning
    case _ => Parsing
  }

  /** A live worker's place in the pipeline and its document's status agree, unless the document was deleted. */
  predicate PhaseFits(p: Phase, d: DocStatus) {
    match p
    case Held => d in {Validating, Deleted}
    case Working(next) => next in {Preprocessing, OcrRunning, Parsing, ReadyForReview} && d in {Before(next), Deleted}
    case Done(failed, _, started) => !Busy(d) && d != Queued && (d == Validating ==> failed && !started)
  }

  predicate WellFormed(s: State) {
    && (forall j :: 0 <= j < |s.jobs| ==> s.jobs[j].doc < |s.docs| && s.jobs[j].maxAttempts >= 1)
    && (forall w :: w in s.live ==> s.live[w].job < |s.jobs| && s.jobs[s.live[w].job].status.Running?)
    && (forall w, x :: w in s.live && x in s.live && s.live[w].job == s.live[x].job ==> w == x)
  }

  /** The database constraint: at most one active job per document. */
  predicate OneActiveJob(jobs: seq<Job>) {
    forall i, j :: 0 <= i < j < |jobs| && Active(jobs[i]) && Active(jobs[j]) ==> jobs[i].doc != jobs[j].doc
  }

  predicate QueuedHasJob(s: State) {
    forall d :: 0 <= d < |s.docs| && s.docs[d] == Queued ==> HasJob(s.jobs, d, Waiting)
  }

  predicate BusyHasJob(s: State) {
    forall d :: 0 <= d < |s.docs| && Busy(s.docs[d]) ==> HasJob(s.jobs, d, Running)
  }

  predicate PhasesFit(s: State)
    requires WellFormed(s)
  {
    forall w :: w in s.live ==> PhaseFits(s.live[w].phase, s.docs[DocOf(s, w)])
  }

  predicate Inv(s: State) {
    WellFormed(s) && OneActiveJob(s.jobs) && QueuedHasJob(s) && BusyHasJob(s) && PhasesFit(s)
  }

  // ---- One job, its document and its worker change together ----

  /** Every live worker of job j is w. */
  predicate OnlyWorker(s: State, j: nat, w: nat) {
    forall x :: x in s.live && s.live[x].job == j ==> x == w
  }

  function Placed(live: map<nat, Work>, w: nat, work: Option<Work>): map<nat, Work> {
    if work.Some? then live[w := work.value] else live - {w}
  }

  /** The new job, document status and worker of one active job still belong together. */
  predicate FitsTogether(job: Job, status: DocStatus, j: nat, work: Option<Work>) {
    && (status == Queued ==> job.status.Waiting?)
    && (Busy(status) ==> job.status.Running?)
    && (work.Some? ==> work.value.job == j && job.status.Running? && PhaseFits(work.value.phase, status))
  }

  lemma HasJobElsewhere(jobs: seq<Job>, j: nat, job: Job, d: nat, status: JobStatus)
    requires j < |jobs| && job.doc == jobs[j].doc && d != job.doc && HasJob(jobs, d, status)
    ensures HasJob(jobs[j := job], d, status)
  {
    var i :| 0 <= i < |jobs| && jobs[i].doc == d && jobs[i].status == status;
    assert jobs[j := job][i] == jobs[i];
  }

  lemma LocalKeepsJobs(s: State, j: nat, job: Job, status: DocStatus, w: nat, work: Option<Work>)
    requires Inv(s) && j < |s.jobs| && Active(s.jobs[j]) && job.doc == s.jobs[j].doc && job.maxAttempts >= 1
    requires FitsTogether(job, status, j, work)
    ensures OneActiveJob(s.jobs[j := job])
    ensures QueuedHasJob(State(s.jobs[j := job], s.docs[job.doc := status], Placed(s.live, w, work)))
    ensures BusyHasJob(State(s.jobs[j := job], s.docs[job.doc := status], Placed(s.live, w, work)))
  {
    var jobs, docs := s.jobs[j := job], s.docs[job.doc := status];
    assert jobs[j].doc == job.doc;
    forall d | 0 <= d < |docs| && docs[d] == Queued ensures HasJob(jobs, d, Waiting) {
      if d != job.doc {
        assert HasJob(s.jobs, d, Waiting);
        HasJobElsewhere(s.jobs, j, job, d, Waiting);
      }
    }
    forall d | 0 <= d < |docs| && Busy(docs[d]) ensures HasJob(jobs, d, Running) {
      if d != job.doc {
        assert HasJob(s.jobs, d, Running);
        HasJobElsewhere(s.jobs, j, job, d, Running);
      }
    }
  }

  lemma LocalKeepsWorkers(s: State, j: nat, job: Job, docs: seq<DocStatus>, w: nat, work: Option<Work>)
    requires WellFormed(s) && j < |s.jobs| && job.doc == s.jobs[j].doc && job.maxAttempts >= 1 && |docs| == |s.docs|
    requires work.Some? ==> work.value.job == j && job.status.Running?
    requires OnlyWorker(s, j, w) && (w in s.live ==> s.live[w].job == j)
    ensures WellFormed(State(s.jobs[j := job], docs, Placed(s.live, w, work)))
  {
    var live := Placed(s.live, w, work);
    forall x | x in live ensures live[x].job < |s.jobs| && s.jobs[j := job][live[x].job].status.Running? {
      assert x != w ==> x in s.live && s.live[x].job != j;
    }
    forall x, y | x in live && y in live && live[x].job == live[y].job ensures x == y {
      assert x != w ==> x in s.live && s.live[x].job != j;
      assert y != w ==> y in s.live && s.live[y].job != j;
    }
  }

  lemma LocalKeeps(s: State, j: nat, job: Job, status: DocStatus, w: nat, work: Option<Work>)
    requires Inv(s) && j < |s.jobs| && Active(s.jobs[j]) && job.doc == s.jobs[j].doc && job.maxAttempts >= 1
    requires FitsTogether(job, status, j, work)
    requires OnlyWorker(s, j, w) && (w in s.live ==> s.live[w].job == j)
    ensures Inv(State(s.jobs[j := job], s.docs[job.doc := status], Placed(s.live, w, work)))
  {
    LocalKeepsJobs(s, j, job, status, w, work);
    LocalKeepsWorkers(s, j, job, s.docs[job.doc := status], w, work);
    var t := State(s.jobs[j := job], s.docs[job.doc := status], Placed(s.live, w, work));
    forall x | x in t.live ensures PhaseFits(t.live[x].phase, t.docs[DocOf(t, x)]) {
      if x != w {
        assert x in s.live && s.live[x].job != j;
        assert Active(s.jobs[s.live[x].job]);
        assert s.jobs[s.live[x].job].doc != job.doc;
      }
    }
  }

  /** The same when no worker is involved. */
  lemma LocalKeepsIdle(s: State, j: nat, job: Job, status: DocStatus)
    requires Inv(s) && j < |s.jobs| && Active(s.jobs[j]) && job.doc == s.jobs[j].doc && job.maxAttempts >= 1
    requires FitsTogether(job, status, j, None)
    requires forall x :: x in s.live ==> s.live[x].job != j
    ensures Inv(State(s.jobs[j := job], s.docs[job.doc := status], s.live))
  {
    var w := FreshWorker(s.live);
    LocalKeeps(s, j, job, status, w, None);
    assert Placed(s.live, w, None) == s.live;
  }

  lemma WorkerBelow(live: map<nat, Work>) returns (bound: nat)
    ensures forall x :: x in live ==> x < bound
  {
    bound := 0;
    var rest := live.Keys;
    while rest != {}
      invariant rest <= live.Keys
      invariant forall x :: x in live && x !in rest ==> x < bound
      decreases |rest|
    {
      var x :| x in rest;
      rest := rest - {x};
      bound := if x < bound then bound else x + 1;
    }
  }

  ghost function FreshWorker(live: map<nat, Work>): (w: nat)
    ensures w !in live
  {
    FreshExists(live);
    var w: nat :| w !in live;
    w
  }

  lemma FreshExists(live: map<nat, Work>)
    ensures exists w: nat :: w !in live
  {
    var bound := WorkerBelow(live);
    assert bound !in live;
  }

  // ---- Each event ----

  lemma UploadKeeps(s: State, maxAttempts: nat, now: int)
    requires Inv(s) && maxAttempts >= 1
    ensures Inv(State(s.jobs + [NewJob(|s.docs|, maxAttempts, now)], s.docs + [Queued], s.live))
  {
    AppendKeeps(s, NewJob(|s.docs|, maxAttempts, now), s.docs + [Queued]);
  }

  /** A new waiting job for a document without an active one. */
  lemma AppendKeeps(s: State, job: Job, docs: seq<DocStatus>)
    requires Inv(s) && job.status.Waiting? && job.maxAttempts >= 1 && job.doc < |docs| && |s.docs| <= |docs|
    requires forall d :: 0 <= d < |docs| && d != job.doc ==> d < |s.docs| && docs[d] == s.docs[d]
    requires docs[job.doc] == Queued
    requires forall j :: 0 <= j < |s.jobs| && Active(s.jobs[j]) ==> s.jobs[j].doc != job.doc
    ensures Inv(State(s.jobs + [job], docs, s.live))
  {
    var jobs := s.jobs + [job];
    assert jobs[|s.jobs|] == job;
    forall d, status | d != job.doc && HasJob(s.jobs, d, status) ensures HasJob(jobs, d, status) {
      var i :| 0 <= i < |s.jobs| && s.jobs[i].doc == d && s.jobs[i].status == status;
      assert jobs[i] == s.jobs[i];
    }
    forall d | 0 <= d < |docs| && docs[d] == Queued ensures HasJob(jobs, d, Waiting) {}
    forall d | 0 <= d < |docs| && Busy(docs[d]) ensures HasJob(jobs, d, Running) {}
    var t := State(jobs, docs, s.live);
    forall x | x in t.live ensures PhaseFits(t.live[x].phase, t.docs[DocOf(t, x)]) {
      assert Active(s.jobs[s.live[x].job]);
    }
  }

  lemma NotWorkedOn(s: State, j: nat)
    requires Inv(s) && j < |s.jobs| && s.jobs[j].status.Waiting?
    ensures forall x :: x in s.live ==> s.live[x].job != j
  {}

  /** The job of a document under way is failed. */
  lemma RefuseKeeps(s: State, j: nat)
    requires Inv(s) && j < |s.jobs| && s.jobs[j].status.Waiting? && Refused(s.docs, s.jobs[j].doc)
    ensures Inv(State(s.jobs[j := GiveUp(s.jobs[j])], s.docs, s.live))
  {
    var d := s.jobs[j].doc;
    NotWorkedOn(s, j);
    NotBusyWhenWaiting(s, j);
    LocalKeepsIdle(s, j, GiveUp(s.jobs[j]), s.docs[d]);
    assert s.docs[d := s.docs[d]] == s.docs;
  }

  lemma TakeKeeps(s: State, j: nat, w: nat, now: int)
    requires Inv(s) && w !in s.live && j < |s.jobs| && s.jobs[j].status.Waiting? && !Refused(s.docs, s.jobs[j].doc)
    ensures Inv(State(s.jobs[j := Start(s.jobs[j], now)], Taken(s.docs, s.jobs[j].doc), s.live[w := Work(j, Held)]))
  {
    var d := s.jobs[j].doc;
    var status := if s.docs[d] == Deleted then Deleted else Validating;
    NotWorkedOn(s, j);
    LocalKeeps(s, j, Start(s.jobs[j], now), status, w, Some(Work(j, Held)));
    assert Taken(s.docs, d) == s.docs[d := status];
  }

  lemma {:induction false} ClaimKeeps(s: State, w: nat, now: int)
    requires Inv(s) && w !in s.live
    ensures Inv(Apply(s, Claim(w, now)))
    decreases WaitingCount(s.jobs)
  {
    var first := First(s.jobs, |s.jobs|, now);
    if first.Some? {
      var j := first.value;
      if Refused(s.docs, s.jobs[j].doc) {
        RefuseKeeps(s, j);
        WaitingCountDrops(s.jobs, j, GiveUp(s.jobs[j]));
        ClaimKeeps(State(s.jobs[j := GiveUp(s.jobs[j])], s.docs, s.live), w, now);
      } else {
        TakeKeeps(s, j, w, now);
      }
    }
  }

  lemma NotBusyWhenWaiting(s: State, j: nat)
    requires Inv(s) && j < |s.jobs| && s.jobs[j].status.Waiting?
    ensures !Busy(s.docs[s.jobs[j].doc])
  {
    var d := s.jobs[j].doc;
    if Busy(s.docs[d]) {
      assert HasJob(s.jobs, d, Running);
      var i :| 0 <= i < |s.jobs| && s.jobs[i].doc == d && s.jobs[i].status == Running;
      assert Active(s.jobs[i]) && Active(s.jobs[j]);
      assert false;
    }
  }

  /** A worker moves its document and its phase. */
  lemma WorkerKeeps(s: State, w: nat, status: DocStatus, p: Phase)
    requires Inv(s) && w in s.live && status != Queued && PhaseFits(p, status)
    ensures Inv(SetPhase(s.(docs := s.docs[DocOf(s, w) := status]), w, p))
  {
    var j := s.live[w].job;
    LocalKeeps(s, j, s.jobs[j], status, w, Some(Work(j, p)));
    assert s.jobs[j := s.jobs[j]] == s.jobs;
  }

  lemma PhaseKeeps(s: State, w: nat, p: Phase)
    requires Inv(s) && w in s.live && PhaseFits(p, s.docs[DocOf(s, w)])
    ensures Inv(SetPhase(s, w, p))
  {
    NotQueuedWhileRunning(s, s.live[w].job);
    WorkerKeeps(s, w, s.docs[DocOf(s, w)], p);
    assert s.docs[DocOf(s, w) := s.docs[DocOf(s, w)]] == s.docs;
  }

  lemma NotQueuedWhileRunning(s: State, j: nat)
    requires Inv(s) && j < |s.jobs| && s.jobs[j].status.Running?
    ensures s.docs[s.jobs[j].doc] != Queued
  {
    var d := s.jobs[j].doc;
    if s.docs[d] == Queued {
      assert HasJob(s.jobs, d, Waiting);
      var i :| 0 <= i < |s.jobs| && s.jobs[i].doc == d && s.jobs[i].status == Waiting;
      assert Active(s.jobs[i]) && Active(s.jobs[j]);
      assert false;
    }
  }

  lemma FailKeeps(s: State, w: nat, retryable: bool)
    requires Inv(s) && w in s.live && s.live[w].phase.Working?
    ensures Inv(Fail(s, w, retryable))
  {
    var d := DocOf(s, w);
    if s.docs[d] == Deleted {
      PhaseKeeps(s, w, Done(false, false, true));
    } else {
      WorkerKeeps(s, w, Failed, Done(true, retryable, true));
    }
  }

  lemma AdvanceKeeps(s: State, w: nat)
    requires Inv(s) && w in s.live && s.live[w].phase.Working?
    ensures Inv(Apply(s, Advance(w)))
  {
    var next := s.live[w].phase.next;
    if Allowed(s.docs[DocOf(s, w)], next) {
      WorkerKeeps(s, w, next, After(next));
    } else {
      FailKeeps(s, w, true);
    }
  }

  lemma FinishKeeps(s: State, w: nat, retryAt: int)
    requires Inv(s) && w in s.live && s.live[w].phase.Done?
    ensures Inv(FinishJob(s, w, retryAt))
  {
    var t := FinishJob(s, w, retryAt);
    var j, d := s.live[w].job, DocOf(s, w);
    LocalKeeps(s, j, t.jobs[j], t.docs[d], w, None);
    assert t.docs == s.docs[d := t.docs[d]];
  }

  lemma CrashKeeps(s: State, w: nat)
    requires Inv(s) && w in s.live
    ensures Inv(s.(live := s.live - {w}))
  {
    var t := s.(live := s.live - {w});
    assert forall x :: x in t.live ==> x in s.live && t.live[x] == s.live[x];
    forall x | x in t.live ensures PhaseFits(t.live[x].phase, t.docs[DocOf(t, x)]) {
      assert DocOf(t, x) == DocOf(s, x);
    }
  }

  lemma RecoverKeeps(s: State, cutoff: int, now: int)
    requires Inv(s) && Enabled(s, Recover(cutoff, now))
    ensures Inv(Apply(s, Recover(cutoff, now)))
  {
    var t := Apply(s, Recover(cutoff, now));
    forall d | 0 <= d < |t.docs| && t.docs[d] == Queued ensures HasJob(t.jobs, d, Waiting) {
      if s.docs[d] == Queued {
        assert HasJob(s.jobs, d, Waiting);
        var i :| 0 <= i < |s.jobs| && s.jobs[i].doc == d && s.jobs[i].status == Waiting;
        assert t.jobs[i] == s.jobs[i];
      } else {
        var i :| 0 <= i < |s.jobs| && Stale(s.jobs[i], cutoff) && s.jobs[i].doc == d;
        assert t.jobs[i].status == Waiting && t.jobs[i].doc == d;
      }
    }
    forall d | 0 <= d < |t.docs| && Busy(t.docs[d]) ensures HasJob(t.jobs, d, Running) {
      assert HasJob(s.jobs, d, Running);
      var i :| 0 <= i < |s.jobs| && s.jobs[i].doc == d && s.jobs[i].status == Running;
      assert !Stale(s.jobs[i], cutoff);
      assert t.jobs[i] == s.jobs[i];
    }
    forall x | x in t.live ensures PhaseFits(t.live[x].phase, t.docs[DocOf(t, x)]) {
      LiveNotRecovered(s, x, cutoff);
    }
  }

  lemma LiveNotRecovered(s: State, w: nat, cutoff: int)
    requires Inv(s) && w in s.live && !Stale(s.jobs[s.live[w].job], cutoff)
    ensures !HasStale(s.jobs, DocOf(s, w), cutoff)
  {
    var d, k := DocOf(s, w), s.live[w].job;
    if HasStale(s.jobs, d, cutoff) {
      var i :| 0 <= i < |s.jobs| && Stale(s.jobs[i], cutoff) && s.jobs[i].doc == d;
      assert Active(s.jobs[i]) && Active(s.jobs[k]);
      assert false;
    }
  }

  /** Setting a document aside, outside the pipeline. */
  lemma DocKeeps(s: State, d: nat, status: DocStatus)
    requires Inv(s) && d < |s.docs| && Allowed(s.docs[d], status)
    requires status == Deleted || status == Confirmed
    ensures Inv(s.(docs := s.docs[d := status]))
  {
    var t := s.(docs := s.docs[d := status]);
    forall e | 0 <= e < |t.docs| && t.docs[e] == Queued ensures HasJob(t.jobs, e, Waiting) {
      assert s.docs[e] == Queued;
    }
    forall e | 0 <= e < |t.docs| && Busy(t.docs[e]) ensures HasJob(t.jobs, e, Running) {
      assert Busy(s.docs[e]);
    }
    forall x | x in t.live ensures PhaseFits(t.live[x].phase, t.docs[DocOf(t, x)]) {
      assert PhaseFits(s.live[x].phase, s.docs[DocOf(s, x)]);
    }
  }

  lemma ReprocessKeeps(s: State, d: nat, originalGone: bool, now: int)
    requires Inv(s)
    ensures Inv(ReprocessDoc(s, d, originalGone, now))
  {
    if d < |s.docs| && s.docs[d] in {ReadyForReview, Failed, Confirmed} && !originalGone {
      if HasJob(s.jobs, d, Waiting) {
        var j :| 0 <= j < |s.jobs| && s.jobs[j].doc == d && s.jobs[j].status == Waiting;
        NotWorkedOn(s, j);
        LocalKeepsIdle(s, j, s.jobs[j], Queued);
        assert s.jobs[j := s.jobs[j]] == s.jobs;
      } else if !HasJob(s.jobs, d, Running) {
        AppendKeeps(s, NewJob(d, 3, now), s.docs[d := Queued]);
      }
    }
  }

  /** Every event keeps the invariant. */
  lemma StepKeeps(s: State, e: Event)
    requires Inv(s) && Enabled(s, e)
    ensures Inv(Apply(s, e))
  {
    match e
    case Upload(m, now) => UploadKeeps(s, m, now);
    case Claim(w, now) => ClaimKeeps(s, w, now);
    case Begin(w) => BeginKeeps(s, w);
    case ScopeFails(w, retryable) => PhaseKeeps(s, w, Done(true, retryable, false));
    case Advance(w) => AdvanceKeeps(s, w);
    case Raise(w, retryable) => FailKeeps(s, w, retryable);
    case Finish(w, retryAt) => FinishKeeps(s, w, retryAt);
    case Crash(w) => CrashKeeps(s, w);
    case Recover(cutoff, now) => RecoverKeeps(s, cutoff, now);
    case Reprocess(d, gone, now) => ReprocessKeeps(s, d, gone, now);
    case Confirm(d) => if d < |s.docs| && Allowed(s.docs[d], Confirmed) { DocKeeps(s, d, Confirmed); }
    case Delete(d) => if d < |s.docs| && Allowed(s.docs[d], Deleted) { DocKeeps(s, d, Deleted); }
  }

  lemma BeginKeeps(s: State, w: nat)
    requires Inv(s) && w in s.live && s.live[w].phase.Held?
    ensures Inv(BeginJob(s, w))
  {
    if s.docs[DocOf(s, w)] == Deleted {
      PhaseKeeps(s, w, Done(false, false, false));
    } else {
      PhaseKeeps(s, w, Working(Preprocessing));
    }
  }
}
