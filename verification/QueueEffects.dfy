/** What each event of the queue brings about, and exactly when, in the terms of jobs and documents. */
module QueueEffects {
  import opened Common
  import opened Queue
  import opened QueueLaws
  import opened QueueRuns

  // ---- Frames ----

  predicate OnlyDoc(before: seq<DocStatus>, after: seq<DocStatus>, d: nat) {
    |after| == |before| && forall e :: 0 <= e < |before| && e != d ==> after[e] == before[e]
  }

  predicate OnlyJob(before: seq<Job>, after: seq<Job>, j: nat) {
    |after| == |before| && forall i :: 0 <= i < |before| && i != j ==> after[i] == before[i]
  }

  /** Every worker but w is where it was. */
  predicate OnlyWorkerOf(before: map<nat, Work>, after: map<nat, Work>, w: nat) {
    && (forall x :: x in before && x != w ==> x in after && after[x] == before[x])
    && (forall x :: x in after && x != w ==> x in before)
  }

  // ---- Asking for another pass ----

  /** The document was read before or failed, its original is still there, and no old job of it is running. */
  predicate Reprocessable(s: State, d: nat, originalGone: bool) {
    && d < |s.docs| && (s.docs[d].ReadyForReview? || s.docs[d].Failed? || s.docs[d].Confirmed?) && !originalGone
    && forall j :: 0 <= j < |s.jobs| && s.jobs[j].doc == d ==> !s.jobs[j].status.Running?
  }

  predicate WaitsFor(j: Job, d: nat) { j.doc == d && j.status.Waiting? }

  predicate OneWaits(jobs: seq<Job>, d: nat) {
    && (exists j :: 0 <= j < |jobs| && WaitsFor(jobs[j], d))
    && (forall i, j :: 0 <= i < j < |jobs| && WaitsFor(jobs[i], d) ==> !WaitsFor(jobs[j], d))
  }

  /** A job that nobody has tried, ready from `now` on. */
  predicate Untried(j: Job, d: nat, now: int) {
    WaitsFor(j, d) && j.attempts == 0 && j.maxAttempts >= 1 && j.availableAt == now && j.lockedAt.None?
  }

  /** The document is queued with exactly one waiting job, appended if none waited before; nothing else changes. */
  predicate Requested(s: State, t: State, d: nat, now: int) {
    && OnlyDoc(s.docs, t.docs, d) && d < |t.docs| && t.docs[d].Queued? && t.live == s.live
    && OneWaits(t.jobs, d)
    && (|t.jobs| == |s.jobs| || |t.jobs| == |s.jobs| + 1) && t.jobs[..|s.jobs|] == s.jobs
    && (|t.jobs| == |s.jobs| + 1 <==> forall j :: 0 <= j < |s.jobs| ==> !WaitsFor(s.jobs[j], d))
    && (|t.jobs| == |s.jobs| + 1 ==> Untried(t.jobs[|s.jobs|], d, now))
  }

  lemma OnlyOneWaits(s: State, d: nat)
    requires Inv(s) && d < |s.docs| && s.docs[d].Queued?
    ensures OneWaits(s.jobs, d)
  {
    assert HasJob(s.jobs, d, Waiting);
    var j :| 0 <= j < |s.jobs| && s.jobs[j].doc == d && s.jobs[j].status == Waiting;
    assert WaitsFor(s.jobs[j], d);
    forall i, k | 0 <= i < k < |s.jobs| && WaitsFor(s.jobs[i], d) ensures !WaitsFor(s.jobs[k], d) {
      assert Active(s.jobs[i]);
    }
  }

  lemma WaitingIsListed(jobs: seq<Job>, d: nat)
    ensures HasJob(jobs, d, Waiting) <==> exists j :: 0 <= j < |jobs| && WaitsFor(jobs[j], d)
    ensures HasJob(jobs, d, Running) <==> exists j :: 0 <= j < |jobs| && jobs[j].doc == d && jobs[j].status.Running?
  {
    if j :| 0 <= j < |jobs| && WaitsFor(jobs[j], d) {
      assert jobs[j].doc == d && jobs[j].status == Waiting;
    }
    if j :| 0 <= j < |jobs| && jobs[j].doc == d && jobs[j].status.Running? {
      assert jobs[j].status == Running;
    }
  }

  /** With a waiting job no job of the document is running. */
  lemma WaitingMeansIdle(s: State, d: nat)
    requires Inv(s) && HasJob(s.jobs, d, Waiting)
    ensures !HasJob(s.jobs, d, Running)
  {
    var i :| 0 <= i < |s.jobs| && s.jobs[i].doc == d && s.jobs[i].status == Waiting;
    forall j | 0 <= j < |s.jobs| && s.jobs[j].doc == d ensures s.jobs[j].status != Running {
      assert Active(s.jobs[i]) && (s.jobs[j].status.Running? ==> Active(s.jobs[j]));
    }
  }

  /** A request is granted exactly for such a document; a refused one changes nothing. */
  lemma ReprocessEffect(s: State, d: nat, originalGone: bool, now: int)
    requires Inv(s)
    ensures var t := Apply(s, Reprocess(d, originalGone, now));
      if Reprocessable(s, d, originalGone) then Requested(s, t, d, now) else t == s
  {
    var t := Apply(s, Reprocess(d, originalGone, now));
    ReprocessKeeps(s, d, originalGone, now);
    WaitingIsListed(s.jobs, d);
    if HasJob(s.jobs, d, Waiting) {
      WaitingMeansIdle(s, d);
    }
    if Reprocessable(s, d, originalGone) {
      assert t.docs[d].Queued?;
      OnlyOneWaits(t, d);
    }
  }

  /** A failed document can be read again although its job gave up. */
  lemma FailedDocumentIsReadAgain()
    ensures var s := State([Job(0, GaveUp, 3, 3, 0, None)], [Failed], map[]);
      Inv(s) && Apply(s, Reprocess(0, false, 5)) == State(s.jobs + [NewJob(0, 3, 5)], [Queued], map[])
  {
    var s := State([Job(0, GaveUp, 3, 3, 0, None)], [Failed], map[]);
    assert [Failed][0 := Queued] == [Queued];
    assert !HasJob(s.jobs, 0, Waiting) && !HasJob(s.jobs, 0, Running);
  }

  // ---- Uploading and claiming ----

  /** A new document is queued, with a job nobody has tried. */
  lemma UploadEffect(s: State, maxAttempts: nat, now: int)
    requires Inv(s) && maxAttempts >= 1
    ensures var t := Apply(s, Upload(maxAttempts, now));
      && t.docs == s.docs + [Queued] && |t.jobs| == |s.jobs| + 1 && t.jobs[..|s.jobs|] == s.jobs && t.live == s.live
      && Untried(t.jobs[|s.jobs|], |s.docs|, now) && t.jobs[|s.jobs|].maxAttempts == maxAttempts
  {}

  /** Work can start on the document: nobody has it, or it was deleted and its job only has to be closed. */
  predicate Free(s: State, j: nat)
    requires j < |s.jobs|
  {
    s.jobs[j].doc < |s.docs| ==>
      var status := s.docs[s.jobs[j].doc]; status.Queued? || status.Failed? || status.Deleted?
  }

  predicate Ready(s: State, j: nat, now: int) {
    j < |s.jobs| && s.jobs[j].status.Waiting? && s.jobs[j].availableAt <= now && Free(s, j)
  }

  predicate SomeReady(s: State, now: int) { exists j :: 0 <= j < |s.jobs| && Ready(s, j, now) }

  /** Worker w has taken job j at that time. */
  predicate TakenBy(s: State, t: State, w: nat, j: nat, now: int) {
    && |t.jobs| == |s.jobs| && j < |s.jobs| && s.jobs[j].doc < |s.docs|
    && t.jobs[j].status.Running? && t.jobs[j].lockedAt == Some(now) && t.jobs[j].attempts == s.jobs[j].attempts + 1
    && t.jobs[j].doc == s.jobs[j].doc && t.jobs[j].maxAttempts == s.jobs[j].maxAttempts
    && OnlyDoc(s.docs, t.docs, s.jobs[j].doc)
    && t.docs[s.jobs[j].doc] == (if s.docs[s.jobs[j].doc].Deleted? then Deleted else Validating)
    && t.live.Keys == s.live.Keys + {w} && OnlyWorkerOf(s.live, t.live, w) && t.live[w] == Work(j, Held)
  }

  lemma FreeIsNotRefused(s: State, j: nat, now: int)
    requires j < |s.jobs|
    ensures Ready(s, j, now) <==> Available(s.jobs[j], now) && !Refused(s.docs, s.jobs[j].doc)
  {}

  lemma NothingReady(s: State, now: int)
    requires ClaimNext(s.jobs, s.docs, now).job.None?
    ensures !SomeReady(s, now)
  {
    var r := ClaimNext(s.jobs, s.docs, now);
    ClaimTakesLeast(s.jobs, s.docs, now);
    forall j | 0 <= j < |s.jobs| ensures !Ready(s, j, now) {
      FreeIsNotRefused(s, j, now);
      assert OnlyRefusedGaveUp(s.jobs, r.jobs, s.docs, now, j) && !Available(r.jobs[j], now);
    }
  }

  lemma FirstReady(s: State, now: int)
    requires ClaimNext(s.jobs, s.docs, now).job.Some?
    ensures var j := ClaimNext(s.jobs, s.docs, now).job.value;
      && j < |s.jobs| && Ready(s, j, now)
      && forall i :: 0 <= i < |s.jobs| && Ready(s, i, now) && i != j ==> Earlier(s.jobs, j, i)
  {
    var j := ClaimNext(s.jobs, s.docs, now).job.value;
    ClaimTakesLeast(s.jobs, s.docs, now);
    FreeIsNotRefused(s, j, now);
    forall i | 0 <= i < |s.jobs| && Ready(s, i, now) && i != j ensures Earlier(s.jobs, j, i) {
      FreeIsNotRefused(s, i, now);
    }
  }

  lemma FirstIsTaken(s: State, w: nat, now: int)
    requires w !in s.live && ClaimNext(s.jobs, s.docs, now).job.Some? && WellFormed(s)
    ensures var r := ClaimNext(s.jobs, s.docs, now);
      TakenBy(s, State(r.jobs, r.docs, s.live[w := Work(r.job.value, Held)]), w, r.job.value, now)
  {
    ClaimTakesLeast(s.jobs, s.docs, now);
  }

  /** A claim takes a job exactly when one is ready whose document is free: the one ready first. */
  lemma ClaimEffect(s: State, w: nat, now: int)
    requires Inv(s) && w !in s.live
    ensures var t := Apply(s, Claim(w, now));
      if SomeReady(s, now) then
        && w in t.live && Ready(s, t.live[w].job, now) && TakenBy(s, t, w, t.live[w].job, now)
        && forall i :: 0 <= i < |s.jobs| && Ready(s, i, now) && i != t.live[w].job ==>
             Earlier(s.jobs, t.live[w].job, i)
      else t.live == s.live && t.docs == s.docs
  {
    if ClaimNext(s.jobs, s.docs, now).job.None? {
      NothingReady(s, now);
      ClaimTakesLeast(s.jobs, s.docs, now);
    } else {
      FirstReady(s, now);
      FirstIsTaken(s, w, now);
    }
  }

  // ---- A worker's way through the pipeline ----

  /** Worker w goes on to phase p, and its document to that status; nothing else changes. */
  predicate MovesOn(s: State, t: State, w: nat, p: Phase, status: DocStatus)
    requires Holds(s, w)
  {
    && t.jobs == s.jobs && t.live.Keys == s.live.Keys && OnlyWorkerOf(s.live, t.live, w)
    && w in t.live && t.live[w] == Work(s.live[w].job, p)
    && OnlyDoc(s.docs, t.docs, DocOf(s, w)) && t.docs[DocOf(s, w)] == status
  }

  /** The key scope fails before the pipeline, which leaves the document being validated. */
  lemma ScopeFailsEffect(s: State, w: nat, retryable: bool)
    requires Inv(s) && w in s.live && s.live[w].phase.Held?
    ensures MovesOn(s, Apply(s, ScopeFails(w, retryable)), w, Done(true, retryable, false), s.docs[DocOf(s, w)])
  {}

  /** The pipeline starts, and ends at once on a deleted document. */
  lemma BeginEffect(s: State, w: nat)
    requires Inv(s) && w in s.live && s.live[w].phase.Held?
    ensures var status := s.docs[DocOf(s, w)];
      MovesOn(s, Apply(s, Begin(w)), w,
              if status.Deleted? then Done(false, false, false) else Working(Preprocessing), status)
  {
    assert PhaseFits(s.live[w].phase, s.docs[DocOf(s, w)]);
  }

  /** The step after a pipeline status: reading, parsing, handing over for review. */
  function NextPhase(d: DocStatus): Phase {
    if d.Preprocessing? then Working(OcrRunning)
    else if d.OcrRunning? then Working(Parsing)
    else if d.Parsing? then Working(ReadyForReview)
    else Done(false, false, true)
  }

  predicate DocGone(s: State, w: nat)
    requires Holds(s, w)
  {
    s.docs[DocOf(s, w)].Deleted?
  }

  /** A worker in its pipeline agrees with its document. */
  predicate InPipeline(s: State, w: nat) {
    Holds(s, w) && s.live[w].phase.Working? && PhaseFits(s.live[w].phase, s.docs[DocOf(s, w)])
  }

  lemma StepReaches(s: State, w: nat)
    requires InPipeline(s, w) && !DocGone(s, w)
    ensures var next := s.live[w].phase.next;
      MovesOn(s, StepPipeline(s, w, next, After(next)), w, NextPhase(next), next)
  {}

  lemma FailureMarks(s: State, w: nat, retryable: bool)
    requires InPipeline(s, w) && !DocGone(s, w)
    ensures MovesOn(s, Fail(s, w, retryable), w, Done(true, retryable, true), Failed)
  {}

  lemma EndsQuietly(s: State, w: nat, retryable: bool)
    requires InPipeline(s, w) && DocGone(s, w)
    ensures MovesOn(s, Fail(s, w, retryable), w, Done(false, false, true), Deleted)
    ensures var next := s.live[w].phase.next; StepPipeline(s, w, next, After(next)) == Fail(s, w, true)
  {}

  /** Unless the document was deleted, a step reaches its status; on a deleted one the work ends quietly. */
  lemma AdvanceEffect(s: State, w: nat)
    requires Inv(s) && w in s.live && s.live[w].phase.Working?
    ensures var next := s.live[w].phase.next;
      if DocGone(s, w) then MovesOn(s, Apply(s, Advance(w)), w, Done(false, false, true), Deleted)
      else MovesOn(s, Apply(s, Advance(w)), w, NextPhase(next), next)
  {
    assert InPipeline(s, w);
    if DocGone(s, w) {
      EndsQuietly(s, w, true);
    } else {
      StepReaches(s, w);
    }
  }

  /** An exception marks the document failed; on a deleted one the work ends quietly. */
  lemma RaiseEffect(s: State, w: nat, retryable: bool)
    requires Inv(s) && w in s.live && s.live[w].phase.Working?
    ensures var t := Apply(s, Raise(w, retryable));
      if DocGone(s, w) then MovesOn(s, t, w, Done(false, false, true), Deleted)
      else MovesOn(s, t, w, Done(true, retryable, true), Failed)
  {
    assert InPipeline(s, w);
    if DocGone(s, w) {
      EndsQuietly(s, w, retryable);
    } else {
      FailureMarks(s, w, retryable);
    }
  }

  /** The worker has let go of its job, which now is `job`. */
  predicate Marked(s: State, t: State, w: nat, job: Job, status: DocStatus)
    requires Holds(s, w)
  {
    && OnlyJob(s.jobs, t.jobs, s.live[w].job) && t.jobs[s.live[w].job] == job
    && OnlyDoc(s.docs, t.docs, DocOf(s, w)) && t.docs[DocOf(s, w)] == status
    && w !in t.live && OnlyWorkerOf(s.live, t.live, w)
  }

  /** Success closes the job. A failure puts it back for the given time exactly when it may be retried and attempts
      are left, its failed document with it; otherwise the job has given up for good. */
  lemma FinishEffect(s: State, w: nat, retryAt: int)
    requires Inv(s) && w in s.live && s.live[w].phase.Done?
    ensures var p, job, status := s.live[w].phase, s.jobs[s.live[w].job], s.docs[DocOf(s, w)];
      var t := Apply(s, Finish(w, retryAt));
      if !p.failed then Marked(s, t, w, job.(status := Succeeded, lockedAt := None), status)
      else if p.retryable && job.attempts < job.maxAttempts then
        Marked(s, t, w, job.(status := Waiting, lockedAt := None, availableAt := retryAt),
               if status.Failed? then Queued else status)
      else Marked(s, t, w, job.(status := GaveUp, lockedAt := None), status)
  {}

  // ---- From outside ----

  /** A confirmation takes effect on a document ready for review only. */
  lemma ConfirmEffect(s: State, d: nat)
    requires Inv(s)
    ensures var t := Apply(s, Confirm(d));
      if d < |s.docs| && s.docs[d].ReadyForReview? then
        OnlyDoc(s.docs, t.docs, d) && t.docs[d] == Confirmed && t.jobs == s.jobs && t.live == s.live
      else t == s
  {}

  /** Deleting a document always succeeds, whatever is being done to it. */
  lemma DeleteEffect(s: State, d: nat)
    requires Inv(s) && d < |s.docs|
    ensures var t := Apply(s, Delete(d));
      OnlyDoc(s.docs, t.docs, d) && t.docs[d] == Deleted && t.jobs == s.jobs && t.live == s.live
  {}

  // ---- Recovery ----

  predicate ClaimedBefore(j: Job, cutoff: int) { j.status.Running? && j.lockedAt.Some? && j.lockedAt.value < cutoff }

  predicate UnderWay(d: DocStatus) { d.Validating? || d.Preprocessing? || d.OcrRunning? || d.Parsing? }

  predicate Abandoned(jobs: seq<Job>, d: nat, cutoff: int) {
    exists j :: 0 <= j < |jobs| && jobs[j].doc == d && ClaimedBefore(jobs[j], cutoff)
  }

  /** Back in the queue, available at once, its attempts kept. */
  function PutBack(j: Job, now: int): Job { j.(status := Waiting, availableAt := now, lockedAt := None) }

  /** Exactly the jobs claimed before the cutoff are put back, and exactly the documents under way of such a job are
      queued again. */
  lemma RecoverEffect(s: State, cutoff: int, now: int)
    ensures var jobs, docs := RecoveredJobs(s.jobs, cutoff, now), RecoveredDocs(s.jobs, s.docs, cutoff);
      && |jobs| == |s.jobs| && |docs| == |s.docs|
      && (forall j :: 0 <= j < |jobs| ==>
            jobs[j] == if ClaimedBefore(s.jobs[j], cutoff) then PutBack(s.jobs[j], now) else s.jobs[j])
      && (forall d :: 0 <= d < |docs| ==>
            docs[d] == if UnderWay(s.docs[d]) && Abandoned(s.jobs, d, cutoff) then Queued else s.docs[d])
  {
    forall d | 0 <= d < |s.docs| ensures Abandoned(s.jobs, d, cutoff) <==> HasStale(s.jobs, d, cutoff) {
      if j :| 0 <= j < |s.jobs| && s.jobs[j].doc == d && ClaimedBefore(s.jobs[j], cutoff) {
        assert Stale(s.jobs[j], cutoff);
      }
      if j :| 0 <= j < |s.jobs| && Stale(s.jobs[j], cutoff) && s.jobs[j].doc == d {
        assert ClaimedBefore(s.jobs[j], cutoff);
      }
    }
  }

  /** A running job says when it was claimed. */
  predicate ClaimsDated(jobs: seq<Job>) {
    forall j :: 0 <= j < |jobs| && jobs[j].status.Running? ==> jobs[j].lockedAt.Some?
  }

  lemma ClaimsStayDated(s: State, e: Event)
    requires Inv(s) && Enabled(s, e) && ClaimsDated(s.jobs)
    ensures ClaimsDated(Apply(s, e).jobs)
  {
    match e
    case Claim(w, now) => ClaimLeavesDated(s, now);
    case Reprocess(d, gone, now) => ReprocessEffect(s, d, gone, now); NewJobsDated(s, Apply(s, e));
    case Upload(m, now) => UploadEffect(s, m, now); NewJobsDated(s, Apply(s, e));
    case Begin(w) => BeginEffect(s, w);
    case ScopeFails(w, retryable) => ScopeFailsEffect(s, w, retryable);
    case Advance(w) => AdvanceEffect(s, w);
    case Raise(w, retryable) => RaiseEffect(s, w, retryable);
    case Finish(w, at) => FinishEffect(s, w, at);
    case Crash(_) =>
    case Recover(cutoff, now) => RecoverEffect(s, cutoff, now);
    case Confirm(_) =>
    case Delete(_) =>
  }

  lemma ClaimLeavesDated(s: State, now: int)
    requires Inv(s) && ClaimsDated(s.jobs)
    ensures ClaimsDated(ClaimNext(s.jobs, s.docs, now).jobs)
  {
    var r := ClaimNext(s.jobs, s.docs, now);
    ClaimTakesLeast(s.jobs, s.docs, now);
    forall j | 0 <= j < |r.jobs| && r.jobs[j].status.Running? ensures r.jobs[j].lockedAt.Some? {
      assert r.job != Some(j) ==> OnlyRefusedGaveUp(s.jobs, r.jobs, s.docs, now, j);
    }
  }

  lemma NewJobsDated(s: State, t: State)
    requires ClaimsDated(s.jobs) && |s.jobs| <= |t.jobs| && t.jobs[..|s.jobs|] == s.jobs
    requires forall j :: |s.jobs| <= j < |t.jobs| ==> t.jobs[j].status.Waiting?
    ensures ClaimsDated(t.jobs)
  {
    forall j | 0 <= j < |t.jobs| && t.jobs[j].status.Running? ensures t.jobs[j].lockedAt.Some? {
      assert t.jobs[j] == t.jobs[..|s.jobs|][j];
    }
  }

  lemma {:induction false} RunsAreDated(events: seq<Event>)
    ensures ClaimsDated(Run(events).jobs)
  {
    if events != [] {
      var front, last := events[..|events| - 1], events[|events| - 1];
      RunsAreDated(front);
      if Enabled(Run(front), last) {
        ClaimsStayDated(Run(front), last);
      }
    }
  }

  lemma ClaimIsPutBack(jobs: seq<Job>, docs: seq<DocStatus>, j: nat, cutoff: int, now: int)
    requires j < |jobs| && jobs[j].doc < |docs| && ClaimedBefore(jobs[j], cutoff)
    ensures RecoveredJobs(jobs, cutoff, now)[j] == PutBack(jobs[j], now)
    ensures var status := docs[jobs[j].doc];
      RecoveredDocs(jobs, docs, cutoff)[jobs[j].doc] == if UnderWay(status) then Queued else status
  {
    RecoverEffect(State(jobs, docs, map[]), cutoff, now);
    assert Abandoned(jobs, jobs[j].doc, cutoff);
  }

  /** A worker that crashed loses nothing: once the cutoff has passed its claim, recovery puts the job back, and its
      document with it unless that was finished or deleted. */
  lemma CrashedWorkIsRecovered(s: State, w: nat, cutoff: int, now: int)
    requires Inv(s) && ClaimsDated(s.jobs) && w in s.live && s.jobs[s.live[w].job].lockedAt.value < cutoff
    requires Enabled(Apply(s, Crash(w)), Recover(cutoff, now))
    ensures var crashed := Apply(s, Crash(w));
      && Inv(crashed)
      && var t := Apply(crashed, Recover(cutoff, now));
         && t.jobs[s.live[w].job] == PutBack(s.jobs[s.live[w].job], now)
         && t.docs[DocOf(s, w)] == if UnderWay(s.docs[DocOf(s, w)]) then Queued else s.docs[DocOf(s, w)]
  {
    CrashKeeps(s, w);
    ClaimIsPutBack(s.jobs, s.docs, s.live[w].job, cutoff, now);
  }
}
