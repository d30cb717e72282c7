/** The queue's tables as the code updates them: each method is one database transaction and is proved equal
    to one event of the state machine. */
module JobQueueStore {
  import opened Common
  import opened Queue
  import opened QueueEffects
  import opened QueueLaws

  function StaleCount(jobs: seq<Job>, cutoff: int): nat {
    if jobs == [] then 0
    else StaleCount(jobs[..|jobs| - 1], cutoff) + if Stale(jobs[|jobs| - 1], cutoff) then 1 else 0
  }

  /** What one whole, undisturbed pass leaves behind for the claimed job and its document. */
  predicate PassOutcome(job: Job, before: DocStatus, after: DocStatus, failAt: Option<DocStatus>, retryable: bool) {
    if before == Deleted then job.status.Succeeded? && after == Deleted
    else if failAt.None? then job.status.Succeeded? && after == ReadyForReview
    else if retryable && job.attempts < job.maxAttempts then job.status.Waiting? && after == Queued
    else job.status.GaveUp? && after == Failed
  }

  class JobQueue {
    var jobs: seq<Job>
    var docs: seq<DocStatus>
    var live: map<nat, Work>

    ghost function Model(): State
      reads this
    {
      State(jobs, docs, live)
    }

    ghost predicate Valid()
      reads this
    {
      Inv(Model())
    }

    constructor ()
      ensures Valid() && Model() == INITIAL
    {
      jobs, docs, live := [], [], map[];
    }

    method CreateUploadedDocument(maxAttempts: nat, now: int) returns (doc: nat)
      requires Valid() && maxAttempts >= 1
      modifies this
      ensures Valid() && Model() == Apply(old(Model()), Upload(maxAttempts, now))
      ensures doc == old(|docs|)
    {
      StepKeeps(Model(), Upload(maxAttempts, now));
      doc := |docs|;
      docs := docs + [Queued];
      jobs := jobs + [NewJob(doc, maxAttempts, now)];
    }

    method Earliest(now: int) returns (best: Option<nat>)
      ensures best == First(jobs, |jobs|, now)
    {
      best := None;
      var n := 0;
      while n < |jobs|
        invariant 0 <= n <= |jobs| && best == First(jobs, n, now)
      {
        if Available(jobs[n], now) && (best.None? || Earlier(jobs, n, best.value)) {
          best := Some(n);
        }
        n := n + 1;
      }
    }

    method ClaimNextJob(worker: nat, now: int) returns (claimed: Option<nat>)
      requires Valid() && worker !in live
      modifies this
      ensures Valid() && Model() == Apply(old(Model()), Claim(worker, now))
      ensures claimed == ClaimNext(old(jobs), old(docs), now).job
    {
      StepKeeps(Model(), Claim(worker, now));
      ghost var result := ClaimNext(jobs, docs, now);
      claimed := Earliest(now);
      while claimed.Some? && Refused(docs, jobs[claimed.value].doc)
        invariant claimed == First(jobs, |jobs|, now)
        invariant ClaimNext(jobs, docs, now) == result
        invariant docs == old(docs) && live == old(live)
        decreases WaitingCount(jobs)
      {
        WaitingCountDrops(jobs, claimed.value, GiveUp(jobs[claimed.value]));
        jobs := jobs[claimed.value := GiveUp(jobs[claimed.value])];
        claimed := Earliest(now);
      }
      if claimed.Some? {
        var j := claimed.value;
        docs := Taken(docs, jobs[j].doc);
        jobs := jobs[j := Start(jobs[j], now)];
        live := live[worker := Work(j, Held)];
      }
    }

    method TransitionDocument(d: nat, status: DocStatus) returns (ok: bool)
      modifies this`docs
      ensures docs == Transition(old(docs), d, status)
      ensures ok <==> d < |old(docs)| && Allowed(old(docs)[d], status)
    {
      ok := d < |docs| && Allowed(docs[d], status);
      if ok {
        docs := docs[d := status];
      }
    }

    method MarkSucceeded(worker: nat)
      requires Valid() && worker in live && live[worker].phase.Done? && !live[worker].phase.failed
      modifies this
      ensures Valid() && forall at :: Model() == FinishJob(old(Model()), worker, at)
    {
      FinishKeeps(Model(), worker, 0);
      var j := live[worker].job;
      jobs := jobs[j := MarkedSucceeded(jobs[j])];
      live := live - {worker};
    }

    method MarkFailed(worker: nat, retryAt: int) returns (requeued: bool)
      requires Valid() && worker in live && live[worker].phase.Done? && live[worker].phase.failed
      modifies this
      ensures Valid() && Model() == FinishJob(old(Model()), worker, retryAt)
      ensures requeued <==> jobs[old(live)[worker].job].status.Waiting?
    {
      FinishKeeps(Model(), worker, retryAt);
      var j := live[worker].job;
      var job := jobs[j];
      requeued := live[worker].phase.retryable && job.attempts < job.maxAttempts;
      if requeued {
        jobs := jobs[j := job.(status := Waiting, availableAt := retryAt, lockedAt := None)];
        if docs[job.doc] == Failed {
          docs := docs[job.doc := Queued];
        }
      } else {
        jobs := jobs[j := job.(status := GaveUp, lockedAt := None)];
      }
      live := live - {worker};
    }

    /** `recover_stale`: the stale jobs are listed first, then jobs and documents are updated in bulk, for any
        cutoff. With one that no live worker's claim is older than, it is the recovery event. */
    method RecoverStale(cutoff: int, now: int) returns (recovered: nat)
      requires Valid()
      modifies this
      ensures jobs == RecoveredJobs(old(jobs), cutoff, now) && docs == RecoveredDocs(old(jobs), old(docs), cutoff)
      ensures live == old(live) && recovered == StaleCount(old(jobs), cutoff)
      ensures old(Enabled(Model(), Recover(cutoff, now))) ==>
        Valid() && Model() == Apply(old(Model()), Recover(cutoff, now))
    {
      if Enabled(Model(), Recover(cutoff, now)) {
        StepKeeps(Model(), Recover(cutoff, now));
      }
      var stale := jobs;
      jobs, recovered := RequeueJobs(stale, cutoff, now);
      docs := RequeueDocuments(stale, docs, cutoff);
    }

    static method RequeueJobs(before: seq<Job>, cutoff: int, now: int) returns (after: seq<Job>, recovered: nat)
      ensures after == RecoveredJobs(before, cutoff, now) && recovered == StaleCount(before, cutoff)
    {
      after, recovered := before, 0;
      var n := 0;
      while n < |before|
        invariant 0 <= n <= |before| == |after|
        invariant recovered == StaleCount(before[..n], cutoff)
        invariant forall i :: 0 <= i < n ==> after[i] == Recovered(before[i], cutoff, now)
        invariant forall i :: n <= i < |before| ==> after[i] == before[i]
      {
        assert before[..n + 1][..n] == before[..n];
        if Stale(before[n], cutoff) {
          recovered := recovered + 1;
          after := after[n := Recovered(before[n], cutoff, now)];
        }
        n := n + 1;
      }
      assert before[..n] == before;
    }

    static method RequeueDocuments(stale: seq<Job>, before: seq<DocStatus>, cutoff: int)
      returns (after: seq<DocStatus>)
      ensures after == RecoveredDocs(stale, before, cutoff)
    {
      after := before;
      var d := 0;
      while d < |before|
        invariant 0 <= d <= |before| == |after|
        invariant forall i :: 0 <= i < d ==> after[i] == RecoveredDocs(stale, before, cutoff)[i]
        invariant forall i :: d <= i < |before| ==> after[i] == before[i]
      {
        if InFlight(before[d]) && HasStale(stale, d, cutoff) {
          after := after[d := Queued];
        }
        d := d + 1;
      }
    }

    method RequestReprocess(d: nat, originalGone: bool, now: int) returns (accepted: bool)
      requires Valid()
      modifies this
      ensures Valid() && Model() == Apply(old(Model()), Reprocess(d, originalGone, now))
      ensures accepted <==> Reprocessable(old(Model()), d, originalGone)
      ensures if accepted then Requested(old(Model()), Model(), d, now) else Model() == old(Model())
    {
      ReprocessKeeps(Model(), d, originalGone, now);
      ReprocessEffect(Model(), d, originalGone, now);
      WaitingIsListed(jobs, d);
      if HasJob(jobs, d, Waiting) {
        WaitingMeansIdle(Model(), d);
      }
      accepted := d < |docs| && docs[d] in {ReadyForReview, Failed, Confirmed} && !originalGone;
      if accepted {
        var saved := docs;
        docs := docs[d := Queued];
        if !HasJob(jobs, d, Waiting) {
          if HasJob(jobs, d, Running) {
            // The insert violates the constraint; the transaction rolls back.
            docs := saved;
            accepted := false;
          } else {
            jobs := jobs + [NewJob(d, 3, now)];
          }
        }
      }
    }

    method DeleteDocument(d: nat)
      requires Valid()
      modifies this
      ensures Valid() && Model() == Apply(old(Model()), Delete(d))
    {
      StepKeeps(Model(), Delete(d));
      var _ := TransitionDocument(d, Deleted);
    }

    /** One step of the pipeline, or of its exception handler. */
    method PipelineStep(worker: nat, fail: bool, retryable: bool)
      requires Valid() && worker in live && live[worker].phase.Working?
      modifies this
      ensures Valid()
      ensures Model() == Apply(old(Model()), if fail then Raise(worker, retryable) else Advance(worker))
    {
      StepKeeps(Model(), if fail then Raise(worker, retryable) else Advance(worker));
      var d, next := jobs[live[worker].job].doc, live[worker].phase.next;
      var phase := After(next);
      var ok := false;
      if !fail {
        ok := TransitionDocument(d, next);
      }
      if !ok {
        var deleted := docs[d] == Deleted;
        if docs[d] != Failed && !deleted {
          var marked := TransitionDocument(d, Failed);
        }
        phase := if deleted then Done(false, false, true) else Done(true, !fail || retryable, true);
      }
      live := live[worker := live[worker].(phase := phase)];
    }

    /** `process_one_job` undisturbed: claim, run the pipeline, fail before one of its steps or not at all,
        and mark the job. */
    method ProcessOneJob(worker: nat, now: int, failAt: Option<DocStatus>, retryable: bool, retryAt: int)
      returns (claimed: Option<nat>)
      requires Valid() && worker !in live
      requires failAt.Some? ==> IsStep(failAt.value)
      modifies this
      ensures Valid() && live == old(live)
      ensures claimed == ClaimNext(old(jobs), old(docs), now).job
      ensures claimed.Some? ==> Processed(old(Model()), Model(), claimed.value, failAt, retryable)
    {
      ghost var before := Model();
      claimed := ClaimNextJob(worker, now);
      if claimed.Some? {
        ghost var held := Model();
        ClaimedShape(before, worker, now);
        RunPipeline(worker, failAt, retryable);
        FinishShape(before, held, Model(), worker, retryAt, failAt, retryable);
        if live[worker].phase.failed {
          var _ := MarkFailed(worker, retryAt);
        } else {
          MarkSucceeded(worker);
        }
      }
    }

    method RunPipeline(worker: nat, failAt: Option<DocStatus>, retryable: bool)
      requires Valid() && worker in live && live[worker].phase.Held?
      requires failAt.Some? ==> IsStep(failAt.value)
      modifies this
      ensures Valid() && PipelineDone(old(Model()), Model(), worker, failAt, retryable)
    {
      ghost var before := Model();
      BeginKeeps(before, worker);
      if docs[jobs[live[worker].job].doc] == Deleted {
        live := live[worker := live[worker].(phase := Done(false, false, false))];
        return;
      }
      live := live[worker := live[worker].(phase := Working(Preprocessing))];
      while live[worker].phase.Working?
        invariant Valid() && OnTheWay(before, Model(), worker, failAt, retryable)
        decreases Remaining(live[worker].phase)
      {
        StepShape(before, Model(), worker, failAt, retryable);
        PipelineStep(worker, Some(live[worker].phase.next) == failAt, retryable);
      }
    }
  }

  predicate PipelineEnd(before: DocStatus, after: DocStatus, p: Phase, failAt: Option<DocStatus>, retryable: bool) {
    if before == Deleted then p == Done(false, false, false) && after == Deleted
    else if failAt.None? then p == Done(false, false, true) && after == ReadyForReview
    else p == Done(true, retryable, true) && after == Failed
  }

  function StepNumber(next: DocStatus): nat {
    match next
    case Preprocessing => 0
    case OcrRunning => 1
    case Parsing => 2
    case ReadyForReview => 3
    case _ => 4
  }

  function Remaining(p: Phase): nat {
    match p
    case Working(next) => 5 - StepNumber(next)
    case _ => 0
  }

  predicate NotYetFailed(next: DocStatus, failAt: Option<DocStatus>) {
    failAt.Some? ==> StepNumber(next) <= StepNumber(failAt.value)
  }

  predicate IsStep(d: DocStatus) { d in {Preprocessing, OcrRunning, Parsing, ReadyForReview} }

  /** Only this worker, its phase and its document have changed. */
  predicate SameElsewhere(s: State, t: State, w: nat) {
    && Holds(s, w) && t.jobs == s.jobs && |t.docs| == |s.docs|
    && w in t.live && t.live == s.live[w := t.live[w]] && t.live[w].job == s.live[w].job
    && (forall d :: 0 <= d < |s.docs| && d != DocOf(s, w) ==> t.docs[d] == s.docs[d])
  }

  predicate PipelineDone(s: State, t: State, w: nat, failAt: Option<DocStatus>, retryable: bool) {
    && SameElsewhere(s, t, w) && t.live[w].phase.Done?
    && PipelineEnd(s.docs[DocOf(s, w)], t.docs[DocOf(s, w)], t.live[w].phase, failAt, retryable)
  }

  predicate OnTheWay(s: State, t: State, w: nat, failAt: Option<DocStatus>, retryable: bool) {
    && SameElsewhere(s, t, w) && s.docs[DocOf(s, w)] != Deleted
    && if t.live[w].phase.Working? then
         t.docs[DocOf(s, w)] != Deleted && NotYetFailed(t.live[w].phase.next, failAt)
       else PipelineDone(s, t, w, failAt, retryable)
  }

  lemma RaiseShape(s: State, t: State, w: nat, failAt: Option<DocStatus>, retryable: bool)
    requires Inv(t) && OnTheWay(s, t, w, failAt, retryable) && t.live[w].phase.Working?
    requires Some(t.live[w].phase.next) == failAt
    ensures PipelineDone(s, Fail(t, w, retryable), w, failAt, retryable)
  {
    assert PhaseFits(t.live[w].phase, t.docs[DocOf(s, w)]);
  }

  lemma AdvanceShape(s: State, t: State, w: nat, failAt: Option<DocStatus>, retryable: bool)
    requires Inv(t) && OnTheWay(s, t, w, failAt, retryable) && t.live[w].phase.Working?
    requires failAt.Some? ==> IsStep(failAt.value) && failAt.value != t.live[w].phase.next
    ensures var u := Apply(t, Advance(w));
      OnTheWay(s, u, w, failAt, retryable) && Remaining(u.live[w].phase) < Remaining(t.live[w].phase)
  {
    assert PhaseFits(t.live[w].phase, t.docs[DocOf(s, w)]);
  }

  lemma StepShape(s: State, t: State, w: nat, failAt: Option<DocStatus>, retryable: bool)
    requires Inv(t) && OnTheWay(s, t, w, failAt, retryable) && t.live[w].phase.Working?
    requires failAt.Some? ==> IsStep(failAt.value)
    ensures var e := if Some(t.live[w].phase.next) == failAt then Raise(w, retryable) else Advance(w);
      var u := Apply(t, e);
      OnTheWay(s, u, w, failAt, retryable) && Remaining(u.live[w].phase) < Remaining(t.live[w].phase)
  {
    if Some(t.live[w].phase.next) == failAt {
      RaiseShape(s, t, w, failAt, retryable);
    } else {
      AdvanceShape(s, t, w, failAt, retryable);
    }
  }

  lemma ClaimedShape(s: State, w: nat, now: int)
    requires Inv(s) && w !in s.live && ClaimNext(s.jobs, s.docs, now).job.Some?
    ensures var r, t := ClaimNext(s.jobs, s.docs, now), Apply(s, Claim(w, now));
      && Holds(t, w) && t.live == s.live[w := Work(r.job.value, Held)] && |t.docs| == |s.docs|
      && t.jobs[r.job.value].status.Running?
      && (s.docs[DocOf(t, w)] == Deleted <==> t.docs[DocOf(t, w)] == Deleted)
  {
    ClaimTakesLeast(s.jobs, s.docs, now);
  }

  /** The claimed job and its document after a whole pass. */
  predicate Processed(s: State, t: State, j: nat, failAt: Option<DocStatus>, retryable: bool) {
    && j < |t.jobs| && t.jobs[j].doc < |t.docs| == |s.docs|
    && PassOutcome(t.jobs[j], s.docs[t.jobs[j].doc], t.docs[t.jobs[j].doc], failAt, retryable)
  }

  lemma FinishShape(s: State, held: State, t: State, w: nat, at: int, failAt: Option<DocStatus>, retryable: bool)
    requires w !in s.live && Holds(held, w) && held.live == s.live[w := Work(held.live[w].job, Held)]
    requires |held.docs| == |s.docs|
    requires s.docs[DocOf(held, w)] == Deleted <==> held.docs[DocOf(held, w)] == Deleted
    requires PipelineDone(held, t, w, failAt, retryable)
    ensures Processed(s, FinishJob(t, w, at), held.live[w].job, failAt, retryable)
    ensures FinishJob(t, w, at).live == s.live
  {}
}
