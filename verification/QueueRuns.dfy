/** The queue over whole runs. */
module QueueRuns {
  import opened Common
  import opened Queue
  import opened QueueLaws

  /** The state after a history; an event that cannot happen leaves the state alone. */
  function Run(events: seq<Event>): (s: State)
    ensures Inv(s)
  {
    if events == [] then INITIAL else
      var before := Run(events[..|events| - 1]);
      Next(before, events[|events| - 1])
  }

  function Next(s: State, e: Event): (t: State)
    requires Inv(s)
    ensures Inv(t)
  {
    if Enabled(s, e) then
      StepKeeps(s, e);
      Apply(s, e)
    else s
  }

  /** In every reachable state a queued document has exactly one waiting job, and no running one. */
  lemma QueuedDocumentHasOneJob(events: seq<Event>, d: nat)
    requires d < |Run(events).docs| && Run(events).docs[d] == Queued
    ensures var jobs := Run(events).jobs;
      exists j :: && 0 <= j < |jobs| && jobs[j].doc == d && jobs[j].status.Waiting?
                  && forall i :: 0 <= i < |jobs| && i != j && jobs[i].doc == d ==> !Active(jobs[i])
  {
    var s := Run(events);
    assert HasJob(s.jobs, d, Waiting);
    var j :| 0 <= j < |s.jobs| && s.jobs[j].doc == d && s.jobs[j].status == Waiting;
    forall i | 0 <= i < |s.jobs| && i != j && s.jobs[i].doc == d ensures !Active(s.jobs[i]) {
      assert Active(s.jobs[j]);
    }
  }

  /** In every reachable state two live workers hold different documents. */
  lemma NoDocumentHeldTwice(events: seq<Event>, w: nat, x: nat)
    requires w in Run(events).live && x in Run(events).live && w != x
    ensures DocOf(Run(events), w) != DocOf(Run(events), x)
  {
    var s := Run(events);
    assert Active(s.jobs[s.live[w].job]) && Active(s.jobs[s.live[x].job]);
  }

  /** A live worker's job is the only active one of its document, so its status updates have no rival. */
  lemma PipelineStopsOnlyForDeletion(events: seq<Event>, w: nat)
    requires w in Run(events).live && Run(events).live[w].phase.Working?
    ensures var s := Run(events);
      Allowed(s.docs[DocOf(s, w)], s.live[w].phase.next) <==> s.docs[DocOf(s, w)] != Deleted
  {}

  // ---- Claims are counted ----

  function Returned(s: State, e: Event): Option<nat> {
    if e.Claim? && Enabled(s, e) then ClaimNext(s.jobs, s.docs, e.now).job else None
  }

  /** How often a job was handed to a worker. */
  function Claims(events: seq<Event>, j: nat): nat {
    if events == [] then 0 else
      var front, last := events[..|events| - 1], events[|events| - 1];
      Claims(front, j) + if Returned(Run(front), last) == Some(j) then 1 else 0
  }

  /** How often a job was recovered as stale. */
  function Recoveries(events: seq<Event>, j: nat): nat {
    if events == [] then 0 else
      var front, last := events[..|events| - 1], events[|events| - 1];
      Recoveries(front, j) + if IsRecovered(Run(front), last, j) then 1 else 0
  }

  predicate IsRecovered(s: State, e: Event, j: nat) {
    e.Recover? && Enabled(s, e) && j < |s.jobs| && Stale(s.jobs[j], e.cutoff)
  }

  /** Claims so far, at most `limit`, and fewer while the job waits. */
  predicate Within(job: Job, limit: nat) {
    job.attempts + (if job.status.Waiting? then 1 else 0) <= limit
  }

  lemma StepCounts(s: State, e: Event, j: nat, recoveries: nat)
    requires Inv(s) && Enabled(s, e) && j < |s.jobs| && Within(s.jobs[j], s.jobs[j].maxAttempts + recoveries)
    ensures var t := Apply(s, e);
      && j < |t.jobs| && t.jobs[j].maxAttempts == s.jobs[j].maxAttempts
      && t.jobs[j].attempts == s.jobs[j].attempts + (if Returned(s, e) == Some(j) then 1 else 0)
      && Within(t.jobs[j], t.jobs[j].maxAttempts + recoveries + (if IsRecovered(s, e, j) then 1 else 0))
  {
    if e.Claim? {
      ClaimTakesLeast(s.jobs, s.docs, e.now);
      assert Returned(s, e) != Some(j) ==> OnlyRefusedGaveUp(s.jobs, Apply(s, e).jobs, s.docs, e.now, j);
    }
  }

  lemma NewJobsAreFresh(s: State, e: Event)
    requires Inv(s) && Enabled(s, e)
    ensures |Apply(s, e).jobs| >= |s.jobs|
    ensures forall j :: |s.jobs| <= j < |Apply(s, e).jobs| ==>
      Apply(s, e).jobs[j].attempts == 0 && Within(Apply(s, e).jobs[j], Apply(s, e).jobs[j].maxAttempts)
    ensures Returned(s, e).Some? ==> Returned(s, e).value < |s.jobs|
  {
    if e.Claim? {
      ClaimTakesLeast(s.jobs, s.docs, e.now);
    }
  }

  lemma {:induction false} NoClaimsBeforeCreation(events: seq<Event>, j: nat)
    requires j >= |Run(events).jobs|
    ensures Claims(events, j) == 0 && Recoveries(events, j) == 0
  {
    if events != [] {
      var front, last := events[..|events| - 1], events[|events| - 1];
      if Enabled(Run(front), last) {
        NewJobsAreFresh(Run(front), last);
      }
      NoClaimsBeforeCreation(front, j);
    }
  }

  /** A job is claimed at most max_attempts times plus once for every recovery, over every history. */
  lemma {:induction false} ClaimsAreBounded(events: seq<Event>, j: nat)
    requires j < |Run(events).jobs|
    ensures Run(events).jobs[j].attempts == Claims(events, j)
    ensures Within(Run(events).jobs[j], Run(events).jobs[j].maxAttempts + Recoveries(events, j))
    ensures Claims(events, j) <= Run(events).jobs[j].maxAttempts + Recoveries(events, j)
  {
    if events != [] {
      var front, last := events[..|events| - 1], events[|events| - 1];
      var s := Run(front);
      if Enabled(s, last) {
        NewJobsAreFresh(s, last);
      }
      if j < |s.jobs| {
        ClaimsAreBounded(front, j);
        if Enabled(s, last) {
          StepCounts(s, last, j, Recoveries(front, j));
        }
      } else {
        NoClaimsBeforeCreation(front, j);
      }
    }
  }

  lemma RunExtends(events: seq<Event>, e: Event)
    ensures Run(events + [e]) == Next(Run(events), e)
  {
    assert (events + [e])[..|events|] == events;
  }

  // ---- Deletion is final ----

  lemma WorkerKeepsDeleted(s: State, e: Event, w: nat, d: nat)
    requires Inv(s) && Enabled(s, e) && d < |s.docs| && s.docs[d] == Deleted
    requires e == Begin(w) || e.ScopeFails? || e == Advance(w) || e.Raise? || e.Finish?
    requires e.worker == w
    ensures d < |Apply(s, e).docs| && Apply(s, e).docs[d] == Deleted
  {}

  lemma ClaimKeepsDeleted(s: State, w: nat, now: int, d: nat)
    requires Inv(s) && w !in s.live && d < |s.docs| && s.docs[d] == Deleted
    ensures d < |Apply(s, Claim(w, now)).docs| && Apply(s, Claim(w, now)).docs[d] == Deleted
  {
    ClaimTakesLeast(s.jobs, s.docs, now);
  }

  lemma OutsideKeepsDeleted(s: State, e: Event, d: nat)
    requires Inv(s) && Enabled(s, e) && d < |s.docs| && s.docs[d] == Deleted
    requires e.Upload? || e.Crash? || e.Recover? || e.Reprocess? || e.Confirm? || e.Delete?
    ensures d < |Apply(s, e).docs| && Apply(s, e).docs[d] == Deleted
  {}

  lemma DeletedStays(s: State, e: Event, d: nat)
    requires Inv(s) && d < |s.docs| && s.docs[d] == Deleted
    ensures d < |Next(s, e).docs| && Next(s, e).docs[d] == Deleted
  {
    if Enabled(s, e) {
      match e
      case Claim(w, now) => ClaimKeepsDeleted(s, w, now, d);
      case Begin(w) => WorkerKeepsDeleted(s, e, w, d);
      case ScopeFails(w, _) => WorkerKeepsDeleted(s, e, w, d);
      case Advance(w) => WorkerKeepsDeleted(s, e, w, d);
      case Raise(w, _) => WorkerKeepsDeleted(s, e, w, d);
      case Finish(w, _) => WorkerKeepsDeleted(s, e, w, d);
      case _ => OutsideKeepsDeleted(s, e, d);
    }
  }

  predicate IsDeleted(s: State, d: nat) { d < |s.docs| && s.docs[d] == Deleted }

  lemma DeletedAfter(events: seq<Event>, e: Event, d: nat)
    requires IsDeleted(Run(events), d)
    ensures IsDeleted(Run(events + [e]), d)
  {
    RunExtends(events, e);
    DeletedStays(Run(events), e, d);
  }

  /** No event, bulk updates included, brings a deleted document back. */
  lemma {:induction false} DeletedForever(events: seq<Event>, more: seq<Event>, d: nat)
    requires IsDeleted(Run(events), d)
    ensures IsDeleted(Run(events + more), d)
  {
    if more == [] {
      assert events + more == events;
    } else {
      var front, last := more[..|more| - 1], more[|more| - 1];
      DeletedForever(events, front, d);
      assert events + more == (events + front) + [last];
      DeletedAfter(events + front, last, d);
    }
  }

  // ---- A document no worker and no queue will touch again ----

  predicate NoneRunning(jobs: seq<Job>, d: nat) {
    forall i :: 0 <= i < |jobs| && jobs[i].doc == d ==> jobs[i].status != Running
  }

  /** Marked as being validated while no running job exists for it. */
  predicate Stuck(s: State, d: nat) {
    d < |s.docs| && s.docs[d] == Validating && NoneRunning(s.jobs, d)
  }

  lemma ClaimLeavesStuck(s: State, w: nat, now: int, d: nat)
    requires Inv(s) && w !in s.live && Stuck(s, d)
    ensures Stuck(Apply(s, Claim(w, now)), d)
  {
    var r := ClaimNext(s.jobs, s.docs, now);
    ClaimTakesLeast(s.jobs, s.docs, now);
    forall i | 0 <= i < |r.jobs| && r.jobs[i].doc == d ensures r.jobs[i].status != Running {
      assert r.job != Some(i) ==> OnlyRefusedGaveUp(s.jobs, r.jobs, s.docs, now, i);
    }
  }

  lemma WorkerLeavesStuck(s: State, e: Event, w: nat, d: nat)
    requires Inv(s) && Enabled(s, e) && Stuck(s, d)
    requires e == Begin(w) || e.ScopeFails? || e == Advance(w) || e.Raise?
    requires e.worker == w
    ensures Stuck(Apply(s, e), d)
  {
    assert s.jobs[s.live[w].job].status == Running;
    assert DocOf(s, w) != d;
  }

  lemma FinishLeavesStuck(s: State, w: nat, at: int, d: nat)
    requires Inv(s) && Enabled(s, Finish(w, at)) && Stuck(s, d)
    ensures Stuck(FinishJob(s, w, at), d)
  {
    assert s.jobs[s.live[w].job].status == Running;
    assert DocOf(s, w) != d;
  }

  lemma RecoverLeavesStuck(s: State, cutoff: int, now: int, d: nat)
    requires Inv(s) && Enabled(s, Recover(cutoff, now)) && Stuck(s, d)
    ensures Stuck(Apply(s, Recover(cutoff, now)), d)
  {
    assert !HasStale(s.jobs, d, cutoff);
  }

  /** Once stuck, only deletion moves the document: its job is refused when claimed, recovery does not see it
      and reprocessing is refused. */
  lemma StuckUntilDeleted(s: State, e: Event, d: nat)
    requires Inv(s) && Stuck(s, d)
    ensures Stuck(Next(s, e), d) || (e == Delete(d) && Next(s, e).docs[d] == Deleted)
  {
    if Enabled(s, e) {
      match e
      case Claim(w, now) => ClaimLeavesStuck(s, w, now, d);
      case Begin(w) => WorkerLeavesStuck(s, e, w, d);
      case ScopeFails(w, _) => WorkerLeavesStuck(s, e, w, d);
      case Advance(w) => WorkerLeavesStuck(s, e, w, d);
      case Raise(w, _) => WorkerLeavesStuck(s, e, w, d);
      case Finish(w, at) => FinishLeavesStuck(s, w, at, d);
      case Recover(cutoff, now) => RecoverLeavesStuck(s, cutoff, now, d);
      case Upload(_, _) =>
      case Crash(_) =>
      case Reprocess(_, _, _) =>
      case Confirm(_) =>
      case Delete(_) =>
    }
  }

  /** The worker gave up before it entered the pipeline, and its document was not deleted meanwhile. */
  predicate GivesUpUnstarted(s: State, e: Event, d: nat) {
    && e.Finish? && e.worker in s.live && Holds(s, e.worker) && DocOf(s, e.worker) == d
    && s.live[e.worker].phase.Done? && s.live[e.worker].phase.failed && !s.live[e.worker].phase.started
    && d < |s.docs| && s.docs[d] == Validating
  }

  lemma FinishStrands(s: State, w: nat, at: int, d: nat)
    requires Inv(s) && w in s.live && s.live[w].phase.Done? && DocOf(s, w) == d
    ensures Stuck(FinishJob(s, w, at), d) <==> s.docs[d] == Validating
  {
    var j := s.live[w].job;
    var t := FinishJob(s, w, at);
    forall i | 0 <= i < |t.jobs| && t.jobs[i].doc == d ensures t.jobs[i].status != Running {
      assert i != j && t.jobs[i].status == Running ==> Active(s.jobs[i]) && Active(s.jobs[j]);
    }
  }

  lemma FinishElsewhere(s: State, w: nat, at: int, d: nat)
    requires Inv(s) && w in s.live && s.live[w].phase.Done? && DocOf(s, w) != d && d < |s.docs| && !Stuck(s, d)
    ensures !Stuck(FinishJob(s, w, at), d)
  {
    if s.docs[d] == Validating {
      var i :| 0 <= i < |s.jobs| && s.jobs[i].doc == d && s.jobs[i].status == Running;
      assert FinishJob(s, w, at).jobs[i] == s.jobs[i];
    }
  }

  lemma WorkerStrandsNothing(s: State, e: Event, w: nat, d: nat)
    requires Inv(s) && Enabled(s, e) && d < |s.docs| && !Stuck(s, d)
    requires e == Begin(w) || e.ScopeFails? || e == Advance(w) || e.Raise?
    requires e.worker == w
    ensures !Stuck(Apply(s, e), d)
  {
    assert s.jobs[s.live[w].job].status == Running;
    assert Apply(s, e).jobs == s.jobs;
  }

  lemma AppendStrandsNothing(s: State, job: Job, docs: seq<DocStatus>, d: nat)
    requires d < |s.docs| <= |docs| && !Stuck(s, d) && (docs[d] == s.docs[d] || docs[d] != Validating)
    ensures !Stuck(State(s.jobs + [job], docs, s.live), d)
  {
    if docs[d] == Validating {
      var i :| 0 <= i < |s.jobs| && s.jobs[i].doc == d && s.jobs[i].status == Running;
      assert (s.jobs + [job])[i] == s.jobs[i];
    }
  }

  lemma ClaimStrandsNothing(s: State, w: nat, now: int, d: nat)
    requires Inv(s) && w !in s.live && d < |s.docs| && !Stuck(s, d)
    ensures !Stuck(Apply(s, Claim(w, now)), d)
  {
    var r := ClaimNext(s.jobs, s.docs, now);
    ClaimTakesLeast(s.jobs, s.docs, now);
    if s.docs[d] == Validating {
      var i :| 0 <= i < |s.jobs| && s.jobs[i].doc == d && s.jobs[i].status == Running;
      assert r.job != Some(i) && OnlyRefusedGaveUp(s.jobs, r.jobs, s.docs, now, i);
      assert r.jobs[i] == s.jobs[i];
    } else if r.docs[d] == Validating {
      assert r.jobs[r.job.value].status == Running && r.jobs[r.job.value].doc == d;
    }
  }

  lemma RecoverStrandsNothing(s: State, cutoff: int, now: int, d: nat)
    requires Inv(s) && Enabled(s, Recover(cutoff, now)) && d < |s.docs| && !Stuck(s, d)
    ensures !Stuck(Apply(s, Recover(cutoff, now)), d)
  {
    var t := Apply(s, Recover(cutoff, now));
    if s.docs[d] == Validating {
      var i :| 0 <= i < |s.jobs| && s.jobs[i].doc == d && s.jobs[i].status == Running;
      if Stale(s.jobs[i], cutoff) {
        assert HasStale(s.jobs, d, cutoff);
      } else {
        assert t.jobs[i] == s.jobs[i];
      }
    }
  }

  /** A document gets stuck in exactly one way: its worker fails before the pipeline starts. A retryable
      failure is no exception: the job waits again, and its next claim is refused. */
  lemma BecomesStuckIff(s: State, e: Event, d: nat)
    requires Inv(s) && Enabled(s, e) && d < |s.docs| && !Stuck(s, d)
    ensures Stuck(Apply(s, e), d) <==> GivesUpUnstarted(s, e, d)
  {
    match e
    case Upload(m, now) => AppendStrandsNothing(s, NewJob(|s.docs|, m, now), s.docs + [Queued], d);
    case Claim(w, now) => ClaimStrandsNothing(s, w, now, d);
    case Begin(w) => WorkerStrandsNothing(s, e, w, d);
    case ScopeFails(w, _) => WorkerStrandsNothing(s, e, w, d);
    case Advance(w) => WorkerStrandsNothing(s, e, w, d);
    case Raise(w, _) => WorkerStrandsNothing(s, e, w, d);
    case Finish(w, at) => if DocOf(s, w) == d { FinishStrands(s, w, at, d); } else { FinishElsewhere(s, w, at, d); }
    case Recover(cutoff, now) => RecoverStrandsNothing(s, cutoff, now, d);
    case Reprocess(k, gone, now) =>
      if k < |s.docs| { AppendStrandsNothing(s, NewJob(k, 3, now), s.docs[k := Queued], d); }
    case Crash(_) =>
    case Confirm(_) =>
    case Delete(_) =>
  }

  lemma ClaimAlone(job: Job, status: DocStatus, now: int)
    requires job.doc == 0 && Available(job, now)
    ensures ClaimNext([job], [status], now)
         == if Refused([status], 0) then Claimed([GiveUp(job)], [status], None)
            else Claimed([Start(job, now)], Taken([status], 0), Some(0))
  {
    assert First([job], 1, now) == Some(0);
    assert [job][0 := GiveUp(job)] == [GiveUp(job)] && [job][0 := Start(job, now)] == [Start(job, now)];
    assert First([GiveUp(job)], 1, now) == None;
  }

  const FIRST_TRY := Start(NewJob(0, 3, 0), 0)
  const WAITING_AGAIN := MarkedFailed(FIRST_TRY, true, 5)

  lemma AfterUpload(s: State)
    requires s == INITIAL && Inv(s)
    ensures Next(s, Upload(3, 0)) == State([NewJob(0, 3, 0)], [Queued], map[])
  {}

  lemma AfterClaim(s: State)
    requires s == State([NewJob(0, 3, 0)], [Queued], map[]) && Inv(s)
    ensures Next(s, Claim(0, 0)) == State([FIRST_TRY], [Validating], map[0 := Work(0, Held)])
  {
    ClaimAlone(NewJob(0, 3, 0), Queued, 0);
    assert Taken([Queued], 0) == [Validating];
    assert Enabled(s, Claim(0, 0));
  }

  lemma AfterFailure(s: State)
    requires s == State([FIRST_TRY], [Validating], map[0 := Work(0, Held)]) && Inv(s)
    ensures Next(s, ScopeFails(0, true))
         == State([FIRST_TRY], [Validating], map[0 := Work(0, Done(true, true, false))])
  {
    assert Enabled(s, ScopeFails(0, true));
  }

  lemma AfterFinish(s: State)
    requires s == State([FIRST_TRY], [Validating], map[0 := Work(0, Done(true, true, false))]) && Inv(s)
    ensures Next(s, Finish(0, 5)) == State([WAITING_AGAIN], [Validating], map[])
  {
    assert Enabled(s, Finish(0, 5));
  }

  lemma AfterRetry(s: State)
    requires s == State([WAITING_AGAIN], [Validating], map[]) && Inv(s)
    ensures Next(s, Claim(0, 10)) == State([GiveUp(WAITING_AGAIN)], [Validating], map[])
  {
    ClaimAlone(WAITING_AGAIN, Validating, 10);
    assert Enabled(s, Claim(0, 10));
  }

  /** Such a run: the key scope fails once with a retryable error; the retry is refused and the document stays
      marked as being validated. */
  lemma RetryNeverRuns()
    ensures Run([] + [Upload(3, 0)] + [Claim(0, 0)] + [ScopeFails(0, true)] + [Finish(0, 5)] + [Claim(0, 10)])
         == State([GiveUp(WAITING_AGAIN)], [Validating], map[])
    ensures Stuck(State([GiveUp(WAITING_AGAIN)], [Validating], map[]), 0) && WAITING_AGAIN.status.Waiting?
  {
    var none: seq<Event> := [];
    var one := none + [Upload(3, 0)];
    var two := one + [Claim(0, 0)];
    var three := two + [ScopeFails(0, true)];
    var four := three + [Finish(0, 5)];
    RunExtends(none, Upload(3, 0));
    AfterUpload(Run(none));
    RunExtends(one, Claim(0, 0));
    AfterClaim(Run(one));
    RunExtends(two, ScopeFails(0, true));
    AfterFailure(Run(two));
    RunExtends(three, Finish(0, 5));
    AfterFinish(Run(three));
    RunExtends(four, Claim(0, 10));
    AfterRetry(Run(four));
  }
}
