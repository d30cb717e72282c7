/** The work queue and the document lifecycle as a state machine, one step per database transaction
    (apps/processing/models.py, state.py, pipeline.py, services.py; apps/observations/reprocessing.py). */
module Queue {
  import opened Common

  datatype DocStatus =
    | Pending | Validating | Queued | Preprocessing | OcrRunning | Parsing
    | ReadyForReview | Confirmed | Failed | Deleted

  /** ALLOWED_DOCUMENT_TRANSITIONS. */
  predicate Allowed(from: DocStatus, to: DocStatus) {
    match from
    case Pending => to in {Validating, Deleted}
    case Validating => to in {Queued, Preprocessing, Failed, Deleted}
    case Queued => to in {Validating, Failed, Deleted}
    case Preprocessing => to in {OcrRunning, Failed, Deleted}
    case OcrRunning => to in {Parsing, Failed, Deleted}
    case Parsing => to in {ReadyForReview, Failed, Deleted}
    case ReadyForReview => to in {Confirmed, Failed, Deleted, Queued}
    case Confirmed => to in {Deleted, Queued}
    case Failed => to in {Queued, Deleted}
    case Deleted => false
  }

  datatype JobStatus = Waiting | Running | Succeeded | GaveUp

  /** A job's place in the list is its creation order. */
  datatype Job = Job(doc: nat, status: JobStatus, attempts: nat, maxAttempts: nat, availableAt: int,
                     lockedAt: Option<int>)

  /** Where a live worker is with its job. `Done` holds the outcome that is still to be marked; `started` says
      whether the document pipeline itself was entered. */
  datatype Phase = Held | Working(next: DocStatus) | Done(failed: bool, retryable: bool, started: bool)

  datatype Work = Work(job: nat, phase: Phase)

  datatype State = State(jobs: seq<Job>, docs: seq<DocStatus>, live: map<nat, Work>)

  const INITIAL := State([], [], map[])

  predicate Active(j: Job) { j.status.Waiting? || j.status.Running? }

  // ---- Claiming ----

  predicate Available(j: Job, now: int) { j.status.Waiting? && j.availableAt <= now }

  predicate Earlier(jobs: seq<Job>, i: nat, j: nat)
    requires i < |jobs| && j < |jobs|
  {
    jobs[i].availableAt < jobs[j].availableAt || (jobs[i].availableAt == jobs[j].availableAt && i < j)
  }

  /** `queue.first()`: the least available job by (available_at, created_at) among the first `n`. */
  function First(jobs: seq<Job>, n: nat, now: int): (r: Option<nat>)
    requires n <= |jobs|
    ensures r.Some? ==> r.value < n && Available(jobs[r.value], now)
    ensures forall i :: 0 <= i < n && Available(jobs[i], now) ==> r.Some? && (i == r.value || Earlier(jobs, r.value, i))
  {
    if n == 0 then None else
      var best := First(jobs, n - 1, now);
      if Available(jobs[n - 1], now) && (best.None? || Earlier(jobs, n - 1, best.value)) then Some(n - 1) else best
  }

  function WaitingCount(jobs: seq<Job>): nat {
    if jobs == [] then 0 else WaitingCount(jobs[..|jobs| - 1]) + if jobs[|jobs| - 1].status.Waiting? then 1 else 0
  }

  lemma {:induction false} WaitingCountDrops(jobs: seq<Job>, j: nat, job: Job)
    requires j < |jobs| && jobs[j].status.Waiting? && !job.status.Waiting?
    ensures WaitingCount(jobs[j := job]) == WaitingCount(jobs) - 1
  {
    var n := |jobs| - 1;
    if j < n {
      assert jobs[j := job][..n] == jobs[..n][j := job];
      WaitingCountDrops(jobs[..n], j, job);
    } else {
      assert jobs[j := job][..n] == jobs[..n];
    }
  }

  datatype Claimed = Claimed(jobs: seq<Job>, docs: seq<DocStatus>, job: Option<nat>)

  function GiveUp(j: Job): Job { j.(status := GaveUp) }

  function Start(j: Job, now: int): Job {
    j.(status := Running, attempts := j.attempts + 1, lockedAt := Some(now))
  }

  /** A document that is deleted, or missing, does not stop its job; one that is under way does. */
  predicate Refused(docs: seq<DocStatus>, d: nat) {
    d < |docs| && docs[d] !in {Deleted, Queued, Failed}
  }

  function Taken(docs: seq<DocStatus>, d: nat): seq<DocStatus> {
    if d < |docs| && docs[d] in {Queued, Failed} then docs[d := Validating] else docs
  }

  /** `claim_next`, loop included. */
  function ClaimNext(jobs: seq<Job>, docs: seq<DocStatus>, now: int): Claimed
    decreases WaitingCount(jobs)
  {
    var first := First(jobs, |jobs|, now);
    if first.None? then Claimed(jobs, docs, None) else
      var j := first.value;
      if Refused(docs, jobs[j].doc) then
        WaitingCountDrops(jobs, j, GiveUp(jobs[j]));
        ClaimNext(jobs[j := GiveUp(jobs[j])], docs, now)
      else Claimed(jobs[j := Start(jobs[j], now)], Taken(docs, jobs[j].doc), Some(j))
  }

  /** What one call may do to a job other than the one it returns. */
  predicate OnlyRefusedGaveUp(before: seq<Job>, after: seq<Job>, docs: seq<DocStatus>, now: int, i: nat)
    requires i < |before| == |after|
  {
    after[i] == before[i]
    || (Available(before[i], now) && Refused(docs, before[i].doc) && after[i] == GiveUp(before[i]))
  }

  /** The claimed job is the least available one by (available_at, created_at) among those whose document is
      not already under way; the ones before it were failed; nothing else changed. When nothing is returned,
      every available job was failed. */
  lemma {:induction false} ClaimTakesLeast(jobs: seq<Job>, docs: seq<DocStatus>, now: int)
    ensures var r := ClaimNext(jobs, docs, now);
      && |r.jobs| == |jobs|
      && (forall i :: 0 <= i < |jobs| && r.job != Some(i) ==> OnlyRefusedGaveUp(jobs, r.jobs, docs, now, i))
      && (r.job.None? ==> r.docs == docs && forall i :: 0 <= i < |jobs| ==> !Available(r.jobs[i], now))
      && (r.job.Some? ==>
            && r.job.value < |jobs|
            && Available(jobs[r.job.value], now) && !Refused(docs, jobs[r.job.value].doc)
            && r.jobs[r.job.value] == Start(jobs[r.job.value], now)
            && r.docs == Taken(docs, jobs[r.job.value].doc)
            && forall i :: 0 <= i < |jobs| && Available(jobs[i], now) && Earlier(jobs, i, r.job.value) ==>
                 Refused(docs, jobs[i].doc) && r.jobs[i] == GiveUp(jobs[i]))
    decreases WaitingCount(jobs)
  {
    var first := First(jobs, |jobs|, now);
    if first.Some? && Refused(docs, jobs[first.value].doc) {
      var j := first.value;
      var rest := jobs[j := GiveUp(jobs[j])];
      WaitingCountDrops(jobs, j, GiveUp(jobs[j]));
      ClaimTakesLeast(rest, docs, now);
      var r := ClaimNext(rest, docs, now);
      assert r == ClaimNext(jobs, docs, now);
      assert r.job != Some(j);
      assert OnlyRefusedGaveUp(rest, r.jobs, docs, now, j);
      forall i | 0 <= i < |jobs| && r.job != Some(i) ensures OnlyRefusedGaveUp(jobs, r.jobs, docs, now, i) {
        assert OnlyRefusedGaveUp(rest, r.jobs, docs, now, i);
      }
      if r.job.Some? {
        forall i | 0 <= i < |jobs| && Available(jobs[i], now) && Earlier(jobs, i, r.job.value)
          ensures Refused(docs, jobs[i].doc) && r.jobs[i] == GiveUp(jobs[i])
        {
          assert i != j ==> rest[i] == jobs[i] && Earlier(rest, i, r.job.value);
        }
      }
    }
  }

  // ---- Events ----

  datatype Event =
    | Upload(maxAttempts: nat, now: int)
    | Claim(worker: nat, now: int)
    | Begin(worker: nat)
    | ScopeFails(worker: nat, retryable: bool)
    | Advance(worker: nat)
    | Raise(worker: nat, retryable: bool)
    | Finish(worker: nat, retryAt: int)
    | Crash(worker: nat)
    | Recover(cutoff: int, now: int)
    | Reprocess(doc: nat, originalGone: bool, now: int)
    | Confirm(doc: nat)
    | Delete(doc: nat)

  predicate Stale(j: Job, cutoff: int) {
    j.status.Running? && j.lockedAt.Some? && j.lockedAt.value < cutoff
  }

  /** Which events can happen. Workers stop when they fail: recovery runs with a cutoff that no live worker's
      claim is older than. */
  predicate Enabled(s: State, e: Event) {
    match e
    case Upload(maxAttempts, _) => maxAttempts >= 1
    case Claim(w, _) => w !in s.live
    case Begin(w) => w in s.live && s.live[w].phase.Held?
    case ScopeFails(w, _) => w in s.live && s.live[w].phase.Held?
    case Advance(w) => w in s.live && s.live[w].phase.Working?
    case Raise(w, _) => w in s.live && s.live[w].phase.Working?
    case Finish(w, _) => w in s.live && s.live[w].phase.Done?
    case Crash(w) => w in s.live
    case Recover(cutoff, _) =>
      forall w :: w in s.live ==> s.live[w].job < |s.jobs| && !Stale(s.jobs[s.live[w].job], cutoff)
    case Reprocess(_, _, _) => true
    case Confirm(_) => true
    case Delete(_) => true
  }

  function NewJob(d: nat, maxAttempts: nat, now: int): Job { Job(d, Waiting, 0, maxAttempts, now, None) }

  /** `transition_document`; a transition outside the table raises and changes nothing. */
  function Transition(docs: seq<DocStatus>, d: nat, to: DocStatus): seq<DocStatus> {
    if d < |docs| && Allowed(docs[d], to) then docs[d := to] else docs
  }

  function SetPhase(s: State, w: nat, p: Phase): State
    requires w in s.live
  {
    s.(live := s.live[w := s.live[w].(phase := p)])
  }

  predicate Holds(s: State, w: nat) {
    w in s.live && s.live[w].job < |s.jobs| && s.jobs[s.live[w].job].doc < |s.docs|
  }

  function DocOf(s: State, w: nat): nat
    requires Holds(s, w)
  {
    s.jobs[s.live[w].job].doc
  }

  /** The pipeline's exception handlers: a deleted document ends quietly, any other is marked failed. */
  function Fail(s: State, w: nat, retryable: bool): State
    requires Holds(s, w)
  {
    var d := DocOf(s, w);
    if s.docs[d] == Deleted then SetPhase(s, w, Done(false, false, true))
    else if s.docs[d] == Failed || Allowed(s.docs[d], Failed) then
      SetPhase(s.(docs := Transition(s.docs, d, Failed)), w, Done(true, retryable, true))
    else SetPhase(s, w, Done(true, true, true))
  }

  function After(p: DocStatus): Phase {
    match p
    case Preprocessing => Working(OcrRunning)
    case OcrRunning => Working(Parsing)
    case Parsing => Working(ReadyForReview)
    case _ => Done(false, false, true)
  }

  function StepPipeline(s: State, w: nat, to: DocStatus, then_: Phase): State
    requires Holds(s, w)
  {
    if Allowed(s.docs[DocOf(s, w)], to) then SetPhase(s.(docs := s.docs[DocOf(s, w) := to]), w, then_)
    else Fail(s, w, true)
  }

  function BeginJob(s: State, w: nat): State
    requires Holds(s, w)
  {
    var status := s.docs[DocOf(s, w)];
    if status == Deleted then SetPhase(s, w, Done(false, false, false))
    else if status == Validating then SetPhase(s, w, Working(Preprocessing))
    else StepPipeline(s, w, Validating, Working(Preprocessing))
  }

  function MarkedSucceeded(j: Job): Job { j.(status := Succeeded, lockedAt := None) }

  function MarkedFailed(j: Job, retryable: bool, retryAt: int): Job {
    if retryable && j.attempts < j.maxAttempts then j.(status := Waiting, availableAt := retryAt, lockedAt := None)
    else j.(status := GaveUp, lockedAt := None)
  }

  /** `mark_succeeded` and `mark_failed`, the latter with its direct update of a failed document. */
  function FinishJob(s: State, w: nat, retryAt: int): State
    requires Holds(s, w) && s.live[w].phase.Done?
  {
    var j, d, p := s.live[w].job, DocOf(s, w), s.live[w].phase;
    var job := if p.failed then MarkedFailed(s.jobs[j], p.retryable, retryAt) else MarkedSucceeded(s.jobs[j]);
    State(s.jobs[j := job],
          if job.status.Waiting? && s.docs[d] == Failed then s.docs[d := Queued] else s.docs,
          s.live - {w})
  }

  predicate InFlight(d: DocStatus) { d in {Validating, Preprocessing, OcrRunning, Parsing} }

  predicate HasStale(jobs: seq<Job>, d: nat, cutoff: int) {
    exists j :: 0 <= j < |jobs| && Stale(jobs[j], cutoff) && jobs[j].doc == d
  }

  function Recovered(j: Job, cutoff: int, now: int): Job {
    if Stale(j, cutoff) then j.(status := Waiting, availableAt := now, lockedAt := None) else j
  }

  /** `recover_stale`: two bulk updates that do not consult the transition table. */
  function RecoveredJobs(jobs: seq<Job>, cutoff: int, now: int): seq<Job> {
    seq(|jobs|, j requires 0 <= j < |jobs| => Recovered(jobs[j], cutoff, now))
  }

  function RecoveredDocs(jobs: seq<Job>, docs: seq<DocStatus>, cutoff: int): seq<DocStatus> {
    seq(|docs|, d requires 0 <= d < |docs| =>
      if InFlight(docs[d]) && HasStale(jobs, d, cutoff) then Queued else docs[d])
  }

  predicate HasJob(jobs: seq<Job>, d: nat, status: JobStatus) {
    exists j :: 0 <= j < |jobs| && jobs[j].doc == d && jobs[j].status == status
  }

  /** `request_reprocess`: one transaction, so a refused insert of a second active job undoes the status too. */
  function ReprocessDoc(s: State, d: nat, originalGone: bool, now: int): State {
    if d >= |s.docs| || s.docs[d] !in {ReadyForReview, Failed, Confirmed} || originalGone then s
    else if HasJob(s.jobs, d, Waiting) then s.(docs := s.docs[d := Queued])
    else if HasJob(s.jobs, d, Running) then s
    else s.(docs := s.docs[d := Queued], jobs := s.jobs + [NewJob(d, 3, now)])
  }

  function Apply(s: State, e: Event): State
    requires Enabled(s, e) && forall w :: w in s.live ==> Holds(s, w)
  {
    match e
    case Upload(maxAttempts, now) =>
      State(s.jobs + [NewJob(|s.docs|, maxAttempts, now)], s.docs + [Queued], s.live)
    case Claim(w, now) =>
      var r := ClaimNext(s.jobs, s.docs, now);
      State(r.jobs, r.docs, if r.job.Some? then s.live[w := Work(r.job.value, Held)] else s.live)
    case Begin(w) => BeginJob(s, w)
    case ScopeFails(w, retryable) => SetPhase(s, w, Done(true, retryable, false))
    case Advance(w) => StepPipeline(s, w, s.live[w].phase.next, After(s.live[w].phase.next))
    case Raise(w, retryable) => Fail(s, w, retryable)
    case Finish(w, retryAt) => FinishJob(s, w, retryAt)
    case Crash(w) => s.(live := s.live - {w})
    case Recover(cutoff, now) =>
      State(RecoveredJobs(s.jobs, cutoff, now), RecoveredDocs(s.jobs, s.docs, cutoff), s.live)
    case Reprocess(d, originalGone, now) => ReprocessDoc(s, d, originalGone, now)
    case Confirm(d) => s.(docs := Transition(s.docs, d, Confirmed))
    case Delete(d) => s.(docs := Transition(s.docs, d, Deleted))
  }
}
