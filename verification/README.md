# Verified model of a personal-finance system

The repository imports transactions from screenshots of Korean and English banking apps, lets a person review and
reconcile them, posts them to a double-entry ledger, and keeps every value encrypted under a rotating key. This
project models the parts where a mistake loses or double-counts money, and proves what they do for every input, every
interleaving of their database transactions and every history.

| files | what they model |
|---|---|
| `Queue`, `QueueLaws`, `QueueRuns`, `QueueEffects`, `JobQueueStore` | the work queue and the document lifecycle, workers failing and being recovered |
| `Rotation`, `RotationLaws`, `RotationRuns`, `RotationWrites`, `RotationReports`, `RotationVault` | key rotation in batches, interrupted and resumed, and its verifier |
| `Review`, `ReviewStructure`, `ReviewLaws`, `ReviewRuns`, `ReviewCounts`, `ReviewFindings`, `ReviewHistories`, `ReviewEffects`, `ReviewMatchEffects`, `ReviewTables` | import, review, merging, transfers, refunds, undoing |
| `Ledger`, `LedgerLaws`, `LedgerEffects`, `LedgerBooks`, `OpeningBalances`, `OpeningEffects` | postings, reversals, derived balances, opening balances |
| `Separators`, `Amounts`, `MoneyText`, `MoneyMarkers` | reading amounts from text, printing them, the round trip |
| `Calendar`, `Dates`, `DateAnswers` | filling in the year of a partial date |
| `Rows`, `RowLines`, `Matching`, `MatchingChoices`, `ParserInput`, `Duplicates`, `DuplicateLaws`, `DuplicateSignals`, `BalanceChain` | row grouping, two-engine token matching, capped duplicate candidates, balance checks |
| `Common` | options, sequences, shared values, stable sorting, text order |

`dafny verify dfyconfig.toml` checks everything. Code that updates state in place is modelled twice: by a function on
values, about which the theorems are proved, and by a class or a method with the source's loops, proved equal to that
function. For the events of the queue, the review, the ledger and the opening balances the `Effects` modules say,
without naming that function, when each goes through, what it changes, and that it changes nothing else.

## How the model reads the code

- One `atomic` block is one step. A violated unique or check constraint undoes the step.
- The queue theorems assume that a worker whose job is recovered has stopped: `Queue.Enabled` lets `Recover` happen
  only with a cutoff that no live worker's claim is older than. A live worker that is merely slow breaks them.
- Encryption is abstract. An envelope opens under its own key and for its own model, row and field; a broken envelope
  opens under none. Index tokens are kept as the normalised text they are computed from.
- Text is read after Unicode normalisation, with ASCII digits. `MoneyText.ParseMoney` starts from the cleaned text.
- Similarity of two texts, merchant normalisation and the regular expressions that recognise date words are
  parameters. Scoring is symmetric for a symmetric similarity.
- An unlink reads the two rows of its pair in the order of document, place on the screen and creation
  (`apps/observations/models.py:196`). Document identifiers are random, so either row may come first: the event says
  which one does, and every theorem holds for both.
- When two secondary OCR tokens are equally good for a primary one, the lower index wins; the code leaves that to the
  iteration order of a set of small integers.

## Where the code and its comments differ

- `apps/core/rotation.py:13-20` says a wrong checkpoint can never leave a row behind. It can: a field that failed in a
  committed batch lies before the resume point, so a run resumed after a kill finishes without failures and without
  it (`RotationVault.RowLeftBehind`). A clean finish means everything moved if and only if the rows before the resume
  point had moved (`RotationRuns.CleanFinishIff`). After one completed run every later run starts from the beginning
  again and reports the row.
- A retryable failure before the document pipeline starts is requeued but never retried. The next claim refuses the
  job because the document is still marked as being validated, and only deletion moves the document again
  (`QueueRuns.BecomesStuckIff`, `QueueRuns.StuckUntilDeleted`, `QueueRuns.RetryNeverRuns`).
- `apps/observations/review.py:560-563` refuses a merged winner so that no chain of merges arises. Chains arise the
  other way round, by merging a winner away (`ReviewFindings.MergeChainsIff`, `ReviewHistories.MergedIntoMerged`).
- Importing a document again deletes an open row even if other rows were merged into it; those rows then stay out of
  every report and every queue (`ReviewFindings.ImportOrphansIff`, `ReviewFindings.OrphanStays`,
  `ReviewHistories.MergedIntoNothing`).
- `save_once` finds a voided transaction too. A row accepted again after its transaction was deleted is linked to the
  voided one, which no report counts; so are the rows of a transfer or a refund that is confirmed again
  (`ReviewFindings.AcceptLinksVoidedIff`, `ReviewFindings.TransferLinksVoidedIff`,
  `ReviewFindings.RefundLinksVoidedIff`, `ReviewHistories.AcceptedAgainCountsNowhere`).
- A refund's match is deleted with its purchase row when that row is still open and its document is imported again.
  The refund keeps counting, with no confirmed match to show for it. The count by confirmed matches is right if and
  only if no such import happened (`ReviewCounts.CountByMatchesIff`, `ReviewHistories.RefundLosesItsMatch`).
- Unlinking a refund voids the transaction of the first credit row of the pair. After a correction that can be the
  other row, and then the refund stays in force without a match; linking the pair again makes both rows hold it
  (`ReviewFindings.UnlinkLeavesRefundIff`, `ReviewHistories.ReadOrderDecides`,
  `ReviewHistories.UnlinkedRefundDoubles`). This happens to a crossed pair only: the refund is in force at one row, and
  the other has become a credit row with a transaction of its own. The theorems about who holds which transaction are
  about histories that unlink no crossed pair; what is said about merges holds for every history.
- Unlinking also voids a transaction of another event when the match's own was deleted before
  (`ReviewFindings.UnlinkVoidsOtherIff`, `ReviewHistories.UnlinkVoidsASingle`).
- `apps/reconciliation/duplicates.py:245` says a pair reached through a deterministic key is always returned. That
  holds if and only if no key is held by more than cap + 1 observations
  (`DuplicateLaws.KeyedPairsReturnedIff`, `DuplicateLaws.ThreeShareOneCode`).
- The balance chain compares a row with the last printed balance, not with the row before it, so a correct screenshot
  with hidden balances passes if and only if the hidden amounts cancel (`BalanceChain.HiddenRowsDecideValidity`).
- Amounts of 10^28 minor units or more print but do not parse, because the decimal context holds 28 digits. Below
  that the round trip holds for both signs. A currency with three decimals, which
  `apps/core/currencies.py:47-48` allows for, would print amounts below 1,000 units as ambiguous text
  (`Amounts.PrintedIsReadBack`).
- `apps/parsing/dates.py:177-178` names any other year than the upload's the previous year. For 1 January read on
  31 December it is the next one, and for nothing else (`DateAnswers.PreviousYearIsPreviousIff`).
- A posting whose entries cancel on every account counts as already reversed (`LedgerLaws.WashCannotBeReversed`).

## Model

| member | source | states |
|---|---|---|
| Queue.First | apps/processing/models.py:209-214 | the query's first row is available and no available row precedes it |
| Queue.ClaimTakesLeast | apps/processing/models.py:201-279 | the claimed job is the least available one by (available_at, created_at) whose document is not under way; each earlier one was failed; nothing else changed; when nothing is claimed nothing available is left |
| QueueLaws.StepKeeps | apps/processing/models.py:186-381 | upload, claim, every pipeline step, marking, crash, recovery, reprocess, confirm and delete keep: one active job per document, a waiting job for each queued document, a running job for each busy one, and workers in step with their documents |
| QueueLaws.ClaimKeeps | apps/processing/models.py:201-279 | the claim loop keeps the invariant at each of its iterations |
| QueueLaws.RecoverKeeps | apps/processing/models.py:347-381 | the two bulk updates of recovery keep the invariant although they bypass the transition table |
| QueueLaws.ReprocessKeeps | apps/observations/reprocessing.py:71-107 | a reprocess request creates, reuses or is refused a job so that a queued document never lacks or doubles one |
| QueueLaws.FinishKeeps | apps/processing/models.py:281-345 | marking a job, with the direct update of a failed document, keeps the invariant |
| QueueLaws.AdvanceKeeps | apps/processing/pipeline.py:42-71 | a pipeline transition, or the handler of a refused one, keeps the invariant |
| QueueRuns.QueuedDocumentHasOneJob | apps/processing/models.py:186-195 | after every history a queued document has exactly one waiting job and no running one |
| QueueRuns.NoDocumentHeldTwice | apps/processing/models.py:201-279 | after every history two live workers hold different documents |
| QueueRuns.PipelineStopsOnlyForDeletion | apps/processing/state.py:13-67 | after every history a pipeline transition is refused if and only if the document was deleted |
| QueueRuns.ClaimsAreBounded | apps/processing/models.py:258-279 | a job's attempt count is the number of times it was claimed, at most max_attempts plus its recoveries, and less while it waits |
| QueueRuns.DeletedForever | apps/processing/state.py:66 | no event, bulk updates included, moves a deleted document |
| QueueRuns.StuckUntilDeleted | apps/observations/reprocessing.py:80-90 | a document being validated without a running job is moved by deletion only |
| QueueRuns.BecomesStuckIff | apps/processing/models.py:288-345 | a document becomes stuck exactly when its worker gives up before the pipeline starts |
| QueueRuns.RetryNeverRuns | apps/processing/models.py:223-243 | a run in which a retryable failure is requeued and its retry refused |
| QueueEffects.ReprocessEffect | apps/observations/reprocessing.py:71-107 | a request is granted if and only if the document was read or failed or confirmed, its original is there and no job of it runs; then it is queued with exactly one waiting job, appended exactly when none waited; a refused request changes nothing |
| QueueEffects.FailedDocumentIsReadAgain | apps/observations/reprocessing.py:95-107 | a failed document whose job gave up gets a new job |
| QueueEffects.UploadEffect | apps/processing/upload_services.py:57-81 | a queued document and one untried job appear, nothing else changes |
| QueueEffects.ClaimEffect | apps/processing/models.py:201-279 | a claim takes a job if and only if one is ready whose document nobody has (or was deleted), and takes the one ready first |
| QueueEffects.ScopeFailsEffect | apps/processing/services.py:63-101 | a failure before the pipeline leaves the document where it is |
| QueueEffects.BeginEffect | apps/processing/pipeline.py:42-57 | the pipeline starts on the claimed document, and ends at once on a deleted one |
| QueueEffects.AdvanceEffect | apps/processing/pipeline.py:57-75 | a step reaches its status unless the document was deleted; then the work ends quietly |
| QueueEffects.RaiseEffect | apps/processing/pipeline.py:72-110 | an exception marks the document failed unless it was deleted |
| QueueEffects.FinishEffect | apps/processing/models.py:281-345 | success closes the job; a failure puts it and its failed document back, for the given time, exactly when it may be retried and attempts are left, and otherwise the job has given up |
| QueueEffects.ConfirmEffect | apps/processing/state.py:13-67 | confirming moves a document ready for review and no other |
| QueueEffects.DeleteEffect | apps/processing/retention.py:32-45 | deleting always succeeds and moves only that document |
| QueueEffects.RecoverEffect | apps/processing/models.py:347-381 | exactly the jobs claimed before the cutoff wait again, available now and with their attempts, and exactly the documents under way of such jobs are queued |
| QueueEffects.CrashedWorkIsRecovered | apps/processing/models.py:347-381 | after a crash, recovery past the claim's date puts the job back, and its document if it was under way |
| QueueEffects.RunsAreDated | apps/processing/models.py:258-279 | after every history each running job has the date of its claim, so none escapes recovery |
| JobQueueStore.JobQueue.CreateUploadedDocument | apps/processing/upload_services.py:57-81 | a queued document and its job appear together |
| JobQueueStore.JobQueue.Earliest | apps/processing/models.py:209-214 | the query returns the least available job |
| JobQueueStore.JobQueue.ClaimNextJob | apps/processing/models.py:201-279 | the loop over the tables equals the claim event |
| JobQueueStore.JobQueue.TransitionDocument | apps/processing/state.py:70-126 | a transition happens exactly when the table allows it |
| JobQueueStore.JobQueue.MarkSucceeded | apps/processing/models.py:281-286 | equals the finish event of a success |
| JobQueueStore.JobQueue.MarkFailed | apps/processing/models.py:288-345 | equals the finish event of a failure, and says whether the job was requeued |
| JobQueueStore.JobQueue.RecoverStale | apps/processing/models.py:347-381 | for every cutoff the bulk updates requeue exactly the stale jobs and their in-flight documents and count them; with a cutoff no live claim is older than they equal the recovery event |
| JobQueueStore.JobQueue.RequeueJobs | apps/processing/models.py:353-368 | the loop requeues exactly the stale jobs and counts them |
| JobQueueStore.JobQueue.RequeueDocuments | apps/processing/models.py:369-380 | in-flight documents of stale jobs, and no others, go back to queued |
| JobQueueStore.JobQueue.RequestReprocess | apps/observations/reprocessing.py:71-107 | accepted if and only if the document may be read again; then it is queued with one waiting job, appended if none waited, and nothing else changes; refused means unchanged |
| JobQueueStore.JobQueue.DeleteDocument | apps/processing/retention.py:32-45 | equals the delete event |
| JobQueueStore.JobQueue.PipelineStep | apps/processing/pipeline.py:58-113 | one transition, or one exception handler, equals the advance or raise event |
| JobQueueStore.JobQueue.RunPipeline | apps/processing/pipeline.py:42-113 | undisturbed, the pipeline ends ready for review, failed at the step that raised, or quietly on a deleted document |
| JobQueueStore.JobQueue.ProcessOneJob | apps/processing/services.py:63-101 | one pass claims, runs and marks: the job succeeds with its document ready, waits again with it queued, or fails with it failed |
| RotationLaws.WalkIsOnePass | apps/core/rotation.py:296-390 | batch sizes, kills and exceptions decide only how far a run gets: rows reached are rotated once, the report is theirs, the rest is untouched |
| RotationLaws.RowIdempotent | apps/core/rotation.py:324-367 | a second pass over a row changes nothing and raises only where the first would |
| RotationLaws.IndexesAgree | apps/core/rotation.py:225-249 | a rebuilt merchant index agrees with the merchant the saved row holds |
| RotationRuns.ResumedEqualsOnePass | apps/core/rotation.py:252-293 | any interrupted and resumed runs amount to one pass: finished rows rotated once, others untouched |
| RotationRuns.PlaintextsNeverChange | apps/core/rotation.py:322-365 | no history of runs changes what any column means |
| RotationRuns.SettledBehindCursor | apps/core/rotation.py:322-380 | every field of every row at or before the cursor is empty, at the target version, or named in a run's failures |
| RotationRuns.AllMovedIffNothingReported | apps/core/rotation.py:252-293 | once interrupted and resumed runs completed, every value has moved if and only if none of the runs reported a failure |
| RotationRuns.CounterCountsRows | apps/core/rotation.py:272-293 | until the first completion rows_rotated is the number of rows at or before the cursor |
| RotationRuns.CleanFinishIff | apps/core/rotation.py:318-321 | a completed run without failures moved everything if and only if the rows before its resume point had moved |
| RotationRuns.UninterruptedMovesAll | apps/core/rotation.py:296-390 | a failure-free run from the beginning moves every value |
| RotationRuns.DryRunForetells | apps/core/rotation.py:318-382 | a dry run reports exactly what a fresh, unkilled real run reports, and raises exactly when it would |
| RotationRuns.FailureFreeRunVerifies | apps/core/rotation.py:443-480 | after a failure-free run from the beginning the verifier finds nothing |
| RotationRuns.CleanMeansOneKey | apps/core/rotation.py:443-480 | a clean verification holds if and only if every value opens under the tested key alone |
| RotationRuns.ReaderSeesNoDifference | apps/core/encrypted_fields.py:168-218 | a reader with the new key sees the same text before and after a field moves |
| RotationReports.RowReportCounts | apps/core/rotation.py:324-367 | a row's report counts its changed fields; without one the row is saved as it was |
| RotationReports.RunCountsItsWork | apps/core/rotation.py:296-390 | a run's report counts exactly the rows and fields that differ in the table afterwards, and the rows it passed, wherever it began and however it ended |
| RotationWrites.RunKeepsMeaning | apps/core/rotation.py:322-365 | from any table and any checkpoint a run changes no column's meaning |
| RotationWrites.SettledDespiteWrites | apps/core/rotation.py:19-22 | the same while rows are written, added and removed under the new key between interrupted and resumed runs |
| RotationWrites.NoFailuresMeansAllMoved | apps/core/rotation.py:252-293 | when no run met a failure and one completed, every value has moved, writes in between included |
| RotationVault.RowLeftBehind | apps/core/rotation.py:318-321 | two runs, the second clean and complete, that leave a row behind |
| RotationVault.CleanRotationVerifies | apps/core/rotation.py:393-420 | a whole rotation that starts afresh and reports nothing leaves every model verifying clean |
| RotationVault.ReadForRotation | apps/core/rotation.py:329-350 | a text is found exactly when a key the rotation may try opens the value, and is what the value means; its version decides between keeping and moving, raising and failing |
| RotationVault.RotateFields | apps/core/rotation.py:326-351 | the loop over a record's fields: new fields, plaintexts, counters, failures, and when it raises |
| RotationVault.WriteIndexes | apps/core/rotation.py:236-249 | the loop over the index columns, and when it raises |
| RotationVault.RebuildIndexes | apps/core/rotation.py:225-249 | every column with a non-empty source is rebuilt, and an empty normalised merchant raises |
| RotationVault.RotateRecord | apps/core/rotation.py:324-367 | one record in memory equals the rotated row and its report |
| RotationVault.RotateBatch | apps/core/rotation.py:322-367 | one batch in memory; it raises exactly when one of its rows does |
| Rotation.Position | apps/core/rotation.py:214-222 | the keyset cursor separates rows at or before it from rows after it |
| RotationVault.Vault.CommitNextBatch | apps/core/rotation.py:322-379 | rows and checkpoint of one batch are written together |
| RotationVault.Vault.RotateModelInPlace | apps/core/rotation.py:296-390 | the batch loop in place equals the modelled run |
| RotationVault.Vault.RotateNextModel | apps/core/rotation.py:405-419 | one iteration of the loop over the models; an unfinished model ends the rotation |
| RotationVault.Vault.RotateUserInPlace | apps/core/rotation.py:393-420 | the loop over the models in place equals the modelled rotation |
| RotationVault.Vault.VerifyModel | apps/core/rotation.py:443-480 | a field is listed as stale exactly when it has another version, as unreadable exactly when it has the expected version and does not open, and under no other name; rows and values are counted |
| RotationVault.VerifyRecord | apps/core/rotation.py:463-479 | exactly the stale fields are listed as stale, exactly the unreadable ones as unreadable, and the non-empty ones are counted |
| RotationVault.UnreachedRowIsStale | apps/core/rotation.py:451-455 | a row that rotation has not reached is stale and not unreadable |
| ReviewStructure.StructStep | apps/observations/models.py:205-228 | every event, every unlink included, keeps: merged rows hold no transaction, holders are accepted or corrected, winners and matched rows exist, merges are acyclic |
| ReviewLaws.StepKeeps | apps/observations/review.py:187-602 | every event except the unlink of a crossed pair keeps, besides the structure: keys are unique and a transaction in force is held by exactly the rows of its event, its match confirmed |
| Review.FindOrigin | apps/transactions/idempotency.py:60-66 | the look-up by key finds a transaction exactly when the key is taken |
| ReviewLaws.AcceptKeeps | apps/observations/review.py:392-521 | accepting keeps the invariant, the key of an earlier transaction included |
| ReviewLaws.TransferKeeps | apps/reconciliation/transfers.py:123-272 | confirming a transfer keeps the invariant |
| ReviewLaws.RefundKeeps | apps/reconciliation/refunds.py:147-336 | confirming a refund, competing candidates dismissed, keeps the invariant |
| ReviewLaws.UnlinkKeeps | apps/reconciliation/services.py:567-647 | undoing a confirmed match keeps the invariant unless it picks the other row |
| ReviewLaws.UnlinkBreaksIff | apps/reconciliation/services.py:599-620 | for either reading order an unlink keeps the invariant if and only if it does not take the transaction of the other row: a credit row that is read first, or the only credit row left |
| ReviewLaws.CrossedIff | apps/observations/models.py:196 | a crossed pair is one that some reading order of its rows gets wrong |
| ReviewLaws.DeleteKeeps | apps/transactions/deletion.py:51-135 | deleting a transaction keeps the invariant |
| ReviewLaws.KeptKeeps | apps/observations/services.py:265-276 | deleting earlier open rows, with what the database does to references, keeps the invariant |
| ReviewStructure.MergeStaysAcyclic | apps/observations/review.py:559-588 | pointing a row at one that points nowhere closes no cycle |
| ReviewLaws.UndoHitsTheEvent | apps/reconciliation/services.py:587-620 | when the transaction a match made is in force, an unlink that goes through undoes it if and only if it does not pick the other row |
| ReviewRuns.NoEventCountedTwice | apps/observations/models.py:205-228 | after every history that unlinks no crossed pair the rows that hold a transaction in force number singles plus twice transfers plus refunds, and are accepted or corrected and unmerged |
| ReviewRuns.HeldByItsOwnRows | apps/transactions/idempotency.py:35-69 | after every such history a transaction in force is held by the rows of its own event and no other |
| ReviewRuns.MergesEndAtARoot | apps/observations/review.py:559-588 | after every history whatsoever following merge targets ends at an existing row that names no winner |
| ReviewRuns.MergedRowsHoldNothing | apps/observations/models.py:205-228 | after every history whatsoever a row that names a winner is merged and holds no transaction |
| ReviewCounts.CountByMatches | apps/reconciliation/refunds.py:198-336 | without deletions the count is singles, twice confirmed transfers, confirmed refunds, and refunds whose match was deleted |
| ReviewCounts.CountByMatchesIff | apps/reconciliation/models.py:56-65 | without deletions the count by confirmed matches is right if and only if no import of the history deleted an open row of a confirmed refund |
| ReviewCounts.StepLosesIff | apps/observations/services.py:265-276 | a step loses a refund if and only if it is an import that goes through and touches an open row of a confirmed refund match; a lost refund stays lost |
| ReviewFindings.AcceptLinksVoidedIff | apps/transactions/idempotency.py:43-69 | accepting links a voided transaction exactly when the row's key was used before |
| ReviewFindings.TransferLinksVoidedIff | apps/reconciliation/transfers.py:123-272 | confirming a transfer links both rows to one transaction, voided exactly when the match's key was used before |
| ReviewFindings.RefundLinksVoidedIff | apps/reconciliation/refunds.py:198-336 | the same for the credit row of a refund |
| ReviewFindings.MergeChainsIff | apps/observations/review.py:559-588 | a merge builds a chain exactly when it folds away a row others were merged into |
| ReviewFindings.ImportOrphansIff | apps/observations/services.py:265-340 | an import orphans a merged row exactly when it goes through (not done before for its run, no import key taken) and the row's winner is open and from an earlier pass over the document |
| ReviewFindings.OrphanStays | apps/observations/review.py:200-202 | only its own rejection moves an orphan |
| ReviewFindings.UnlinkLeavesRefundIff | apps/reconciliation/services.py:599-620 | an unlink leaves the refund of its match in force if and only if it picks the other row |
| ReviewFindings.UnlinkVoidsOtherIff | apps/reconciliation/services.py:587-617 | the one transaction an unlink voids is another event's if and only if the match's own is not in force, or the other row is picked |
| ReviewHistories.AcceptedAgainCountsNowhere | apps/transactions/idempotency.py:60-66 | a row accepted, its transaction deleted, and accepted again: nothing counts |
| ReviewHistories.MergedIntoMerged | apps/observations/review.py:559-588 | two merges that build a chain |
| ReviewHistories.MergedIntoNothing | apps/observations/services.py:265-276 | a merge and a re-import that leave a merged row without a winner |
| ReviewHistories.RefundLosesItsMatch | apps/observations/services.py:265-276 | a history without deletions after which a refund counts without a match |
| ReviewHistories.ReadOrderDecides | apps/reconciliation/services.py:599-606 | a history after which the reading order decides whether an unlink voids the refund or the purchase |
| ReviewHistories.UnlinkedRefundDoubles | apps/reconciliation/services.py:567-647 | a history in which, in either reading order, unlinking and linking again makes two rows hold one refund |
| ReviewHistories.UnlinkVoidsASingle | apps/reconciliation/services.py:587-617 | a history in which unlinking a transfer voids the transaction of a row accepted on its own |
| ReviewEffects.RejectEffect | apps/observations/review.py:524-546 | a row is rejected if and only if it holds no transaction and names no winner; only its status changes |
| ReviewEffects.RejectedStays | apps/observations/review.py:187-602 | no event but a merge that folds it away changes a rejected row |
| ReviewEffects.RejectedForGood | apps/observations/review.py:187-602 | over any continuation without a merge a rejected row stays rejected, holds no transaction and is not counted |
| ReviewEffects.AcceptEffect | apps/observations/review.py:392-521 | an acceptance goes through if and only if the row is open, complete and free and an account is known; then the row alone is linked to the transaction that has its key, or to a new one in force |
| ReviewEffects.CorrectEffect | apps/observations/review.py:187-251 | a correction replaces the facts of a row that was not set aside, and one that says nothing new leaves no trace |
| ReviewEffects.MergeEffect | apps/observations/review.py:549-602 | a merge goes through if and only if the winner is unmerged and every duplicate may be folded; then exactly the duplicates are merged into it |
| ReviewMatchEffects.ProposeEffect | apps/reconciliation/services.py:59-129 | a pair gets one match; a dismissed one is reopened by hand only; otherwise nothing changes |
| ReviewMatchEffects.OneMatchPerPair | apps/reconciliation/models.py:85-91 | after every history no two matches join one pair in one way |
| ReviewMatchEffects.ConfirmPairEffect | apps/reconciliation/services.py:459-505 | a duplicate is confirmed if and only if the winner is unmerged and the other row may be folded; that row is merged and the match confirmed |
| ReviewMatchEffects.MergeAutomaticallyEffect | apps/reconciliation/services.py:276-313 | automatically the older of two unmerged rows wins |
| ReviewMatchEffects.DismissEffect | apps/reconciliation/services.py:543-564 | only an open proposal can be dismissed, and its rows stay as they were |
| ReviewMatchEffects.TransferEffect | apps/reconciliation/transfers.py:123-272 | a transfer is confirmed if and only if one free row is the debit and the other the credit of different accounts; both rows get one transaction |
| ReviewMatchEffects.RefundEffect | apps/reconciliation/refunds.py:147-336 | a refund is confirmed if and only if one free row is the credit for the other one's debit; it alone gets the transaction, and its rival proposals are dismissed |
| ReviewMatchEffects.DeleteEffect | apps/transactions/deletion.py:51-135 | a deletion works once: it voids the transaction, and exactly its rows wait for review again |
| ReviewMatchEffects.UnlinkGoesThroughIff | apps/reconciliation/services.py:567-620 | when an unlink goes through: always for duplicates and relations, for a transfer while its rows share one transaction in force, for a refund while the credit row read first holds one |
| ReviewMatchEffects.UnlinkPairEffect | apps/reconciliation/services.py:620-647 | unlinking duplicates brings back exactly the rows merged inside the pair and touches no transaction |
| ReviewMatchEffects.UnlinkEventEffect | apps/reconciliation/services.py:587-647 | unlinking an uncrossed transfer or refund in force voids its transaction only, frees its rows and sets the match aside |
| ReviewMatchEffects.ImportEffect | apps/observations/services.py:265-352 | an import goes through once per run and only if no place is taken; the earlier open rows go, with their matches and the references to them, and the parsed rows follow in order |
| ReviewTables.ReviewStore.SaveTransactionOnce | apps/transactions/idempotency.py:43-69 | insert, or look up by key |
| ReviewTables.ReviewStore.AcceptObservation | apps/observations/review.py:392-521 | equals the accept event and returns the row's transaction |
| ReviewTables.ReviewStore.RejectObservation | apps/observations/review.py:524-546 | succeeds if and only if the row holds no transaction and names no winner; then exactly its status changes, otherwise nothing does |
| ReviewTables.ReviewStore.CorrectObservation | apps/observations/review.py:187-251 | equals the correct event, whichever fields changed |
| ReviewTables.ReviewStore.MergeObservations | apps/observations/review.py:549-602 | the loop over the duplicates, undone by an error |
| ReviewTables.ReviewStore.RecordCandidate | apps/reconciliation/services.py:59-129 | equals the propose event |
| ReviewTables.ReviewStore.ConfirmDuplicateMatch | apps/reconciliation/services.py:459-505 | equals the confirm event of a duplicate |
| ReviewTables.ReviewStore.ConfirmInternalTransfer | apps/reconciliation/transfers.py:123-272 | equals the transfer event |
| ReviewTables.ReviewStore.DismissCompetingCandidates | apps/reconciliation/refunds.py:147-183 | the loop dismisses exactly the other proposed refunds of that row |
| ReviewTables.ReviewStore.ConfirmRefundMatch | apps/reconciliation/refunds.py:198-336 | equals the refund event |
| ReviewTables.ReviewStore.ReleaseObservations | apps/transactions/deletion.py:51-70 | every row that fed the transaction goes back into the queue |
| ReviewTables.ReviewStore.DeleteTransactionById | apps/transactions/deletion.py:73-135 | equals the delete event |
| ReviewTables.ReviewStore.UnlinkConfirmedMatch | apps/reconciliation/services.py:567-647 | equals the unlink event in either reading order and says whether it went through |
| ReviewTables.ReviewStore.ReplacePriorOpen | apps/observations/services.py:265-276 | deletes the earlier open rows, nulls references, cascades to matches |
| ReviewTables.ReviewStore.ImportParserSelection | apps/observations/services.py:279-352 | equals the import event: done once per run, rolled back when an import key is taken |
| Ledger.ReachableInv | apps/ledger/posting.py:31-101 | after any history entries fit their transactions and every transaction's debits equal its credits |
| Ledger.PostKeepsBalance | apps/ledger/posting.py:54-101 | an accepted posting balances |
| Ledger.ReverseKeepsBalance | apps/ledger/posting.py:143-194 | a reversal balances |
| LedgerLaws.BalancesAreExact | apps/ledger/balances.py:98-161 | each reported balance is its account's net over the user's confirmed transactions; no account or currency twice or missing |
| LedgerLaws.FiltersKeepTransactionsWhole | apps/ledger/balances.py:98-122 | the filters on status and owners never split a transaction |
| LedgerLaws.AccountingEquation | apps/ledger/balances.py:79-181 | after any history assets + expenses = liabilities + equity + income per currency, and the net position is equity + income - expenses |
| LedgerLaws.ReversalUndoes | apps/ledger/posting.py:143-210 | a reversal keeps every entry, zeroes every account, cannot be repeated, and makes the balances the same with or without the transaction |
| LedgerLaws.ReversalRefusedIff | apps/ledger/posting.py:143-210 | a reversal is refused if and only if there are entries and they already cancel |
| LedgerLaws.WashCannotBeReversed | apps/ledger/posting.py:197-210 | a wash posts and its first reversal is refused |
| LedgerEffects.PostedIff | apps/ledger/posting.py:31-101 | a posting is written if and only if the transaction is confirmed and not posted before, and there are at least two postings, positive, in its currency, on its owner's accounts, with debits equal to credits |
| LedgerEffects.RefusalNames | apps/ledger/posting.py:46-78 | which error a refusal gives, in the source's order |
| LedgerEffects.PostEffect | apps/ledger/posting.py:77-101 | one entry per posting is added behind the old ones, or nothing happens |
| LedgerEffects.PostedOnce | apps/ledger/posting.py:77-78 | over every history, after an accepted posting every later one of that transaction leaves the books as they are, a reversal in between included |
| LedgerEffects.ReverseEffect | apps/ledger/posting.py:143-194 | a reversal that goes through counters each entry of the transaction by one of its own, in order; otherwise the books stay as they are |
| LedgerEffects.SecondPostingRefused | apps/ledger/posting.py:77-78 | a concrete second posting is refused |
| LedgerBooks.Books.PostBalancedTransaction | apps/ledger/posting.py:31-101 | written if and only if the posting is acceptable and the first of its transaction; then one entry per posting, in order; otherwise the books are unchanged and the error is the source's first |
| LedgerBooks.Books.TransactionNetMinor | apps/ledger/posting.py:122-140 | the loop computes debits minus credits |
| LedgerBooks.Books.IsAlreadyReversed | apps/ledger/posting.py:197-210 | the dictionary of sums is all zero exactly when every account cancels |
| LedgerBooks.Books.ReverseTransactionPostings | apps/ledger/posting.py:143-194 | the mirror entries are appended once |
| LedgerBooks.Books.AccountBalances | apps/ledger/balances.py:125-161 | the specified rows, sorted by chart code and currency |
| LedgerBooks.Books.Tabulate | apps/ledger/balances.py:133-145 | the dictionary loop yields the specified rows in first-seen order |
| LedgerBooks.Books.Accumulate | apps/ledger/balances.py:137-145 | one entry moves exactly its own key's total and count |
| LedgerBooks.Books.RowsOf | apps/ledger/balances.py:147-161 | the dictionaries are read out as the specified rows |
| LedgerBooks.Books.Positions | apps/ledger/balances.py:164-181 | the two dictionaries yield the position per currency |
| OpeningBalances.OpeningBalanceIsLastFigure | apps/financial_accounts/opening_balances.py:78-275 | after any postings and corrections, other ledger activity interleaved, the figure read back is the last one; earlier entries are an untouched prefix; equity carries the opposite |
| OpeningBalances.PairIsAccepted | apps/financial_accounts/opening_balances.py:106-158 | the two postings are always accepted by the ledger |
| OpeningBalances.OpeningAccount.PostedOpeningBalanceMinor | apps/financial_accounts/opening_balances.py:78-103 | the running total equals the signed net of the opening entries |
| OpeningBalances.OpeningAccount.WritePair | apps/financial_accounts/opening_balances.py:106-158 | transaction and both entries are written |
| OpeningBalances.OpeningAccount.PostOpeningBalance | apps/financial_accounts/opening_balances.py:161-210 | equals the specification, refusals included |
| OpeningBalances.OpeningAccount.CorrectOpeningBalance | apps/financial_accounts/opening_balances.py:213-275 | equals the specification, refusals included: a blank reason, another currency |
| OpeningEffects.PostOpeningEffect | apps/financial_accounts/opening_balances.py:161-210 | posted if and only if a nonzero figure in the account's currency is recorded and none is posted; then the books hold that figure in one pair; otherwise nothing changes and the answer says why |
| OpeningEffects.PostOpeningOnce | apps/financial_accounts/opening_balances.py:188-192 | a second posting is refused |
| OpeningEffects.CorrectEffect | apps/financial_accounts/opening_balances.py:213-275 | accepted if and only if a reason is given and the currency is the account's; then the books hold the corrected figure, by one pair for the difference or by nothing |
| Separators.AcceptedIff | apps/parsing/money.py:187-240 | a body is accepted if and only if it has exactly one defensible reading and an ungrouped fraction shows the currency's decimals |
| Separators.AcceptedIsOnlyReading | apps/parsing/money.py:187-240 | an accepted body yields the value of its only reading |
| Separators.TwoReadingsRejected | apps/parsing/money.py:220-227 | two defensible readings are always refused |
| Separators.GroupedByPosition | apps/parsing/money.py:85 | the grouping expression and the positional definition agree |
| Amounts.PrintedIsReadBack | apps/core/value_objects.py:130-149 | printed digits read back for every amount and number of decimals, except below 1,000 units with three decimals |
| Amounts.StoredWithinHalfUnit | apps/core/value_objects.py:83-95 | an accepted amount is stored exactly, or within half a minor unit, an exact half rounded up, when a fraction behind grouping is too long |
| Amounts.ShownKeepsSize | apps/core/value_objects.py:101-103 | rounding to the context leaves amounts below 10^28 alone and larger ones too long to be stored |
| MoneyText.PrintThenParse | apps/parsing/money.py:243-307 | printing then parsing returns currency and signed amount for every registered currency below 10^28 minor units, and an ambiguous candidate beyond |
| MoneyText.PrintedDetection | apps/parsing/money.py:130-143 | in a printed amount only its own code is detected, and no label |
| MoneyText.PrintedResidual | apps/parsing/money.py:146-152 | blanking the markers leaves sign and digits |
| MoneyMarkers.MarkedTextReads | apps/parsing/money.py:243-307 | any sign glyph, any body and any marker of the table behind it, in any case, with a blank or without: the marker gives the currency, the glyph the sign, the body the amount |
| MoneyMarkers.LeadingMarkerReads | apps/parsing/money.py:243-307 | the same with the marker in front of the digits |
| MoneyMarkers.SymbolReads | apps/parsing/money.py:25-44 | each symbol and local word stands for its own currency, longer symbols before the shorter ones they contain |
| MoneyMarkers.LeadingSymbolReads | apps/parsing/money.py:25-44 | the same in front of the digits |
| MoneyMarkers.GlyphComesOff | apps/parsing/money.py:155-168 | plus is plus; hyphen, minus sign and both dashes are minus; anything else is no sign |
| MoneyMarkers.FiveThousandWon | apps/parsing/money.py:25-44 | 5,000 with the word for the won, plain and behind a minus sign that is no hyphen |
| MoneyMarkers.MisreadDigitsAreRepaired | apps/parsing/money.py:67-81 | letters read for digits are repaired to the printed amount, and the candidate says so |
| Dates.InferenceIsOptimal | apps/parsing/dates.py:158-184 | the inferred date is the best over all years, 29 February included: nearest to a statement or row anchor, or the latest not after tomorrow |
| Dates.UnansweredIff | apps/parsing/dates.py:158-184 | for every month, day and context, unanswered if and only if: no year has the day; or it is 29 February and, with a statement or row anchor, no leap year is next to the anchor's, with the upload anchor, neither last year nor this year has one that is not after tomorrow; or it is the calendar's first year and the day is after tomorrow |
| Dates.OrdinaryDayIsAnswered | apps/parsing/dates.py:158-184 | any day of every year is answered, within 183 days of a statement or row anchor |
| Dates.LeapDayUnanswered | apps/parsing/dates.py:158-184 | 29 February can go unanswered although it exists nearby |
| Dates.RowsFollowTheScreen | apps/parsing/dates.py:272-296 | the second pass gives partial rows the date nearest to the median of the screen's dates |
| Dates.RowsIgnoreOrder | apps/parsing/dates.py:272-296 | a row's date depends on its token and the dates on the screen, not on row order |
| Dates.AnchorOf | apps/parsing/dates.py:136-155 | the anchor is a date, and only the upload anchor forbids the future |
| DateAnswers.StatementDecides | apps/parsing/dates.py:136-155 | a statement month comes before everything: the answer is the date nearest to its 15th over the whole calendar, whatever other rows say |
| DateAnswers.RowsDecide | apps/parsing/dates.py:136-155 | then come the other rows: nearest to their median |
| DateAnswers.UploadDecides | apps/parsing/dates.py:155-178 | with the upload alone: the latest date not after tomorrow, named after its year |
| DateAnswers.PreviousYearIsPreviousIff | apps/parsing/dates.py:176-178 | the label previous year is right if and only if it is not 1 January read on 31 December, which is next year's |
| DateAnswers.StatementMonthKeepsItsYear | apps/parsing/dates.py:145-147 | a day of the statement's own month gets the statement's year |
| DateAnswers.MidMonthMatters | apps/parsing/dates.py:145-147 | a date that the 15th and the 1st of the statement month put into different years |
| DateAnswers.RelativeWords | apps/parsing/dates.py:226-246 | today and yesterday are the upload's day and the calendar day before it, on every screen |
| DateAnswers.FullDatesStand | apps/parsing/dates.py:196-216 | a full date is itself if it exists, and nothing otherwise, on every screen |
| Calendar.FromOrdinalOfOrdinal | apps/parsing/dates.py:143-150 | calendar ordinals are a bijection |
| Rows.PlaceToken | apps/parsing/rows.py:45-50 | one iteration: the token joins the last row or starts one, and the running mean stays the row's mean |
| Rows.BuildRows | apps/parsing/rows.py:42-50 | the loop equals the specified bands |
| Rows.BandsSeparate | apps/parsing/rows.py:31-54 | bands are tight around their mean and strictly separated at every step |
| Rows.GroupRows | apps/parsing/rows.py:31-54 | the loop with its moving mean equals the specification |
| Rows.RowsPartitionTokens | apps/parsing/rows.py:31-54 | every token is in exactly one row |
| Rows.RowsAreStrictBands | apps/parsing/rows.py:31-54 | every centre in a later row lies strictly below every centre in an earlier one |
| Rows.RowsIgnoreInputOrder | apps/parsing/rows.py:31-54 | with distinct sequence numbers the input order does not matter |
| RowLines.ClearLinesAreRows | apps/parsing/rows.py:31-54 | on a screen whose lines are clear at its threshold two tokens share a row if and only if their centres are near, whatever the input order and however the running mean moved |
| RowLines.TwoTokensShareRowIff | apps/parsing/rows.py:31-54 | two tokens are one row if and only if their centres are within 35% of the sum of their heights, or four pixels |
| RowLines.OneHeight | apps/parsing/rows.py:18-41 | for text of one height the threshold is seven tenths of it, at least four pixels |
| RowLines.MedianSplits | apps/parsing/rows.py:40-41 | at least half of the heights lie on either side of the typical height |
| RowLines.RowsReadLeftToRight | apps/parsing/rows.py:51-54 | inside a row tokens come by left edge, then by number |
| Matching.FindBest | apps/ocr/matching.py:105-121 | the loop finds the best compatible available token |
| Matching.MatchEngineTokens | apps/ocr/matching.py:90-151 | the shrinking set and growing list equal the specification |
| Matching.MatchingConservesTokens | apps/ocr/matching.py:90-151 | each token of either engine lands in exactly one group |
| Matching.MatchingIsMaximal | apps/ocr/matching.py:90-151 | pairs are spatially compatible, and no two tokens left alone are |
| MatchingChoices.CompatibleIff | apps/ocr/matching.py:48-79 | two tokens can be one if and only if the smaller box shares a quarter of its pixels with the other, or their centres are within 55% of the taller height and 75% of the wider width |
| MatchingChoices.CompatibleIsSymmetric | apps/ocr/matching.py:48-79 | whichever engine comes first |
| MatchingChoices.BestPartner | apps/ocr/matching.py:96-121 | each token takes the most similar compatible token that the earlier ones left over, then the one overlapping most, then the first, and stays alone when there is none |
| MatchingChoices.GroupsAreOrdered | apps/ocr/matching.py:147-151 | groups come top to bottom, left to right, conflicts before matches before single tokens |
| ParserInput.StatusMeans | apps/ocr/matching.py:122-146 | a group is unmatched exactly when it is one token, matched exactly when its two agree: similarity of at least 82 and no structured disagreement |
| ParserInput.ExtendWithRuns | apps/ocr/pipeline.py:117-121 | the list is extended by the items of the remaining runs, in order |
| ParserInput.TokensForParsing | apps/ocr/pipeline.py:85-126 | the in-place list equals the specification |
| ParserInput.ParsingInputCounts | apps/ocr/pipeline.py:85-126 | the parser's input has the tokens of all runs minus the agreed pairs, in screen order and numbered from zero |
| ParserInput.ParsingInputIsFaithful | apps/ocr/pipeline.py:85-126 | every token of the result is some engine's own, unchanged, or an agreed pair with the text and confidence of its more confident reading (the first of equals), the union box and both engines; every token that an engine read is in the result as one of these |
| Duplicates.ScoreIsSymmetricAndBounded | apps/reconciliation/duplicates.py:161-221 | scores are symmetric and within 0 to 100, zero across users |
| Duplicates.GatherAll | apps/reconciliation/duplicates.py:141-149 | the dictionary holds each key's facts in input order |
| Duplicates.GroupByKey | apps/reconciliation/duplicates.py:141-152 | exactly the keys shared by several facts, with their holders in order |
| Duplicates.PairsOfGroup | apps/reconciliation/duplicates.py:255-259 | all ordered pairs of one group |
| Duplicates.KeyedPairs | apps/reconciliation/duplicates.py:255-259 | the pairs that share a deterministic key |
| Duplicates.CollectPairs | apps/reconciliation/duplicates.py:261-283 | the double loop yields the specified candidates |
| Duplicates.CapCandidates | apps/reconciliation/duplicates.py:291-312 | the counting loop equals the specified selection and says whether it dropped any |
| Duplicates.FindDuplicateCandidates | apps/reconciliation/duplicates.py:235-312 | the whole function equals the specified selection |
| DuplicateLaws.CapHolds | apps/reconciliation/duplicates.py:291-312 | no observation is in more candidates than the cap |
| DuplicateLaws.DroppedOnlyWhenFull | apps/reconciliation/duplicates.py:291-312 | a dropped candidate has an observation that the returned selection uses up with candidates of no lower priority; any other candidate is returned |
| DuplicateLaws.AllDeterministicReturnedIff | apps/reconciliation/duplicates.py:243-248 | every deterministic candidate is returned if and only if no observation has more of them than the cap |
| DuplicateLaws.SelectionObeysTheLaws | apps/reconciliation/duplicates.py:235-312 | for rows with distinct identifiers the returned selection obeys the cap, and keeps every deterministic pair exactly under that condition |
| DuplicateLaws.KeyedPairsReturnedIff | apps/reconciliation/duplicates.py:235-312 | on the input: every pair that shares a key is returned if and only if no key is held by more than cap + 1 observations |
| DuplicateLaws.ThreeShareOneCode | apps/reconciliation/duplicates.py:243-248 | three observations with one approval code and a cap of one: a pair is not returned |
| DuplicateSignals.NothingInCommon | apps/reconciliation/duplicates.py:161-221 | rows that agree in nothing score nothing |
| DuplicateSignals.OneMoreAgreement | apps/reconciliation/duplicates.py:161-221 | one more agreement is worth its weight in any company: amount 30, instrument 25, date within a day 15, direction 10, merchant of at least 85 similarity 10, approval code 30, balance 15, source type 5 |
| DuplicateSignals.UsualDuplicate | apps/reconciliation/duplicates.py:38-93 | rows that agree in amount, instrument, date and direction are review candidates, and likely merges if and only if merchant, approval code or balance agree too |
| DuplicateSignals.PairsAreTheProposed | apps/reconciliation/duplicates.py:261-283 | the candidates before ranking are exactly the pairs, earlier row left, that share a key, or score enough with no two known dates too far apart |
| DuplicateSignals.OnlyWeakerAreDropped | apps/reconciliation/duplicates.py:284-305 | a candidate is missing only if one of its rows is used up by candidates that share a key when it does not, or score no less |
| DuplicateSignals.ShareKeyIff | apps/reconciliation/duplicates.py:106-138 | rows of one user share a key if and only if both have approval codes that fold alike, or neither has one and account, date, amount, currency and direction agree |
| DuplicateSignals.FoldedCodeIsKeyed | apps/reconciliation/duplicates.py:123-124 | two spellings of one code share a key although the score sees no common code |
| BalanceChain.ValidateBalanceChain | apps/parsing/balances.py:123-145 | the loop with its carried balance equals the per-row definition |
| BalanceChain.VerdictMeans | apps/parsing/balances.py:75-145 | valid (+0.15) exactly when the amount leads from the row's own starting balance, or else the last balance printed above, to the one it prints; invalid (-0.35) by exactly what is missing; no verdict (0) when there is nothing to compare or currencies differ |
| BalanceChain.OwnStartDecides | apps/parsing/balances.py:133-135 | a starting balance printed on the row silences everything above it |
| BalanceChain.DifferencesTelescope | apps/parsing/balances.py:123-145 | in a visible chain the differences add up to what its two ends disagree by |
| BalanceChain.MisprintMovesTwo | apps/parsing/balances.py:75-120 | one misread balance moves exactly two differences, by opposite amounts |
| BalanceChain.MisprintFlagsTwo | apps/parsing/balances.py:75-120 | in a valid chain it makes exactly those two rows invalid |
| BalanceChain.HiddenRowsDecideValidity | apps/parsing/balances.py:123-145 | after hidden balances a correct screenshot passes if and only if the hidden amounts cancel |
| BalanceChain.HiddenRowRejectsTruth | apps/parsing/balances.py:123-145 | a correct screenshot that is rejected |

## Left out

- Views, forms, admin, templates, middleware, metrics, audit events and logging.
- OCR engines, image checks, subprocesses, file storage and backups.
- AES-GCM, base64, HMAC and key derivation, beyond what is said above; wrong key lengths.
- Unicode and merchant normalisation, fuzzy similarity, institution parsers, date and label regular expressions.
- Non-ASCII digits, which the code's digit tests also accept.
- The yen sign: it stands for JPY and CNY, and the order of the two entries is not fixed, so the round trip is stated for text with codes.
- The explanations (`reasons`) and confidences of a money candidate.
- `retry_failed_document`: it is not one transaction, so a queued document can be left without a job between its two writes.
- A live worker whose job is recovered, and writers that change rows while a rotation batch holds them; writes between runs are modelled (`RotationWrites`).
- A deletion that falls between an exception handler's read and its write: the handler is one step.
- Attempt counters, timestamps and error texts of documents; retry delays are arbitrary.
- Ledger postings made while accepting, transferring or refunding, and their reversal on deletion: the ledger is modelled on its own.
- Scores and recorded features of matches; statement memberships and settlements are one kind of relation.
- Instrument compatibility, explicit confirmation and transaction-type checks of an acceptance are one flag, and the validity checks of a transfer or refund another.
- `financial_account_balances`, `Money` arithmetic, risk scores, confidences, category precedence, rule tables, instalments: true but easy.
- ReviewLaws.StepKeeps: excludes the unlink of a crossed pair, because in one of the reading orders the code breaks the invariant there (ReviewLaws.UnlinkBreaksIff).
- ReviewRuns.NoEventCountedTwice: likewise about histories that unlink no crossed pair (ReviewHistories.UnlinkedRefundDoubles).
- RotationWrites.NoFailuresMeansAllMoved: one way, because a field that failed and is then overwritten or removed has moved although a run reported it; without writes RotationRuns.AllMovedIffNothingReported says both.
- MoneyText.PrintThenParse: the text is taken as already normalised and stripped, which a printed amount is.
