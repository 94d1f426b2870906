# Verification of the sync engine

A Dafny model of how one sync job brings photos from an SFTP server to a local
directory, with proofs of what it promises. It covers where each file goes, the pool of
workers that puts it there, the counters they share, the loop that pauses, resumes and
retries, the connection the workers share, the manifest file, and the daemon's registry
of jobs.

What the source updates in place is a class here (`Syncer`, `BatchDestinations`,
`FileProgress`, `Client`, `Manifest`, `Daemon`), and every method is proved against a
function of its old state. What runs concurrently is a step system over those same
functions. In the download batch, the run loop, the connection and the life of the
manifest file, a step is what one goroutine does between two points at which another
may act, and a run is any sequence of enabled steps. The main results hold at every
state of every run.

| file | about |
|---|---|
| `Paths.dfy`, `Destinations.dfy` | path names and the claim table of a batch (`destination.go`) |
| `StatusBoard.dfy`, `Syncer.dfy` | the published status and the state under the job's mutex |
| `Transfer.dfy`, `Retry.dfy`, `Text.dfy` | one file's progress and attempts, the wait between them, error texts |
| `Batch.dfy` | the step system of one download batch |
| `BatchLedger.dfy` | its counters, its results channel, its pool, its end |
| `BatchPlaces.dfy` | its files: nothing is overwritten or lost |
| `BatchOutcomes.dfy` | what becomes of each file: its bytes, its attempts, its outcome |
| `BatchWaits.dfy` | the wait before a retry, inside a batch |
| `OneFileBatch.dfy`, `BatchWaste.dfy` | the smallest batches, and which configurations waste a transfer |
| `BatchResults.dfy` | what batches leave in the manifest, one after another |
| `Cycles.dfy` | whole cycles: selection, adoption, results |
| `CycleDestinations.dfy` | recorded destinations over cycles that adopt files |
| `Durability.dfy`, `CrashRecovery.dfy` | the manifest file under crashes, and what a start after one makes of an unsaved photo |
| `RunLoop.dfy`, `RunLoopRequests.dfy` | the wake-up protocol of Pause, Resume and SyncNow, and what a request, a pause and a result lead to |
| `Client.dfy` | the stale-connection protocol |
| `Daemon.dfy`, `Records.dfy` | the registry and the manifest |

Check it with `dafny verify dfyconfig.toml` (Dafny 4.11).

## Where the code does less than one might expect

Each of these is in the model as the code has it, with a lemma that says exactly when
the stronger property holds.

- Adoption does not look for another remote file recorded at the path it records. Over
  any number of cycles, whatever changes on the server, destinations stay distinct exactly
  when no cycle adopts a file at such a path (`CycleDestinations.HistoryStaysDistinctIff`).
  A job that sorts by year can: it places a photo under its year, and adopts it for another
  file whose own place that is (`CycleDestinations.AdoptionCanShareDestination`). The next
  update of the other file is then written over the photo, which the manifest goes on
  calling current (`CycleDestinations.SharedDestinationLosesPhoto`).
- A scan does not reset the Skipped counter, so the counters add up after it exactly when
  the batch before skipped nothing (`StatusBoard.BalancedAfterScan`,
  `StatusBoard.ScanAfterSkipIsUnbalanced`).
- A cycle cancelled during selection can be recorded as a success. The success is true of
  the whole listing exactly when every matching file that was not reached was current
  already (`Cycles.SuccessIsTrueIff`, `Cycles.CancelledSelectionIsRecordedAsSuccess`). It is
  recorded so exactly when the part that was reached left nothing to download
  (`Cycles.CutShortCycleSucceedsIff`).
- A walk that missed part of the server makes the cycle fail, with nothing else wrong,
  exactly when the context is still live at the end (`Cycles.PartialWalkIsReportedIff`,
  `Cycles.CancelledPartialWalkIsRecordedAsSuccess`).
- A pause or resume whose save fails is rolled back by its opposite, which leaves a token
  of its own. It is without effect exactly when both tokens were there before
  (`Daemon.RollbackIsInvisibleIff`, `Daemon.FailedPauseLeavesRequest`).
- A save writes the jobs that are loaded. A stored job survives exactly when no save
  succeeds while its configuration is not loaded; a paused job whose configuration was
  unreadable once can be forgotten (`Daemon.StoredJobSurvivesIff`,
  `Daemon.UnloadedJobIsForgotten`).
- The bytes of a file that was transferred and then turned away by the collision policy
  stay in the byte counter (`BatchLedger.BytesAreConserved`). Under every policy, no batch
  leaves such bytes exactly when the folder structure is flat
  (`BatchWaste.FlatExactlyCountsCompletedBytes`, `BatchWaste.CrowdedBatchStrandsBytes`).
- A worker that reports a failed connection late makes the replacement be replaced again,
  and closed under whoever uses it. A connection is shared exactly as long as nothing but
  `ready` is called (`Client.ReplacementIsSharedIff`, `Client.LateReportReplacesAgain`).
- The repository's README says that a pause ends a retry wait (README.md:218). In the code
  a wait ends early exactly when a cancellation comes before its delay is over, whatever
  pauses there are (`Retry.WaitEndsEarlyIff`, `Retry.PausesAreInvisible`,
  `Retry.PausedWaitRunsItsCourse`, and for whole batches `BatchWaits.RetryWaitIsSleepFor`).
- A new photo that was renamed into its place but not saved to the manifest before a crash
  is recognised after the restart exactly when what is on disk at its undated place can be
  shown to be that photo (`CrashRecovery.CrashedFileIsRecognisedIff`). A photo sorted by
  date, or renamed because its undated place was taken, usually is not: it is downloaded
  again and, under the rename policy, stored a second time. Both happen in concrete lives of
  a job, followed to the end of the second batch (`CrashRecovery.DatedPhotoIsStoredTwice`,
  `CrashRecovery.RenamedPhotoIsStoredTwice`).

## Model

| member | source | states |
|---|---|---|
| Paths.SuffixedInjective | internal/syncer/destination.go:164-170 | different attempts of the suffix search give different paths |
| Paths.SuffixedStaysInDirectory | internal/syncer/destination.go:164-170 | every candidate lies in the directory that was asked for |
| Paths.SuffixedKeepsExtension | internal/syncer/destination.go:164-170 | every candidate has the extension that was asked for, also for names with several dots or none |
| Destinations.BatchDestinations.constructor | internal/syncer/destination.go:46-62 | whatever order the manifest is visited in, the two indexes agree with it and with each other, and entries without a path are left out |
| Destinations.BatchDestinations.UnavailableTo | internal/syncer/destination.go:149-160 | a path is refused exactly when another file of the batch or of the manifest holds it or something is on disk there |
| Destinations.BatchDestinations.Resolve | internal/syncer/destination.go:73-129 | answer, claims and the exhausted mark are those of the specification Choose/AfterChoose, for every policy, table and disk |
| Destinations.FirstFree | internal/syncer/destination.go:112-122 | the search stops at the first free candidate, everything before it being taken, or past the limit |
| Destinations.RenameTakesLowestFreeSuffix | internal/syncer/destination.go:107-127 | the rename policy answers suffix k if and only if k is the lowest free one, refuses if and only if all candidates within the limit are taken, which are as many different paths as the limit says, and never skips |
| Destinations.ErrorAndSkipAreExact | internal/syncer/destination.go:91-105 | for a file without an applicable record, the error policy refuses and the skip policy leaves alone exactly when another file of the batch holds the path, another is recorded at it, or something is on disk there; otherwise both place it there |
| Destinations.RecordedComesFirst | internal/syncer/destination.go:77-86 | a recorded path nobody else holds is answered under every policy |
| Paths.SuffixedShape | internal/syncer/destination.go:162-170 | a candidate is the name, a dash, the attempt's number in digits, and the extension |
| Destinations.RenameStaysBesideTheDesiredPath | internal/syncer/destination.go:107-122 | a fresh destination keeps directory and extension |
| Destinations.ResolveIsSafe | internal/syncer/destination.go:73-129 | under every policy only the file's own recorded path or an unoccupied one is handed out, never one held by another, and no claim is lost |
| Destinations.ResolveAgain | internal/syncer/destination.go:73-129 | resolving again before the file is written gives the same answer and changes nothing, whatever others claimed or renamed in between |
| Destinations.RenamesDuringSearchAreInvisible | internal/syncer/destination.go:108-122 | renames that other workers complete while the search looks at the disk do not change where it stops |
| StatusBoard.BalanceOutlivesBatch | internal/syncer/syncer.go:388-425 | ending a cycle or publishing the pause keeps the counters' balance |
| StatusBoard.ResultsAreShown | internal/syncer/syncer.go:388-425 | success shows idle without an error, a live failure the error, and a paused batch or an interruption nothing |
| StatusBoard.BalancedAfterScan | internal/syncer/syncer.go:227-242 | after a scan begins the counters add up if and only if nothing was counted as skipped before |
| StatusBoard.ScanAfterSkipIsUnbalanced | internal/syncer/syncer.go:227-242 | a concrete status for which they do not |
| Syncer.Syncer.SyncNow | internal/syncer/syncer.go:177-182 | a token is present afterwards, never more than one: the step of `RunLoop.RequestsDuringCycleCoalesce` and `Daemon.SyncNowIsItsStep` |
| Syncer.Syncer.Pause | internal/syncer/syncer.go:116-132 | both copies of the flag are set, and a token is left exactly by a call that changed the flag: the two steps of `Daemon.PauseIsItsSteps` |
| Syncer.Syncer.Resume | internal/syncer/syncer.go:136-147 | both copies of the flag are cleared, and an immediate scan is requested exactly by a call that changed the flag: the two steps of `Daemon.ResumeIsItsSteps` |
| Syncer.Syncer.Snapshot | internal/syncer/syncer.go:212-225 | a client never sees more bytes than a positive total; nothing else differs from the live status, which itself is left alone, and nothing at all unless the count ran past the total |
| Syncer.Syncer.MarkPaused | internal/syncer/syncer.go:158-165 | the phase becomes paused, which is the step `RunLoop.WaitingJobIsWoken` counts on |
| Syncer.Syncer.BeginScan | internal/syncer/syncer.go:227-242 | the batch counters are reset, all but Skipped; see `StatusBoard.BalancedAfterScan` |
| Syncer.Syncer.BeginDownload | internal/syncer/syncer.go:251-263 | the whole batch is remaining and every counter starts from zero, from which `BatchLedger.CountersBalance` follows |
| Syncer.Syncer.RecordBytes | internal/syncer/syncer.go:321-330 | a positive delta is added to the shared counter; with the two below, what `BatchLedger.BytesAreConserved` sums |
| Syncer.Syncer.FinishFileLocked | internal/syncer/syncer.go:378-386 | one file fewer remains and Pending follows Remaining; see `BatchLedger.CountersBalance` |
| Syncer.Syncer.RecordFileResult | internal/syncer/syncer.go:342-355 | one completed file, or one failed file whose bytes are taken back down to zero at most, a limit `BatchLedger.ActionKeepsBytes` shows is never met |
| Syncer.Syncer.RecordSkipped | internal/syncer/syncer.go:370-375 | one skipped file, retired from the batch; see `BatchLedger.CountersBalance` |
| Syncer.Syncer.DiscardBytes | internal/syncer/retry.go:194-208 | the bytes of an abandoned attempt are taken back down to zero at most, a limit `BatchLedger.ActionKeepsBytes` shows is never met |
| Syncer.Syncer.RecordCycle | internal/syncer/syncer.go:411-425 | success, paused batch, interruption and failure each leave the phase they should, which `RunLoop.WaitingJobIsWoken` rests on |
| Transfer.FileProgress.Emit | internal/syncer/syncer.go:308-316 | what is added to the shared counter is exactly what becomes reported |
| Transfer.FileProgress.Update | internal/syncer/syncer.go:282-292 | a count is reported in full, or held back entirely exactly when the last report is too recent |
| Transfer.FileProgress.Reset | internal/syncer/syncer.go:302-306 | the next attempt counts from zero and reports at once |
| Transfer.CopyWithProgress | internal/sftp/client.go:401-419 | the file's count is the sum of the writes, and the shared counter moves by what was reported |
| Transfer.DiscardAttempt | internal/syncer/retry.go:194-208 | an attempt that will be repeated leaves exactly nothing in the shared counter |
| Transfer.DownloadWithRetries | internal/syncer/retry.go:144-189 | for every failure script: result and number of calls are those of the specification Attempts, one stale mark per transient failure, and the shared counter ends higher by exactly what the caller would take back |
| Transfer.RetriesAreExact | internal/syncer/retry.go:144-189 | at most the configured number of calls of fetch, and one when that is below one; every call but the last failed transiently and its wait was not cut short; the result is the last call's, or the calls are spent, or a cancellation came before the next wait was over |
| Transfer.ExhaustedIff | internal/syncer/retry.go:150-188 | the attempts are spent if and only if exactly that many calls all failed transiently with every wait waited out |
| Retry.DelayDoubles | internal/syncer/retry.go:23-26 | half a second at first, then doubled up to eight |
| Retry.RetryDelay | internal/syncer/retry.go:93-114 | the delay is at least half of, and less than, the capped doubling, and zero only before the first retry |
| Retry.WaitEndsEarlyIff | internal/syncer/retry.go:119-136 | a wait ends before its delay if and only if a cancellation comes before that, and fails exactly then or when it was cancelled to begin with |
| Retry.PausesAreInvisible | internal/syncer/retry.go:119-136 | pauses and resumes at any moments change neither how a wait ends nor when |
| Retry.PausedWaitRunsItsCourse | internal/syncer/retry.go:119-136 | a job paused throughout a retry wait waits out its whole delay |
| Text.TruncateText | internal/syncer/retry.go:217-231 | the loop finds the last character start at or before the cut |
| Text.TruncationKeepsCharacters | internal/syncer/retry.go:217-231 | valid UTF-8 stays valid: a prefix and the marker, giving up at most three bytes |
| Text.CutIsLast | internal/syncer/retry.go:226-230 | for any bytes, no character starts between the cut and the limit |
| Text.EncodedIsAccepted | internal/syncer/retry.go:214-231 | the grammar of valid text accepts the encoding of each Unicode character, whole |
| Text.AcceptedIsEncoded | internal/syncer/retry.go:214-231 | and nothing else, each in one way |
| Text.TruncationFitsIff | internal/syncer/retry.go:217-231 | a positive limit is respected if and only if the text fitted or the limit is at least the marker's length |
| Text.BoundaryIsNear | internal/syncer/retry.go:226-229 | in valid text a character starts within three bytes before any position |
| Text.FailureDetail | internal/syncer/syncer.go:823-831 | the error repeated in a summary is bounded, unchanged when it is short, and otherwise the longest prefix to a character boundary with the marker |
| RunLoop.StepKeepsInv | internal/syncer/syncer.go:427-481 | the wake-up invariant is kept by each step of the loop, the timer, the running cycle and the three calls |
| RunLoop.WaitingJobIsWoken | internal/syncer/syncer.go:436-480 | whenever the loop waits: an active job will be woken; one that shows no settled phase is woken at once, also after a batch that stopped for a pause and was resumed; a paused one shows it or its token is coming |
| RunLoop.SomethingHelpfulIsEnabled | internal/syncer/syncer.go:436-480 | an active job always has a step towards its next cycle |
| RunLoop.ActiveJobStartsCycle | internal/syncer/syncer.go:116-147 | only so many such steps fit before a cycle starts, so no order of calls leaves an active job asleep |
| RunLoop.CyclesArePaidFor | internal/syncer/syncer.go:427-481 | cycles started never exceed one plus the intervals armed plus the tokens accepted |
| RunLoop.RequestsDuringCycleCoalesce | internal/syncer/syncer.go:173-182 | any number of requests during one cycle adds at most one token |
| RunLoopRequests.RequestEndsTheWaitAtOnce | internal/syncer/syncer.go:462-479 | a request, or a Resume about to make one, that is there at any moment of a cycle ends the next wait at once, whatever phase is shown |
| RunLoopRequests.RequestLeadsToCycle | internal/syncer/syncer.go:471-479 | for a job that stays active it leads to a cycle, and no interval is armed before that |
| RunLoopRequests.RequestLeadsToOneCycle | internal/syncer/syncer.go:173-182 | and to one only: without further tokens, cycles beyond it are those of elapsed intervals |
| RunLoopRequests.WaitIsAsPolled | internal/syncer/syncer.go:471-479 | after a cycle the loop waits no time when a request was polled, and a full interval when none was |
| RunLoopRequests.PauseTakesEffectAtGate | internal/syncer/syncer.go:455-469 | a pause met at either gate is shown at the next wait, with no timer armed and no cycle started |
| RunLoopRequests.LastResultIsShown | internal/syncer/syncer.go:411-425 | whenever a job waits it shows its last result: the error flag always, and the phase unless a pause was published since |
| RunLoopRequests.CancelledLoopLeaves | internal/syncer/syncer.go:436-440 | a cancelled loop can leave at its next wait, never in a cycle, and starts none afterwards |
| RunLoop.PausedJobStaysQuiet | internal/syncer/syncer.go:455-460 | a paused job starts no cycle until it is resumed, whatever tokens and timers go off |
| RunLoop.RestoredPausedJobRunsNothing | internal/daemon/daemon.go:210-217 | a job paused before its loop starts runs no cycle at all |
| BatchLedger.ActionKeepsBytes | internal/syncer/syncer.go:318-355 | each action of each worker keeps the byte counter exact, and neither clamp at zero fires |
| BatchLedger.ActionKeepsCounters | internal/syncer/syncer.go:342-386 | each action keeps the file counters equal to what the workers have settled |
| BatchLedger.BytesAreConserved | internal/syncer/syncer.go:269-355 | at every step the byte counter is the sum of the files' outstanding bytes; at the end, of the completed files and of those turned away after their transfer |
| BatchLedger.CountersBalance | internal/syncer/syncer.go:342-386 | completed, failed, skipped and remaining add up to the batch at every step |
| BatchLedger.TotalsStand | internal/syncer/syncer.go:528-543 | the published total is the sum of the files' sizes throughout the batch |
| BatchLedger.ReportingNeverBlocks | internal/syncer/syncer.go:605-607 | the results channel always has room, and holds exactly one true report per worker that sent one |
| BatchLedger.ReportsMatchCounters | internal/syncer/syncer.go:729-737 | at the end each attempted file has been reported once, and the reports tell what the counters tell |
| BatchLedger.PoolIsBounded | internal/syncer/syncer.go:606-626 | never more transfers at once than workers |
| BatchLedger.NeverStuck | internal/syncer/syncer.go:614-731 | until the batch is over some goroutine can move |
| BatchLedger.BatchEnds | internal/syncer/syncer.go:614-731 | a batch has a fixed bound on its steps other than writes, so it ends if its transfers do |
| BatchLedger.PauseStopsSubmission | internal/syncer/syncer.go:169-171 | while the job stays paused, or once it is cancelled, no further file is decided on, and at most one more is started |
| BatchWaits.RetryWaitIsSleepFor | internal/syncer/retry.go:157-163 | in every run a worker tries again exactly when its wait, over all that happened meanwhile, is waited out, and gives up exactly when a cancellation came within the drawn delay; the same without the pauses |
| BatchLedger.PauseErrorMeansPause | internal/syncer/syncer.go:838-846 | a batch is reported as paused if and only if it left files and is live, and then really saw a pause; as interrupted if and only if it left files and is cancelled; and without an error if and only if every file was attempted and reported |
| BatchOutcomes.FileComesFromFetch | internal/syncer/verify.go:87-106 | in every run, what a worker holds or has put in place came from a fetch of its own, and in sha256 mode the server's copy hashed to the same or could not be read |
| BatchOutcomes.CompletedIsAsFetched | internal/syncer/verify.go:110-117 | the photo on disk is what that fetch gave, and its entry has the file's time and size, its place, and the verified digest, or none exactly when none was verified |
| BatchOutcomes.FetchIsJudged | internal/syncer/retry.go:165-186 | a mismatch or transient failure gives the attempt up, a permanent failure fails the file, and anything else is kept as it was fetched |
| BatchOutcomes.RepeatedWhileAttemptsAreLeft | internal/syncer/retry.go:156-188 | after a mismatch or transient failure the worker waits for another attempt exactly while its returns are below the configured number, and otherwise the file has failed for good |
| BatchOutcomes.WaitLeadsToFetch | internal/syncer/retry.go:157-165 | a wait that is over leads to another fetch, one that is given up to a failure |
| BatchOutcomes.FetchesAreBounded | internal/syncer/retry.go:150-156 | no file of any run is fetched more often than the configuration says, and once when that is below one |
| BatchOutcomes.PolicyDecidesOutcome | internal/syncer/syncer.go:628-696 | in every run no file is skipped under the error or rename policy, and none fails for its destination under the skip policy |
| BatchPlaces.RenameIsFirst | internal/syncer/syncer.go:687-707 | a rename lands where no other file of the batch has been written |
| BatchPlaces.NoFileIsOverwrittenOrLost | internal/syncer/syncer.go:605-727 | in every interleaving and under every policy: completed files have different paths holding their own content, and every earlier file is unchanged until the completed update of the very file recorded at it |
| BatchPlaces.OtherWorkersDoNotDisturb | internal/syncer/destination.go:73-160 | no action of another worker changes what resolution answers to this one |
| BatchPlaces.RenameIsInvisibleToResolution | internal/syncer/destination.go:149-160 | nor does a rename completed while resolution looks at the disk |
| BatchPlaces.EarlyResolutionIsBinding | internal/syncer/syncer.go:628-641 | with a flat structure, the resolution before the transfer still stands at every later step |
| BatchPlaces.FlatBatchWastesNoTransfer | internal/syncer/syncer.go:628-641 | so no file of a flat batch is transferred and then turned away |
| BatchWaste.CrowdedBatchStrandsBytes | internal/syncer/syncer.go:687-696 | under each policy, a dated photo for which every name is taken leaves its five bytes in the counter of a batch that completed nothing |
| BatchWaste.FlatExactlyCountsCompletedBytes | internal/syncer/syncer.go:628-696 | under any policy, every finished batch counts exactly the bytes of its completed files if and only if the structure is flat |
| BatchPlaces.RecordedPathIsReserved | internal/syncer/destination.go:73-86 | when recorded destinations are distinct nobody else can claim one |
| BatchPlaces.RecordedFilesKeepTheirPlace | internal/syncer/destination.go:64-90 | then every recorded file is given its recorded destination at every step of every run, and is never skipped or refused |
| BatchResults.ApplyDownloadOutcomes | internal/syncer/syncer.go:753-774 | the manifest is that of the reports in their order, each outcome is counted once, and the failures are listed in order of arrival |
| BatchResults.FirstFailureIsNamed | internal/syncer/syncer.go:811-821 | the failure a summary names is the first one reported |
| BatchResults.CompletedIsRecorded | internal/syncer/syncer.go:749-774 | in whatever order reports arrived, each completed file has its own entry, naming the file on disk and, when there is a digest, the digest of its content |
| BatchResults.OthersKeepTheirEntry | internal/syncer/syncer.go:756-771 | every other entry is what it was |
| BatchResults.DestinationsStayDistinct | internal/syncer/syncer.go:753-774 | a batch makes no two remote files share a recorded destination |
| BatchResults.DestinationsStayDistinctOverBatches | internal/syncer/syncer.go:753-774 | nor does any sequence of batches |
| BatchResults.UpdatesGoToTheSamePlace | internal/syncer/destination.go:64-90 | a file written by one batch is resolved to that same path by every later batch, under every policy and order |
| BatchResults.PhotoStaysAsWritten | internal/syncer/syncer.go:687-725 | over any batches on one disk, a photo stays in its place as the last batch that completed it wrote it |
| BatchResults.AdoptionKeepsDistinctIff | internal/syncer/syncer.go:583-597 | adoption keeps destinations distinct if and only if no other file is recorded at the adopted path |
| CycleDestinations.SelectionKeepsDistinctIff | internal/syncer/syncer.go:563-603 | a selection keeps destinations distinct if and only if it adopts no file at a path recorded before |
| CycleDestinations.HistoryStaysDistinctIff | internal/syncer/syncer.go:502-603 | over any number of cycles that adopt and download, each with its own listing, destinations are distinct throughout if and only if no cycle does |
| CycleDestinations.UpdatesStayInPlaceOverCycles | internal/syncer/destination.go:64-90 | then a file recorded by a download or an adoption is given that place in every state of every later cycle's batch, and is never skipped, refused or renamed |
| CycleDestinations.PlacesUnderRootsDiffer | internal/syncer/syncer.go:848-852 | the files of a walk below the remote root have different undated places, as those two suppose |
| CycleDestinations.AdoptionCanShareDestination | internal/syncer/syncer.go:583-597 | under any policy: a batch places a photo under its year, and the next selection adopts it for another file, so two share one destination |
| CycleDestinations.SharedDestinationLosesPhoto | internal/syncer/destination.go:77-86 | then under any policy an update of the one is written over the other, which the manifest still calls current |
| CycleDestinations.DatedPlaceIsAnothersPlace | internal/syncer/syncer.go:848-869 | a photo's place by year is the undated place of the file of that name in the remote directory called after the year |
| Paths.LocalPathInjective | internal/syncer/syncer.go:848-852 | files below the remote root have different undated places |
| Cycles.Adoptable | internal/syncer/verify.go:34-77 | a local file is adopted if and only if size and, in sha256 mode, both digests were read and agree; the digest is recorded only in that mode |
| Cycles.SelectForDownload | internal/syncer/syncer.go:563-603 | the loop selects and adopts as specified for the files it reached |
| Cycles.SelectionIsExact | internal/syncer/syncer.go:563-603 | each matching file seen is chosen or current, never both, and only adoptions add entries |
| Cycles.NextCycleChoosesLess | internal/syncer/syncer.go:502-603 | over an unchanged listing a cycle chooses only what the one before chose and did not complete |
| Cycles.ChosenIff | internal/syncer/syncer.go:563-603 | a matching file is chosen if and only if its entry has another time or another size, or it has none and is not adopted, whatever else is listed |
| Cycles.CompletedHasItsTimeAndSize | internal/syncer/syncer.go:753-774 | after a cycle that completed a file, its entry has the time and the size the listing gave |
| Cycles.AdoptedIsRecorded | internal/syncer/syncer.go:583-597 | an adopted file's entry has its time, its size, its undated place and the digest of the check |
| Cycles.EligibleAreMatching | internal/syncer/syncer.go:566-577 | the eligible files are the matching ones that were reached, each counted once |
| Cycles.ChosenIsListing | internal/syncer/syncer.go:563-603 | no file is chosen twice |
| Cycles.ResultIsExact | internal/syncer/syncer.go:502-561 | when a cycle fails, stops for a pause or succeeds, in that order of precedence: failed downloads first, then a batch that stopped, then a partial walk |
| Cycles.NextCycleChoosesExactly | internal/syncer/syncer.go:502-603 | and if both see the whole listing, exactly that, less what it adopts: what failed, was skipped or was not reached is tried again |
| Cycles.PausedCycleSawPause | internal/syncer/syncer.go:743-746 | a cycle reports a pause only when its batch read one |
| Cycles.CompletedAtMostOnce | internal/syncer/syncer.go:502-603 | a completed file is never chosen again until it changes, whatever later cycles do and whatever else changes on the server |
| Cycles.SuccessMeansSynced | internal/syncer/syncer.go:502-561 | a cycle recorded as a success has every matching file it looked at current or skipped, and with a live context it looked at all of them |
| Cycles.SuccessIsTrueIff | internal/syncer/syncer.go:556-572 | its success is true of the whole listing if and only if every matching file it did not reach was current already |
| Cycles.CancelledSelectionIsRecordedAsSuccess | internal/syncer/syncer.go:556-572 | a concrete cancelled cycle for which it is not |
| Cycles.CutShortCycleSucceedsIff | internal/syncer/syncer.go:567-572 | a cycle whose selection was cut short downloads nothing, and passes for a success if and only if nothing it had reached needed downloading |
| Cycles.PartialWalkIsReportedIff | internal/syncer/syncer.go:554-558 | a partial walk with nothing else wrong fails the cycle if and only if the context is live, and passes for a success otherwise |
| Cycles.CancelledPartialWalkIsRecordedAsSuccess | internal/syncer/syncer.go:554-558 | a concrete cycle that does, having gone through its whole listing |
| BatchLedger.CancelledBatchAttemptsNothing | internal/syncer/syncer.go:614-617 | a batch that starts cancelled attempts no file |
| Records.Manifest.Get | internal/state/manifest.go:75-78 | an entry is found exactly when there is one |
| Records.Manifest.Set | internal/state/manifest.go:80-82 | one entry changes |
| Records.Manifest.Save | internal/state/manifest.go:58-73 | wherever the write fails, the stored file is the old one or the new one |
| Durability.EventKeepsInv | internal/syncer/syncer.go:502-561 | each event of a job's life, a crash included, keeps every recorded destination on disk |
| Durability.BatchIsSaved | internal/syncer/syncer.go:737-741 | when a batch is over and no write fails, the manifest file at the next rest is what its reports make of the manifest before |
| Durability.RecordedFilesExist | internal/syncer/syncer.go:707-741 | with a crash between any two steps, and files written from outside at any time, every destination the saved manifest holds from a download or an adoption names a file that exists |
| CrashRecovery.CrashedFileIsRecognisedIff | internal/syncer/syncer.go:577-600 | after a crash between rename and save, the next selection over any listing leaves a new photo alone if and only if what the disk holds at its undated place can be shown to be it |
| CrashRecovery.DatedFileIsChosenAgain | internal/syncer/syncer.go:680-707 | so a photo at its dated place only is chosen again |
| CrashRecovery.RenamedFileIsChosenAgain | internal/syncer/destination.go:107-122 | and so is one renamed because a file of another size has its undated place |
| CrashRecovery.SecondPlaceIsAnother | internal/syncer/destination.go:73-129 | an unrecorded photo is never given an occupied path, and under the rename policy a suffix beyond every occupied one |
| CrashRecovery.CrashedFileIsStoredTwice | internal/syncer/syncer.go:707-741 | whenever nothing on disk is taken for the photo: a life through such a crash, at the end of whose next batch the photo is on disk under two names |
| CrashRecovery.DatedPhotoIsStoredTwice | internal/syncer/syncer.go:707-741 | a concrete one for a job that sorts by date |
| CrashRecovery.RenamedPhotoIsStoredTwice | internal/syncer/syncer.go:707-741 | a concrete one for a flat job, stored as second and as third name |
| Client.Client.CloseLocked | internal/sftp/client.go:179-189 | both handles are closed and forgotten, and the mark with them |
| Client.Client.ConnectLocked | internal/sftp/client.go:70-106 | the old connection is closed first, and a dial that fails half way leaves none open |
| Client.Client.MarkStale | internal/sftp/client.go:136-140 | the connection is marked and left open |
| Client.Client.Ready | internal/sftp/client.go:156-170 | the current connection unless missing or stale, otherwise a new one or an error |
| Client.Client.EnsureConnected | internal/sftp/client.go:119-131 | an unmarked connection that answers is kept, any other replaced |
| Client.OneConnection | internal/sftp/client.go:58-106 | in every interleaving at most one connection is open at any moment, and every dialled one is current or closed |
| Client.ReadyIsFresh | internal/sftp/client.go:149-170 | no worker is given a connection dialled before the latest stale mark |
| Client.ReplacementIsSharedIff | internal/sftp/client.go:58-68 | a usable connection is what the next caller is given if and only if nothing but ready was called since |
| Client.LateReportReplacesAgain | internal/sftp/client.go:133-140 | a second report of a failure that was repaired already makes the new connection be closed and replaced |
| Daemon.SortJobs | internal/daemon/daemon.go:127-138 | the jobs, in the order of time and ID |
| Daemon.LessMeans | internal/daemon/daemon.go:127-138 | the order of IDs is that of their bytes |
| Daemon.SortedOnce | internal/daemon/daemon.go:127-138 | there is one sorted arrangement of a set of jobs |
| Daemon.Daemon.ListJobs | internal/daemon/daemon.go:115-125 | every job of the map once, in that order |
| Daemon.Daemon.ListingIsUnique | internal/daemon/daemon.go:115-138 | so the random order of the map never shows |
| Daemon.Daemon.NewRegistryEntries | internal/daemon/daemon.go:164-176 | one entry per job, in order, with its path, time and current flag; read back, the file is exactly the jobs' flags |
| Daemon.Daemon.SaveRegistry | internal/daemon/daemon.go:234-258 | the file becomes the sorted entries of all jobs or stays as it was |
| Daemon.Daemon.Persist | internal/daemon/api.go:102-114 | the changed flag is durable, or changed back |
| Daemon.Daemon.JobControl | internal/daemon/api.go:77-117 | answer, jobs and file are those of the specification Handle, for every action and every point of failure |
| Daemon.Daemon.LoadRegistry | internal/daemon/daemon.go:188-232 | nothing for a file that cannot be read or parsed; otherwise the jobs are those whose entries load, each with its own entry's path and time, and paused before its start exactly if the entry says so |
| Daemon.HandleKeepsAgreement | internal/daemon/api.go:99-114 | one request keeps every loaded job's runtime flag equal to its stored flag, whatever other jobs the file holds |
| Daemon.FlagsStayStored | internal/daemon/api.go:77-117 | so does any sequence of requests and restarts, with saves failing and configurations not loading anywhere |
| Daemon.RequestsAreExact | internal/daemon/api.go:74-117 | a request touches no other job, an error leaves every flag and the file alone, an accepted one did what was asked |
| Daemon.AnswersAreExact | internal/daemon/api.go:77-117 | not found exactly for an unknown job, an error exactly for an unknown action or a change of the flag that could not be saved; the file is written exactly when the flag changed |
| Daemon.RollbackIsInvisibleIff | internal/daemon/api.go:103-113 | a request whose save failed is without effect if and only if both tokens were there before |
| Daemon.FailedPauseLeavesRequest | internal/daemon/api.go:103-113 | a concrete job that a failed pause makes scan at once |
| Daemon.RestartKeepsFlags | internal/daemon/daemon.go:188-232 | each job whose configuration loads comes back with its stored flag, and no other job |
| Daemon.RestoredIsRestarted | internal/daemon/daemon.go:202-232 | a restart of such a sequence is what loading the file does |
| Daemon.RestartRestoresFlags | internal/daemon/daemon.go:188-258 | after any requests and restarts, one more brings back exactly the stored jobs whose entry loads, with their stored flag, which for a running job is the flag it had |
| Daemon.StoredJobSurvivesIff | internal/daemon/daemon.go:234-258 | a stored job outlives any requests and restarts if and only if no save succeeds while its configuration is not loaded, and keeps its flag until a request is made of it |
| Daemon.UnloadedJobIsForgotten | internal/daemon/daemon.go:202-258 | a paused job that did not load once is gone after the next save |
| Daemon.RestoredPausedJobWaits | internal/daemon/daemon.go:211-216 | a job that comes back paused runs no cycle until it is resumed |
| Daemon.PauseIsItsSteps | internal/syncer/syncer.go:116-132 | an uninterrupted Pause is the two steps the run loop's protocol has for it |
| Daemon.ResumeIsItsSteps | internal/syncer/syncer.go:136-147 | and so is an uninterrupted Resume |
| Daemon.SyncNowIsItsStep | internal/syncer/syncer.go:177-182 | and SyncNow is one step of it |

## Left out

- SSH and SFTP dialling, authentication, host keys, EXIF, YAML and JSON, HTTP routing and the Unix socket: foreign code; a call's result is a parameter.
- The command line, the menu bar application and the API client: presentation and thin wrappers.
- Error classification, the hash function, file contents, the walk of the server, configuration checks, the space check, pruning of staging files: arbitrary values or results; `Workers` is at least 1 and a listing holds a path once, as configuration and walk provide.
- Directories in the way, symbolic links, case-insensitive names, failed stat calls, destinations named like staging files: the disk is a flat map from path to content, on which, for the results about a batch's files, only its workers write.
- File times, timestamps, log messages, the texts of errors, the number of eligible files, and the CurrentFile fields, which the source calls best-effort.
- Widths of integers: byte counts are unbounded, and the jittered delay is computed over the reals.
- Two short sequences are one step each: resolution, whose claims are under one lock and whose looks at the disk are shown not to matter (`Destinations.RenamesDuringSearchAreInvisible`, `BatchPlaces.RenameIsInvisibleToResolution`), and the release of a worker's slot with the end of its goroutine.
- The batch, the loop and the cycles are proved as steps and values, not as goroutines on one heap: the methods of `Syncer`, `BatchDestinations`, `FileProgress` and `Client` are tied to the same functions the steps use.
- Syncer.Syncer.MarkPaused: does not clear the CurrentFile fields, which are not modelled.
- Transfer.DownloadWithRetries: takes the endings of fetch, and what happens during a wait, from a script; which connection fetch uses is modelled in `Client` alone.
- Paths.LocalPathInjective: the cleaning of a joined path is not modelled, because a walk reports clean paths.
- Daemon.SortJobs: an insertion sort stands for the library's, which is not modelled; `Daemon.SortedOnce` shows that the result is the same.
- Daemon.Daemon.LoadRegistry: a configuration that does not load and a loop that does not start are one condition, the parameter `loads`; a registry file that is missing reads as empty.
- Daemon.FlagsStayStored: requests are handled one at a time, because the source does not serialise concurrent saves.
- Adding and removing jobs: a failed save is not rolled back there, so nothing harder than `Register` would be said.
- Durability.RecordedFilesExist: nothing outside the job deletes files, as the property supposes; an unreadable manifest file, which keeps the job from starting, is not modelled.
