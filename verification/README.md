# EntropIA: a verified model of its hardest logic

This project models ten small components of EntropIA and proves what their design promises about every input,
every run or every interleaving. It is checked with `dafny verify dfyconfig.toml`.

- **Import jobs** (`Job.dfy`, `JobMeaning.dfy`, `JobRuns.dfy`). The per-file and per-job state machine, as a class
  whose methods update the job in place, each tied to a function on job values. What each function does to a job is
  spelled out on its states; the other theorems are about arbitrary sequences of the six mutators and of the
  worker's field writes.
- **Recovery of job folders** (`Recovery.dfy`, `CrashSafety.dfy`, `Store.dfy`). A folder maps names to files and
  directories, and recovery is a list of small filesystem steps that a crash may cut anywhere, even inside one
  write. The store class performs those steps over all entries of its root and records them in a trace.
- **Quantized scan** (`Vecscan.dfy`, `Shortlist.dfy`, `Rerank.dfy`). The int8 matrix, its lane-split dot product
  and its pruned, batched top-k, the error of a score against the exact cosine, and the exact second pass.
- **Provenance truncation** (`Truncation.dfy`, `Provenance.dfy`, over `Repetition.dfy`, `Text.dfy`, `Json.dfy`).
  The shrink-until-it-fits loop, with UTF-8 lengths and the printed text of RFC 8259 concrete.
- **Edit distance and variants** (`Fuzzy.dfy`). The three-row table with its early exit, against the recurrence,
  and the recurrence against left-to-right edit scripts.
- **Stdio relay** (`Relay.dfy`, `HeaderCodec.dfy`, `Sse.dfy`). Reader, tasks, bounded channel and writer as a
  transition system; the header wrapper and the event reader as codecs with inverses.
- **Query printer** (`Search.dfy`), **duplicate classification** (`Prepare.dfy`), **SHA-1** (`Sha1.dfy`,
  `Sha1Example.dfy`) and **download retry loop** (`Download.dfy`).
- **Migration applier** (`Migrations.dfy`, `MigrationRuns.dfy`, `MigrationResumes.dfy`, `TableSwap.dfy`). The code
  commits exactly the durable states a function lists, for any registry and any database; the theorems are about
  those states, about histories of cut runs, and about migrations 0012 and 0019, which the runner splits into
  statements.

`Common.dfy` and `Sorting.dfy` hold the sequences, options and stable sorting the rest shares.

Where the code and what is said about it part ways, the model follows the code:

- A job whose restart lists its own manifest for deletion can lose that manifest when recovery stops at the wrong
  step; where a directory has the temporary name, it loses it even without a crash. Crash safety holds exactly for
  the other jobs, and for those of these where nothing can be saved and the manifest is the last file to go
  (`CrashSafety.CrashSafeIff`, `CrashSafety.ManifestIsKeptIffSane`). The staged PDFs are safe in every case
  (`Recovery.StagedFilesSurvive`).
- Staging listed for reconciliation is said never to be deleted. It is deleted exactly when a discarded file has
  the same staging name (`Recovery.KeptStagingIsDoomedIff`, with an input in `CrashSafety.SharedStagingIsDoomed`),
  which fresh names rule out.
- A `Cancelled` job may still hold unfinished files. `JobRuns.CancelledFilesAreTerminalIff` says exactly when, for
  each of the four steps that lead there, and `JobRuns.UnfinishedFilesWerePutBack` says which files.
- The "no progress, halve it" fallback of the string truncation is never needed, because a rewrite always
  shortens (`Truncation.ShortenedIsShorter`).
- The late look at a download's destination does not close the race it is there for: a file that appears between
  that look and the rename is replaced, and that is the only way a destination is lost
  (`Download.LateFileIsOverwritten`, `Download.Downloader.Attempts`).
- Migration 0019, run statement by statement on whatever rows a database holds, cannot be resumed once a crash
  falls between its first statement and its rename: every later run stops there, with nothing written. After the
  rename it can, if and only if no timestamp is early enough to be scaled twice (`TableSwap.CutSwapResumesIff`,
  `TableSwap.CutSwapBlocksEveryRun`, with a whole registry and database in `TableSwap.AStrandedDatabase`).

## Model

| member | source | states |
|---|---|---|
| ImportJob.Job.SetFileState | crates/internet-archive/src/job.rs:339-361 | changes exactly one file's state and the clock when the table allows the move; otherwise reports which check failed and changes nothing |
| ImportJob.Job.SetJobState | crates/internet-archive/src/job.rs:365-374 | changes the job's state and clock exactly when the job table allows it |
| ImportJob.Job.Settle | crates/internet-archive/src/job.rs:379-403 | the whole new job is the settled one: a verdict only for a running job whose files are all terminal |
| ImportJob.Job.RequestCancel | crates/internet-archive/src/job.rs:412-452 | the whole new job and the staging names to delete, per job state |
| ImportJob.Job.FinishCancelIfIdle | crates/internet-archive/src/job.rs:459-476 | moves to `Cancelled` exactly when cancelling with no busy file |
| ImportJob.Job.NormalizeAfterRestart | crates/internet-archive/src/job.rs:490-539 | the whole new job, the names to delete and the entries to reconcile |
| JobMeaning.FileTable | crates/internet-archive/src/job.rs:215-239 | the seventeen moves of a file; beyond them only a state that no move leaves may be set again, and those are the terminal ones |
| JobMeaning.JobTable | crates/internet-archive/src/job.rs:243-261 | the ten moves of a job, in the same way |
| JobMeaning.SettlesByItsFiles | crates/internet-archive/src/job.rs:379-403 | a running job with files settles once none can move: completed iff all succeeded, failed iff none did, else partial; any other job stays as it is |
| JobMeaning.RequestDoes | crates/internet-archive/src/job.rs:412-452 | a request cancels exactly the queued and verified files, touches no other, and reports exactly the staging names of the verified ones |
| JobMeaning.RequestIsIgnored | crates/internet-archive/src/job.rs:434-452 | a request in any other state changes and reports nothing |
| JobMeaning.FinishDoes | crates/internet-archive/src/job.rs:459-476 | a cancellation ends iff no file is downloading, verifying or importing, and changes only state and clock |
| JobMeaning.RunningRestartDoes | crates/internet-archive/src/job.rs:490-511 | a restart from running puts interrupted files back to the queue without their staging and an import back to verified; nothing else changes |
| JobMeaning.CancellingRestartDoes | crates/internet-archive/src/job.rs:512-537 | a restart from cancelling cancels exactly the files that could still move |
| JobMeaning.OtherRestartsDoNothing | crates/internet-archive/src/job.rs:490-539 | a restart from any other state changes and reports nothing |
| JobRuns.Perform | crates/internet-archive/src/job.rs:339-539 | every mutator moves the object exactly as the step relation moves its value |
| JobRuns.StepsFollowTheTables | crates/internet-archive/src/job.rs:215-261 | job and file states change only along the two tables, except inside a restart, where the exceptions are listed |
| JobRuns.RunsKeepTerminalStatesAndKeys | crates/internet-archive/src/job.rs:300-361 | over any run terminal states are forever, no file appears, vanishes or changes its key, and keys stay unique |
| JobRuns.SettledVerdictStaysTrue | crates/internet-archive/src/job.rs:379-403 | after any later run, the verdict `settle` gave is still the job's state and still describes the file states |
| JobRuns.CancelledFilesAreTerminalIff | crates/internet-archive/src/job.rs:365-539 | for each of the four steps that turn a job `Cancelled`, exactly when it leaves every file terminal: a restart always, the end of a cancellation iff no file waits, a request iff none is busy, a bare state change iff all were terminal |
| JobRuns.UnfinishedFilesWerePutBack | crates/internet-archive/src/job.rs:412-476 | after a request on a running job and any run, the end of the cancellation leaves a file unfinished iff its last state change was a worker move to `Queued` or `Verified` |
| JobRuns.CancelledJobCanHoldAQueuedFile | crates/internet-archive/src/job.rs:215-476 | legal calls that end in a cancelled job with a queued file |
| JobRuns.EarlyCancelCanLeaveABusyFile | crates/internet-archive/src/job.rs:412-433 | legal calls from `Draft` that end in a cancelled job with a downloading file |
| JobRuns.RaisesCostRank | crates/internet-archive/src/job.rs:215-239 | rank-raising changes are paid for by the growth of total rank plus what files may fall |
| JobRuns.RaisesAreBounded | crates/internet-archive/src/job.rs:215-239 | a run over n files with r retries and s restarts from `Running` makes at most 5n + r + 2ns rank-raising changes |
| JobRuns.RestartIsIdempotent | crates/internet-archive/src/job.rs:490-539 | a second restart changes nothing, not even the clock, and reports nothing |
| JobRuns.RunningRestartConservesStaging | crates/internet-archive/src/job.rs:490-511 | staging names before are, as multisets, the kept ones plus the reported ones |
| JobRuns.ReconcilesAreTheImportingFiles | crates/internet-archive/src/job.rs:512-530 | the entries to reconcile are exactly the importing files, in file order, each with its own index |
| JobRuns.AbandonReportsTheDiscarded | crates/internet-archive/src/job.rs:512-534 | the deletion report is exactly the names of the discarded files, in file order |
| JobRuns.CancellingRestartSplitsFiles | crates/internet-archive/src/job.rs:512-537 | each non-terminal file is either discarded or reconciled, none is both, and all end terminal |
| Recovery.PlanAchievesRecovered | crates/internet-archive/src/store.rs:305-386 | the steps of an uninterrupted recovery add up to the closed form of the recovered folder, whatever the directory order |
| Recovery.PlanIsBenignBeforeItsRename | crates/internet-archive/src/store.rs:118-136 | unless the job lists its own manifest for deletion, a plan is benign steps closed by at most one rename |
| Recovery.BenignStepsStayPending | crates/internet-archive/src/store.rs:305-386 | benign steps leave the folder in the middle of a recovery: same manifest, only doomed files gone |
| Recovery.PendingRecovers | crates/internet-archive/src/store.rs:305-386 | from the middle of a recovery, a recovery ends as it would have from the start |
| Recovery.RecoveredIsSettled | crates/internet-archive/src/store.rs:305-386 | after a complete recovery of any folder another one changes nothing, unless a directory blocked the quarantine or the save with the manifest still there; then the folder is in the middle of a recovery |
| Recovery.CrashAnywhere | crates/internet-archive/src/store.rs:305-386 | unless the job lists its own manifest for deletion: after any number of recoveries cut anywhere, one that ends leaves what a single uninterrupted run would have, and no temporary file |
| CrashSafety.CrashSafeIff | crates/internet-archive/src/store.rs:357-361 | for every readable folder, crash safety holds iff the job does not list its own manifest for deletion, or nothing can be saved and the manifest is the last file to go |
| CrashSafety.SelfDeletingManifestIsLost | crates/internet-archive/src/store.rs:357-361 | otherwise some cut loses the manifest for every later recovery, although an uninterrupted run would have kept one |
| CrashSafety.ManifestIsKeptIffSane | crates/internet-archive/src/store.rs:305-386 | the manifest survives every history of cut recoveries iff the job does not list it for deletion, blocked saves included |
| CrashSafety.BlockedSaveLosesManifest | crates/internet-archive/src/store.rs:357-385 | where a directory has the temporary name, such a job loses its manifest even without a crash |
| CrashSafety.AnInsaneFolder | crates/internet-archive/src/store.rs:357-361 | a concrete folder whose job lists its own manifest |
| CrashSafety.SharedStagingIsDoomed | crates/internet-archive/src/store.rs:268-279 | an input at which staging to be reconciled is deleted: a discarded file has the same name |
| Recovery.ManifestIsNeverTorn | crates/internet-archive/src/store.rs:118-136 | at every moment of every crash history the manifest is the whole old version, the whole version of one of the runs, or gone; never gone unless the job lists it for deletion |
| Recovery.StagedFilesSurvive | crates/internet-archive/src/store.rs:357-381 | a staged PDF that is not doomed is still there, byte for byte, after any crashes and recoveries of any folder |
| Recovery.RecoveryDeletesExactlyTheDoomed | crates/internet-archive/src/store.rs:357-381 | a staged PDF is gone after a complete recovery if and only if it is doomed (`StagedFileStaysIff` says which those are) |
| Recovery.StagedFileStaysIff | crates/internet-archive/src/store.rs:357-381 | a staged PDF is still there after a recovery of a readable folder iff some file of the job names it and no discarded file does |
| Recovery.KeptReferences | crates/internet-archive/src/store.rs:357-381 | a name no discarded file has is named by a file after the restart iff it was before |
| Recovery.JobIdShape | crates/internet-archive/src/store.rs:72-89 | a job id is five groups of 8, 4, 4, 4 and 12 lowercase hexadecimal digits joined by hyphens |
| Recovery.StagingNameShape | crates/internet-archive/src/store.rs:65-97 | a staging name is a job id followed by `.pdf` |
| Recovery.StoreNamesAfterRecovery | crates/internet-archive/src/store.rs:305-386 | what becomes of `job.json`, `job.json.tmp` and the quarantine name, for an absent, unreadable, too new or readable manifest |
| Recovery.KeptStagingIsDoomedIff | crates/internet-archive/src/store.rs:357-381 | the staging of a kept file is deleted iff a discarded file has the same staging name |
| Recovery.DeletionsAreTheDiscarded | crates/internet-archive/src/job.rs:490-534 | a name is reported for deletion iff a discarded file has it |
| Recovery.DistinctNamesProtectKeptStaging | crates/internet-archive/src/store.rs:65-67 | with fresh names no verified or to-be-reconciled file loses its staging |
| Store.JobStore.WriteJobAtomic | crates/internet-archive/src/store.rs:118-136 | performs exactly the four save steps, or none when the temporary name is a directory |
| Store.JobStore.RecoverEntry | crates/internet-archive/src/store.rs:294-386 | one entry's verdict, reconcile entries, final folder and steps |
| Store.JobStore.RecoverAll | crates/internet-archive/src/store.rs:280-393 | every entry ends as specified, the report gathers the verdicts in order, and the trace is one honest plan per folder |
| Store.ReportCountsTheRoot | crates/internet-archive/src/store.rs:280-393 | each root entry is counted in exactly one report list |
| Store.ReportFollowsVerdicts | crates/internet-archive/src/store.rs:300-386 | and it is in the list its verdict names |
| Store.NamesInReport | crates/internet-archive/src/store.rs:294-356 | an entry is quarantined, unsupported or skipped in the report iff what is on disk under its name says so |
| Store.JobsInReport | crates/internet-archive/src/store.rs:305-386 | the jobs in the report are exactly the readable ones that can be saved or need no saving, each restarted |
| Store.ReconcilesInReport | crates/internet-archive/src/store.rs:341-386 | the entries to reconcile are exactly the imports that cancelling jobs were in the middle of |
| Store.RestoredIsOnDisk | crates/internet-archive/src/store.rs:341-386 | a restored job is what its folder then holds |
| Store.SortsKeepTheReport | crates/internet-archive/src/store.rs:388-391 | the closing sorts permute the report and order it |
| Store.ReportIsOrdered | crates/internet-archive/src/store.rs:388-391 | jobs by their id, entries by the id of their job and then by their place in it |
| Store.UnrestoredEntriesLoseNoPdf | crates/internet-archive/src/store.rs:300-386 | entries that are not restored lose no staged PDF, except that a folder skipped because its job could not be saved loses exactly the doomed ones |
| Store.SweepCrashIsFolderCrash | crates/internet-archive/src/store.rs:293-386 | a sweep of the whole root cut after any step or inside a write is, for each folder, a recovery cut so |
| Store.HistoryOfOneFolder | crates/internet-archive/src/store.rs:293-386 | a history of sweeps, each complete or cut anywhere, is for each folder a history of such recoveries |
| Store.StagedFilesSurviveEveryHistory | crates/internet-archive/src/store.rs:293-386 | over any history of recoveries of the whole store no staged PDF outside the doomed set is lost |
| Store.KeptFilesSurviveEveryHistory | crates/internet-archive/src/store.rs:293-393 | data safety: with distinct staging names, every file verified after the restart and every file to be reconciled, if its own staging name is well formed, keeps its staged PDF over any history of recoveries and crashes of the whole store |
| Store.JobStore.Restore | crates/internet-archive/src/store.rs:341-386 | one readable job: normalized, its discarded and orphaned staging deleted, saved if it changed, with the steps in that order |
| Vecscan.DotI8 | crates/vecscan/src/lib.rs:229-243 | the lane-split sum equals the plain dot product and no partial sum leaves 32 bits |
| Vecscan.DotFitsIff | crates/vecscan/src/lib.rs:229-243 | all quantized rows of a length have a 32-bit product if and only if the length is at most 133144 |
| Vecscan.QuantizeInto | crates/vecscan/src/lib.rs:203-220 | appends a whole row and returns its scale exactly for finite nonzero vectors; otherwise appends nothing |
| Vecscan.QuantMatrix.Push | crates/vecscan/src/lib.rs:80-90 | appends exactly one row with its scale and group, and stands for one more vector, or refuses and leaves all as it was |
| Vecscan.QuantMatrix.PushBlob | crates/vecscan/src/lib.rs:64-77 | the same for a blob, refused unless it holds exactly `dims` usable components |
| Vecscan.QuantMatrix.Scan | crates/vecscan/src/lib.rs:96-139 | the pruned, batched scan returns exactly the first `keep` of all allowed rows; for at most 2^32 rows: by falling score and, at equal scores, rising row number, and every allowed row left out has a lower score than the last, or the same and a higher number |
| Vecscan.TopKIsRanking | crates/vecscan/src/lib.rs:107-138 | the same of the specification, in scores and row numbers alone |
| Vecscan.RoundIsNearest | crates/vecscan/src/lib.rs:218-218 | rounding gives the nearest integer, and of two the one farther from zero |
| Vecscan.BelowFloorChangesNothing | crates/vecscan/src/lib.rs:126-128 | skipping a row below the floor leaves the top-k of everything seen unchanged |
| Vecscan.PushKeepsShortlist | crates/vecscan/src/lib.rs:129-129 | pushing a hit keeps the batch a faithful stand-in for everything seen |
| Vecscan.CutKeepsShortlist | crates/vecscan/src/lib.rs:130-134 | so does sorting, cutting and raising the floor |
| Shortlist.ComponentError | crates/vecscan/src/lib.rs:217-219 | a quantized component is within half a scale of the unit component |
| Shortlist.ScoreError | crates/vecscan/src/lib.rs:125-125 | a score is within dims * (sq/2 + sv/2 + sq*sv/4) of the exact cosine |
| Vecscan.LeftOutIsWorse | crates/vecscan/src/lib.rs:136-138 | a hit left out of the top `keep` is no better than any in it, and the list is full |
| Shortlist.ShortlistGuarantee | crates/vecscan/src/lib.rs:96-139 | an allowed row missing from the result has exact cosine at most 2*eps above that of every returned row |
| Shortlist.ScanGuarantee | crates/vecscan/src/lib.rs:64-139 | the same for a matrix filled by its own methods: of the vectors added to it, none that a scan leaves out is more than 2*eps better than a returned one |
| Rerank.UnitQuery | crates/vecscan/src/lib.rs:143-158 | gives the unit vector exactly for finite nonzero queries |
| Rerank.UnitVectorHasLengthOne | crates/vecscan/src/lib.rs:142-158 | that vector has length one |
| Rerank.Sums | crates/vecscan/src/lib.rs:168-194 | the eight-lane sums equal the plain dot product and the plain sum of squares |
| Rerank.UnitSimilarityBlob | crates/vecscan/src/lib.rs:164-199 | gives dot over norm exactly for usable blobs of the right length |
| Rerank.RerankIsExact | crates/vecscan/src/lib.rs:160-199 | for a unit query that is the exact cosine the shortlist is measured against |
| Truncation.TruncateOptString | crates/internet-archive/src/provenance.rs:158-193 | rewrites a string exactly when it is longer than the 13 bytes of the marker, and keeps ahead of the marker the longest run of whole characters that loses no more than the excess and 77 bytes |
| Truncation.BoundaryBelow | crates/internet-archive/src/provenance.rs:172-176 | stepping down from the target stops at the longest prefix of whole characters |
| Truncation.ShortenedIsShorter | crates/internet-archive/src/provenance.rs:178-190 | a rewritten string is strictly shorter, so the halving fallback never runs |
| Truncation.ShortenedFitsOrIsMarker | crates/internet-archive/src/provenance.rs:158-193 | a rewrite frees at least the excess in escaped bytes, or leaves the bare marker |
| Truncation.TruncateList | crates/internet-archive/src/provenance.rs:197-229 | rewrites a list exactly when it holds an entry that is not the marker, and drops the least number of entries whose average share exceeds the excess, or all of them where no number does |
| Truncation.ShortenedKeepsAllItMay | crates/internet-archive/src/provenance.rs:158-193 | what a string rewrite keeps is maximal: one more character would pass the budget of excess, slack and marker |
| Truncation.TrimmedDropsNoMoreThanNeeded | crates/internet-archive/src/provenance.rs:197-229 | what a list rewrite drops is minimal |
| Truncation.MarkerLen | crates/internet-archive/src/provenance.rs:24-27 | the marker is a horizontal ellipsis and `[truncado]`, 13 bytes plain and escaped |
| Truncation.RightsRewrite | crates/internet-archive/src/provenance.rs:291-313 | one rewrite of the rights makes the whole value fit or leaves exactly the marker |
| Truncation.TitleRewrite | crates/internet-archive/src/provenance.rs:291-313 | one rewrite of the title makes the whole value fit or leaves exactly the marker |
| Truncation.RewritesWithinBudget | crates/internet-archive/src/provenance.rs:291-313 | the loop stops within one rewrite per string that can shrink and per list entry |
| Truncation.NoStringIsRewrittenTwice | crates/internet-archive/src/provenance.rs:291-313 | along the whole loop the rights are rewritten at most once, and so is the title |
| Truncation.TurnsThatRewrite | crates/internet-archive/src/provenance.rs:297-302 | the turns counted there are exactly those that change the string |
| Truncation.RunKeepsShape | crates/internet-archive/src/provenance.rs:291-313 | every field is a prefix of the original plus the marker, and is touched only when all earlier ones are minimal |
| Truncation.FailureIsFullyTruncated | crates/internet-archive/src/provenance.rs:291-313 | the loop fails only with everything truncated and still over the limit |
| Provenance.PrintingChargesStrings | crates/internet-archive/src/provenance.rs:288-313 | in the serialized document a string costs its escaped length and nothing else depends on it |
| Json.LengthIsOfTheText | crates/internet-archive/src/provenance.rs:288-296 | the length measured is the number of bytes of the printed JSON text |
| Json.TextIsRead | crates/internet-archive/src/provenance.rs:288-290 | the escapes of section 7 of RFC 8259 that the printer uses read back as the string |
| Provenance.BuildProvenance | crates/internet-archive/src/provenance.rs:240-314 | the four errors exactly when they apply, else the document the loop ends on, whose printed text takes at most 65536 bytes; the size error only if even the fully truncated text takes more |
| Provenance.FewRewrites | crates/internet-archive/src/provenance.rs:291-313 | at most 2 + creators + collections + languages rewrites |
| Provenance.FinalShape | crates/internet-archive/src/provenance.rs:291-313 | the shape and order of truncation, for built documents |
| Provenance.TooLargeMeansHopeless | crates/internet-archive/src/provenance.rs:291-313 | `TooLarge` implies that even the fully truncated document does not fit |
| Provenance.IdentityRoundTrip | crates/internet-archive/src/provenance.rs:348-363 | reading a document back returns identity, checksums, size, mtime and page count, whatever its free text |
| Provenance.BuiltValueIdentifiesTheFile | crates/internet-archive/src/provenance.rs:240-314 | so a built value, however much was cut, identifies the verified file |
| Provenance.BuiltValueHoldsTheRecord | crates/internet-archive/src/provenance.rs:240-290 | every other field of the file and of the item snapshot is found under its own key; the free text too if nothing had to be cut |
| Text.DecimalIsRead | crates/internet-archive/src/provenance.rs:317-334 | a printed number is read back as itself if it fits in 64 bits |
| Text.WhitespaceTable | crates/internet-archive/src/search.rs:84-84 | white space is the twenty-five code points of the Unicode property |
| Text.TrimMeans | crates/internet-archive/src/provenance.rs:317-334 | trimming takes white space, and nothing else, from both ends as far as it goes |
| Fuzzy.LengthGapBound | packages/store/src/fuzzy.ts:69-70 | the distance is at least the difference in length, so the first exit is sound |
| Fuzzy.NextRowIsNoLower | packages/store/src/fuzzy.ts:75-90 | a row is nowhere below the least value of the row before, although swaps skip that row |
| Fuzzy.RowsNeverRecover | packages/store/src/fuzzy.ts:75-90 | so once a whole row exceeds a bound, the distance does |
| Fuzzy.EditDistance | packages/store/src/fuzzy.ts:69-93 | at most `max` if and only if the distance is, and then equal to it |
| Fuzzy.NoScriptIsCheaper | packages/store/src/fuzzy.ts:69-93 | no left-to-right edit script costs less than the distance |
| Fuzzy.SomeScriptAchieves | packages/store/src/fuzzy.ts:69-93 | some script costs exactly the distance |
| Fuzzy.OsaIsLeastScriptCost | packages/store/src/fuzzy.ts:69-93 | the distance is the least cost of a script that turns one string into the other |
| Fuzzy.PickVariants | packages/store/src/fuzzy.ts:110-141 | with its early exits the picker returns the list the unbounded distance defines; for any total collation that is the correction and the at most eight misreadings that no other eligible entry precedes by distance, then documents, then collation |
| Fuzzy.VariantsAreThePick | packages/store/src/fuzzy.ts:101-141 | the same of the specification, on vocabulary entries and distances alone: nothing eligible that is left out goes before anything returned, and misreadings are left out only when eight are returned |
| Fuzzy.EditsByLength | packages/store/src/fuzzy.ts:56-61 | how many edits a term of each length allows |
| Fuzzy.VariantsIgnoreVocabularyOrder | packages/store/src/fuzzy.ts:101-141 | the list does not depend on the order the vocabulary is iterated in, if the collation tells its terms apart |
| Fuzzy.VariantsAreNearbyTerms | packages/store/src/fuzzy.ts:110-141 | at most nine terms, each a vocabulary term within the allowed distance, never the needle |
| Relay.Handle | crates/entropia-agent-connector/src/relay.rs:270-333 | the lines one message produces: for a request the JSON documents of its outcome, in order, and one error line with its id iff there is none |
| Relay.LinesAnswer | crates/entropia-agent-connector/src/relay.rs:270-333 | the same of the specification, in documents and ids alone |
| Relay.LineCounts | crates/entropia-agent-connector/src/relay.rs:270-333 | one line for an unparsable line or a plain request, none for a notification, at least one for a streamed request |
| Relay.InvariantHolds | crates/entropia-agent-connector/src/relay.rs:199-267 | in every reachable state each message's lines are split between its task, the queue and the output without loss |
| Relay.BoundedInFlight | crates/entropia-agent-connector/src/relay.rs:213-233 | at most 64 messages are in flight whenever the reader is about to read, 65 when it waits; at most 64 lines are in the channel, and a task sends iff there are fewer |
| Relay.OutputIsCompleteMerge | crates/entropia-agent-connector/src/relay.rs:234-267 | on return with an unbroken writer the output is a merge of every message's complete lines in their own order, and those lines answer it |
| Relay.BrokenByAFailedWrite | crates/entropia-agent-connector/src/relay.rs:245-267 | the writer breaks iff some write of the run fails |
| Relay.EveryLineIsWritten | crates/entropia-agent-connector/src/relay.rs:199-267 | so a finished run without a failed write has written the answer to every message |
| Relay.OutputIsAlwaysAPrefix | crates/entropia-agent-connector/src/relay.rs:245-267 | at any moment, broken writer or not, the output is an initial part of what was sent |
| Relay.NeverStuck | crates/entropia-agent-connector/src/relay.rs:199-267 | until the relay has returned, some step is enabled |
| Relay.EveryStepDescends | crates/entropia-agent-connector/src/relay.rs:199-267 | every step lowers a well-founded rank, so every run of a finite input ends |
| HeaderCodec.Base64RoundTrip | crates/entropia-agent-connector/src/relay.rs:92-95 | base64 of section 4 of RFC 4648 is inverted by its reader |
| HeaderCodec.HeaderRoundTrip | crates/entropia-agent-connector/src/relay.rs:84-99 | every value is recovered, including values that already look wrapped |
| HeaderCodec.HeaderEncodingIsInjective | crates/entropia-agent-connector/src/relay.rs:84-99 | no two values share an encoding |
| HeaderCodec.HeaderIsVisible | crates/entropia-agent-connector/src/relay.rs:81-99 | every header is visible ASCII, with spaces only inside |
| HeaderCodec.PlainValuesAreUnchanged | crates/entropia-agent-connector/src/relay.rs:81-99 | a value goes as it is iff it is visible ASCII without a space at an edge and does not look wrapped |
| HeaderCodec.OthersAreWrapped | crates/entropia-agent-connector/src/relay.rs:91-98 | every other value goes as the base64 of its UTF-8 bytes between `=?base64?` and `?=` |
| HeaderCodec.Vectors | crates/entropia-agent-connector/src/relay.rs:92-95 | vectors of section 10 of RFC 4648 and a group from each part of its alphabet |
| Text.Utf8RoundTrip | crates/entropia-agent-connector/src/relay.rs:92-95 | the UTF-8 bytes that base64 carries determine the string |
| Text.Utf8Shape | crates/entropia-agent-connector/src/relay.rs:92-95 | lead and continuation bytes are in the ranges of section 3 of RFC 3629 |
| Sse.ParseSse | crates/entropia-agent-connector/src/relay.rs:535-562 | the loop yields the events that feeding the lines one by one defines |
| Sse.EventIsRead | crates/entropia-agent-connector/src/relay.rs:535-562 | one printed event completes exactly that event, whatever follows |
| Sse.SseRoundTrip | crates/entropia-agent-connector/src/relay.rs:535-562 | any list of events of clean lines is recovered from its printed form |
| Sse.WhatALineDoes | crates/entropia-agent-connector/src/relay.rs:535-562 | a blank line ends an event, a `data:` line adds to it, and no other line counts |
| Sse.HowLinesEnd | crates/entropia-agent-connector/src/relay.rs:535-562 | a carriage return before the line feed belongs to the line end, and the last line needs none |
| Sse.JoinedLinesSplit | crates/entropia-agent-connector/src/relay.rs:535-562 | the lines of an event, joined, can be told apart again |
| Search.TwoPassesAreOne | crates/internet-archive/src/search.rs:121-124 | escaping backslashes and then quotes equals escaping both in one pass |
| Search.ToLucene | crates/internet-archive/src/search.rs:82-116 | the errors exactly when they apply, else the printed clauses joined by ` AND ` |
| Search.ClauseRoundTrip | crates/internet-archive/src/search.rs:82-124 | a reader of clauses recovers each printed clause, whatever follows it |
| Search.QueryRoundTrip | crates/internet-archive/src/search.rs:82-116 | and the whole printed query, as exactly its clauses in order |
| Search.PrintedQueryMeansItsClauses | crates/internet-archive/src/search.rs:82-178 | so no literal can change the structure of a query |
| Search.ClausesAreInOrder | crates/internet-archive/src/search.rs:82-116 | the words of the text come first, one by one, then at most one clause for each field, the years and the media type, in that order |
| Search.FieldsSayTheQuery | crates/internet-archive/src/search.rs:88-116 | each field, the years and the media type turn up exactly as the clause that asks for them |
| Search.WordsAreRuns | crates/internet-archive/src/search.rs:84-87 | the words are the maximal runs without white space |
| Search.RefusedQueries | crates/internet-archive/src/search.rs:82-178 | a query is refused iff its collection is malformed, a year has five digits, the years are reversed or it asks for nothing, in this order of precedence |
| Prepare.Classify | crates/internet-archive/src/prepare.rs:284-339 | the status satisfies the order-free rule on the records found |
| Prepare.StatusIsDetermined | crates/internet-archive/src/prepare.rs:284-339 | that rule has one answer, fixed by which records there are, ties and order aside |
| Prepare.VersionsAreCompared | crates/internet-archive/src/prepare.rs:231-249 | MD5 decides if both sides have one, else SHA-1, else size and time together, else nothing does; digests compare without regard to case |
| Prepare.StatusMeans | crates/internet-archive/src/prepare.rs:284-339 | each answer exactly when the records inside and outside the target collection say so |
| Prepare.StatusNames | crates/internet-archive/src/prepare.rs:284-339 | the item named is that of the first such record by item, then by collection |
| Prepare.Summarize | crates/internet-archive/src/prepare.rs:414-468 | one row per file in input order, each classified if and only if available, with exact counters and a capped byte total |
| Prepare.CountersPartition | crates/internet-archive/src/prepare.rs:414-468 | the counters partition the files by availability and the available ones by status, and so do the bytes |
| Prepare.CountersMeanTheirNames | crates/internet-archive/src/prepare.rs:414-468 | each counter is the number of rows its name says |
| Prepare.EstimatedSyncBytes | crates/internet-archive/src/prepare.rs:378-391 | min(2^64 - 1, twice the exact bytes of the files to import) |
| Prepare.InOtherCollectionBytes | crates/internet-archive/src/prepare.rs:395-406 | the same for the undecided files |
| Sha1.Pad | crates/internet-archive/src/verify.rs:160-166 | the padding of section 5.1.1 of FIPS 180-4 |
| Sha1.ChWithOr | crates/internet-archive/src/verify.rs:183-183 | the choice function written with or equals Ch of section 4.1.1 |
| Sha1.MajWithOr | crates/internet-archive/src/verify.rs:185-185 | the majority function written with or equals Maj of section 4.1.1 |
| Sha1.Schedule | crates/internet-archive/src/verify.rs:168-179 | the message schedule of section 6.1.2 |
| Sha1.Rounds | crates/internet-archive/src/verify.rs:180-199 | the eighty turns of section 6.1.2, with the variables shifted one by one |
| Sha1.Compress | crates/internet-archive/src/verify.rs:167-205 | one block turns an intermediate hash value into the next |
| Sha1.Sha1Hex | crates/internet-archive/src/verify.rs:152-210 | the digest of FIPS 180-4 in lowercase hexadecimal |
| Sha1Example.DigestOfAbc | crates/internet-archive/src/verify.rs:390-393 | the digest of "abc" is the published one, with every constant, index and rotation spelled out |
| Sha1.DigestIsRead | crates/internet-archive/src/verify.rs:206-209 | the forty digits read back as the five words |
| Sha1.Padded | crates/internet-archive/src/verify.rs:160-166 | extends the message to a multiple of 64 bytes |
| Sha1.PaddingIsInjective | crates/internet-archive/src/verify.rs:160-166 | messages shorter than 2^61 bytes never pad to the same bytes |
| Sha1.BitLengthWraps | crates/internet-archive/src/verify.rs:161-161 | the length field counts bits modulo 2^64 |
| Download.Clamped | crates/internet-archive/src/download.rs:35-48 | 524288000 bytes by default, a request from 1 to 2147483648 as asked, and 2147483648 for any other |
| Download.CapIsAboutTotals | crates/internet-archive/src/download.rs:329-344 | the byte counter passes the cap after some chunk iff it does for the whole body |
| Download.Downloader.StreamToPartial | crates/internet-archive/src/download.rs:321-350 | the outcome follows from the body's total size, and a stored body is in the partial file whole |
| Download.Downloader.Rename | crates/internet-archive/src/download.rs:273-286 | the partial file becomes the destination, replacing whatever was there |
| Download.Downloader.Try | crates/internet-archive/src/download.rs:201-307 | one turn: repeated exactly on a transient answer with retries left, else the verdict of that answer and no partial file |
| Download.Downloader.Attempts | crates/internet-archive/src/download.rs:199-309 | at most max_retries + 1 fetches, the first answer that is not transient decides, and a destination is ever replaced only by losing the rename race |
| Download.Downloader.DownloadFileWithRetry | crates/internet-archive/src/download.rs:146-310 | early refusals leave both files alone; otherwise no partial file is left, at every moment it was an old leftover or within the cap, and no destination is replaced if none appears after the late look |
| Download.DeciderIsFirst | crates/internet-archive/src/download.rs:199-309 | the deciding answer is the first that is not transient, or the last one allowed |
| Download.TransientMeans | crates/internet-archive/src/download.rs:199-309 | asked again: a network failure, a status from 500 to 599, and a body cut short within the cap |
| Download.FailuresMean | crates/internet-archive/src/download.rs:201-307 | which error each other answer is reported as |
| Download.SuccessIsTheWholeBody | crates/internet-archive/src/download.rs:263-286 | success iff a whole body arrived within the cap with nothing in the way, and then the destination is that body |
| Download.LateFileIsOverwritten | crates/internet-archive/src/download.rs:264-285 | a file that appears after the late look is replaced |
| Migrations.Client.RunStatements | packages/store/src/runner.ts:393-409 | commits one state per statement up to the first that fails, tolerating a duplicate column, and says whether all passed |
| Migrations.Client.ApplyNext | packages/store/src/runner.ts:307-427 | commits exactly the durable states of one migration, its record last, and says whether it came that far |
| Migrations.Client.ApplyMigrations | packages/store/src/runner.ts:285-428 | for any registry and database, commits exactly the durable states of a run and names the migration it stops at |
| Migrations.Client.ApplyDespiteCrashes | packages/store/src/runner.ts:285-428 | cut after any commit any number of times, its restarts form a history, and the last run is the run from there |
| Migrations.PendingIsWhatIsMissing | packages/store/src/runner.ts:298-305 | pending is exactly what this build knows and the database has not recorded, in order |
| Migrations.RunMigrations | packages/store/src/runner.ts:444-464 | the gate lists exactly the known migrations that are not recorded, in order, and passes iff there are none |
| MigrationRuns.PendingIsTheRest | packages/store/src/runner.ts:298-305 | what is pending after a sorted prefix is the rest, in order |
| MigrationRuns.RecordNext | packages/store/src/runner.ts:412-416 | recording the next migration extends the prefix |
| MigrationRuns.TrailKeepsPrefix | packages/store/src/runner.ts:307-427 | every durable state of a run from a sorted prefix holds a sorted prefix that is no shorter |
| MigrationRuns.HistoryKeepsPrefix | packages/store/src/runner.ts:285-428 | however often the applier is cut, the registry stays a sorted prefix and never shrinks; distinct names are enough |
| MigrationRuns.BatchIsAtomic | packages/store/src/runner.ts:385-391 | a single-batch migration commits once, schema and record together, or not at all |
| MigrationRuns.RepairOf0032 | packages/store/src/runner.ts:312-391 | 0032 when next: burned, only recorded; occupied, refused with nothing written; half there and empty, dropped, replayed and recorded in one commit |
| MigrationRuns.FreshIsConsistent | packages/store/src/runner.ts:285-300 | an empty database starts out consistent |
| MigrationRuns.HalfApplied0032Fits | packages/store/src/runner.ts:312-350 | a database that an early build left with 0032 whole or half there, unrecorded, is consistent |
| MigrationRuns.RunEndsAtReplay | packages/store/src/runner.ts:307-428 | an uncut run from a consistent database ends with everything recorded and the schema of a replay iff a replay exists and 0032 is not refused; else it stops at the migration where a replay stops, or at the refusal |
| MigrationRuns.DurableStates | packages/store/src/runner.ts:307-428 | a crash leaves the schema at the replay of the recorded prefix, where the run found it, or inside one statement-by-statement migration |
| MigrationRuns.CrashHistoryEndsAtReplay | packages/store/src/runner.ts:285-428 | over any history of cut runs in which no cut fell inside a migration that does not heal from there, the next full run ends as an uncut one, and an occupied 0032 is untouched |
| MigrationRuns.CutInsideMigration | packages/store/src/runner.ts:393-416 | a cut inside a migration, exactly: the next run stops there iff its statements fail on the half-run schema, and records the replay iff running them again gives what running them once would |
| MigrationRuns.MarkedMigrationsReplay | packages/store/src/runner.ts:399-409 | a migration whose statements leave lasting marks and do nothing where their mark is ends, from any cut, where it would have ended uncut |
| MigrationRuns.MarkedCutsAreHarmless | packages/store/src/runner.ts:399-409 | so a cut inside such a migration is harmless, also after earlier cuts |
| MigrationRuns.ColumnsAreAdded | packages/store/src/runner.ts:399-409 | a migration that adds columns ends with them all, whichever of them are already there |
| MigrationRuns.AddedColumnsLeaveMarks | packages/store/src/runner.ts:399-409 | so a cut inside it is harmless |
| MigrationResumes.ResumedRunEndsAsUncut | packages/store/src/runner.ts:285-428 | on any database that holds a sorted prefix: a run resumed after a cut ends at the same failure, or with the same database, as the uncut run, if the migration at hand records what it would have recorded uncut |
| MigrationResumes.CrashHistoryEndsAsUncut | packages/store/src/runner.ts:285-428 | the same over any history of cuts |
| MigrationResumes.CutsBetweenMigrationsResume | packages/store/src/runner.ts:307-427 | a cut with no statement-by-statement migration at hand always resumes so |
| MigrationResumes.MarkedCutsResume | packages/store/src/runner.ts:399-409 | so does a cut inside a migration whose statements leave lasting marks |
| TableSwap.TableSwapReplaysIff | packages/store/src/migrations/0019_llm_results_target_type.sql:1-33 | each cut of 0019: run again it fails up to the rename, and after it ends as uncut iff no timestamp lies strictly between 0 and 10^9 |
| TableSwap.CutSwapBlocksEveryRun | packages/store/src/runner.ts:393-416 | whatever rows a database holds: cut inside 0019 before its rename, it stays there, as every run stops at 0019 and writes nothing |
| TableSwap.CutSwapHealsIff | packages/store/src/runner.ts:393-416 | whatever rows it holds: cut after the rename, the next run records what the uncut one would iff no timestamp lies strictly between 0 and 10^9 |
| TableSwap.CutSwapResumesIff | packages/store/src/runner.ts:393-416 | a run of 0019 over any rows can be cut after each statement, and resumes as uncut iff none was run, or the rename was and no timestamp lies strictly between 0 and 10^9 |
| TableSwap.CutSwapRecords | packages/store/src/runner.ts:393-416 | what a cut after the rename records: the swap over rows that are scaled already |
| TableSwap.CreateEndsWith | packages/store/src/migrations/0012_llm_results.sql:1-8 | 0012 leaves a table that is there alone and makes an empty one otherwise |
| TableSwap.CutCreateResumes | packages/store/src/migrations/0012_llm_results.sql:1-8 | a cut inside 0012, whose statements create only what is missing, resumes on any database |
| TableSwap.AStrandedDatabase | packages/store/src/runner.ts:393-428 | a registry with 0012 and 0019, a database with one result in it, and a durable state of its run that no later run gets past |

## Left out

- Import jobs: building a file from a PDF entry, and `create`, `save`, `load`, `remove_job` and the path helpers of the store.
- Worker writes to `staging_name` and the other payload fields of a file are arbitrary steps; the rules by which the application makes them are not modelled.
- Recovery: the JSON reader and writer are a pair of functions of which only "reading what was written gives it back" is assumed.
- Recovery: deletions that the operating system refuses, and write-back caches. A rename is atomic and a deletion succeeds on a file; names follow Unix rules, with `/` as the only separator.
- Recovery: the reconcile report is not claimed to survive a crash after the save; only the staged PDF is.
- Vecscan: IEEE rounding, NaN, overflow to infinity and the decoding of bytes. Values are reals or "not finite", and the square root is a function with the defining property.
- Vecscan.QuantMatrix.Scan: stated for at most 133144 dimensions, the exact limit of the 32-bit dot product (`Vecscan.DotFitsIff`); overflow of `keep * 4` and of capacities is not modelled.
- Shortlist.ScanGuarantee: for at most 2^32 rows, because the code cuts row numbers to 32 bits.
- Shortlist.ShortlistGuarantee: for at most 2^32 rows, for the same reason.
- Provenance: numbers are naturals, so negative or fractional JSON numbers, which the reader ignores, do not occur; how the two URLs are built is a parameter.
- Fuzzy: Unicode normalization and `localeCompare` are parameters; `matchText` is left out.
- Fuzzy.VariantsIgnoreVocabularyOrder: assumes that the collation is a total order without ties among the vocabulary terms; tied terms keep the order they are iterated in.
- Relay: reading errors, panicking tasks, the HTTP exchange, remembering the protocol version and diagnostics. Identifiers are opaque numbers, and a line that a breaking writer leaves half written is not part of the output.
- Search: the URL of a search, paging and the reading of results.
- Prepare.Summarize: the stored row keeps the whole file entry, of which the code keeps four fields; file counters are unbounded.
- SHA-1: the other checks on a staged PDF, and MD5, SHA-256 and PDF parsing.
- Download: the checks on identifier, remote name and base address are two parameters, waiting between attempts has no effect, deletions succeed, and chunks arrive as a finite list.
- Migrations: SQL is a function on an abstract schema. All 0032 sentinels together are taken to mean that 0032 is complete, and no other program writes to the database. Migration names are ASCII, so code-unit order is character order.
- Migrations.Client.ApplyMigrations: errors from reading the registry and a failing insert of a registry row are not modelled.
- TableSwap: of `llm_results` only timestamps and indexes are modelled; the target types are recomputed from other tables and do not change on a second run.
- User interface, sync, keyring, network policy, name sanitizers and the manual generator.
