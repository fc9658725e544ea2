# Pawket: a verified model of its row protocols

Pawket is a commission marketplace. Most of it is wiring, but a handful of components are real
protocols over shared rows: several processes change the same row, an object store answers late,
and a promise has to hold over every interleaving. This project models those components in Dafny
and proves what they promise.

Each SQL statement, or each transaction that locks the row it works on, is one step. Clocks,
object stores, scanners, other workers and the answers of other modules are inputs that may take
any value the source allows. Tables that the source updates in place are classes; every method of
such a class is proved against a function on the table's value, and the promises are lemmas about
that function over every run.

| file | component |
|---|---|
| `FileSignature.dfy`, `ScanDecision.dfy` | the streaming file inspector and what one scan decides |
| `FileRows.dfy`, `FileDatabase.dfy` | the file table: its statements, its checks and its update trigger |
| `FileLifecycle.dfy`, `FileStatements.dfy` | one commission file: uploader, scan workers, sweeps and the object store, interleaved, and the SQL behind each step |
| `FileRetention.dfy` | how long an attached file is kept |
| `FileGuarantees.dfy`, `FileAttempts.dfy`, `FileProgress.dfy` | what holds over every run of a file, when a statement can be refused, and that no file is stuck |
| `FileHistory.dfy`, `FileEnds.dfy`, `FilePurge.dfy` | every column of a file's row read off its history, when and why a file ended, and what its quarantine mark means |
| `FileScan.dfy` | what one undisturbed scan comes to |
| `FileFleet.dfy`, `FileBacklog.dfy`, `FileOverload.dfy` | many files under concurrent maintenance rounds, how long one can be passed over, and how large the table may be |
| `Attachment.dfy` | attaching files to briefs, messages, submissions and refund records |
| `Keyset.dfy`, `SweepCursor.dfy` | keyset paging and the fairness of the maintenance sweep |
| `PublicDirectory.dfy` | the public creator directory and the sitemap |
| `CatalogPublication.dfy`, `CatalogCommands.dfy`, `CatalogHistory.dfy` | handles, publication and the discovery projection, and what commands amount to over time |
| `ShowcaseOrder.dfy` | reordering showcases under a unique index |
| `CapabilityFence.dfy` | publish, suspend, remove and reinstate under row locks |
| `RetentionFence.dfy` | sorted advisory locks and deadlock freedom |
| `CreatorApplication.dfy` | creator applications and their review |
| `Idempotency.dfy`, `ReplayReference.dfy` | exactly-once commands and the references they replay |
| `Outbox.dfy` | the lease-based outbox queue |
| `SecurityThrottle.dfy`, `BusinessCalendar.dfy` | the attempt throttle and business-day arithmetic |

Several promises turned out to hold only under a condition; each has the exact condition as a
lemma and a run or an input that shows the failure:

- No statement on a file is refused by the table's checks if and only if sweeps do not recover
  overdue rows and clocks are read in order (`FileAttempts.NeverRefusedExactly`). The check that
  breaks is the one on the number of scan attempts; for a sweep it fails the whole batch.
- A sweep recovers an overdue row only when its own failing pass left the row out of a full batch.
  So with clocks in order nothing is ever refused if and only if all files fit into one batch; or
  into 854 batches, when no row changes between the select and the update of a failing pass
  (`FileOverload.SafeSizeExactly`). With one file more than a batch, workers that claim the batch
  between the two statements, round after round, lead to a refusal on current clocks
  (`FileOverload.DisturbanceOverloads`); with claims on readings ten minutes older than those of
  rounds in progress a single file does (`FileOverload.OldClaimsOverload`).
- Maintenance can bring a file to its final purge if and only if the file is not attached, or its
  order ends its retention, unheld and in enforce mode (`FileProgress.PurgedExactly`).
- An outbox mark lands if and only if its worker holds the event; a stale mark of a worker that has
  claimed the event again lands too (`Outbox.MarkLandsExactly`, `Outbox.StaleMarkLands`).
- A worker superseded after its copy intent still starts its copy, and only then
  (`FileGuarantees.SupersededCopiesExactly`): that is why the purge waits 24 hours.
- A seek on untruncated times continues behind a page if and only if its last row's time is a whole
  millisecond (`SweepCursor.RawContinuesExactly`); otherwise it can read one page for ever. The
  purge truncates; retention does not, and is fair because attachment times come from a
  millisecond clock.
- A published head without an active capability is impossible if and only if the creator's page
  row exists before the suspension looks for it (`CapabilityFence.SafeExactlyWithPage`): with no
  row there is nothing to lock, and a page created and published before the suspension commits
  keeps its head.
- The directory walk lists every visible creator if and only if no page of it passes over one that
  was loaded in the same batch of 48 as a page whose media contradict its revision
  (`PublicDirectory.WalkMissesExactly`; `PublicDirectory.SitemapListsEveryone` for the sitemap).
- A publication replays as it was if and only if its instant is not before 1970: the parser accepts
  digits only (`ReplayReference.PublishRoundTrip`).
- The final purge mark leaves no bytes behind when every copy takes effect within 24 hours of the
  row's end; any version that survives it is from a later copy, and one such run is exhibited
  (`FileGuarantees.OnlyLateCopiesSurvive`, `FileGuarantees.LateCopySurvivesTheFinalMark`).
- The final mark of a file with a copy intent is sure to come 24 hours or more after the step that
  ended the file if and only if that step dated the end with the store's clock
  (`FileEnds.DayIsFullExactly`). Owners, maintenance
  and retention date it with their own reading; a worker records the reading of its claim or scan,
  and a result recorded late shortens the wait by as much (`FileEnds.LateResultShortensTheDay`).

Two statements are sharper than what the source says: the throttle lets at most `2 * max - 1`
attempts through in any interval of the window's length (`max` for a window of one millisecond),
which every policy can reach; and the date n business days after a start is the least with n
business days behind it, since every following non-business day has the same count.

## Model

| member | source | states |
|---|---|---|
| FileSignature.Inspector.constructor | packages/commission-files/src/file-signature.ts:32-36 | a new inspector has seen nothing and is not finished |
| FileSignature.Inspector.Update | packages/commission-files/src/file-signature.ts:37-48 | after a chunk, head, tail, count and hash are those of everything seen with the chunk appended; a finished inspector refuses and changes nothing |
| FileSignature.Inspector.TakeHead | packages/commission-files/src/file-signature.ts:40-43 | the head buffer keeps the first 64 bytes of all content |
| FileSignature.Inspector.Finish | packages/commission-files/src/file-signature.ts:49-52 | reports exactly the whole-content inspection and closes the inspector |
| FileSignature.NextTailIsLast | packages/commission-files/src/file-signature.ts:44-47 | dropping all but 65,557 bytes after every chunk loses nothing of the final tail |
| FileSignature.InspectStream | packages/commission-files/src/file-signature.ts:32-54 | for every chunking the result is the inspection of the concatenation |
| FileSignature.SearchZipDirectory | packages/commission-files/src/file-signature.ts:25-30 | the backward loop answers true exactly when some position with 22 bytes of room carries the signature |
| FileSignature.HeadDecidesType | packages/commission-files/src/file-signature.ts:11-23 | the type found in the 64-byte head is the type found in the whole content |
| FileSignature.TailSearchIsWholeFileSearch | packages/commission-files/src/file-signature.ts:25-30 | the tail holds a record exactly when one starts in the last 65,557 bytes of the file |
| FileSignature.EndRecordIsFound | packages/commission-files/src/file-signature.ts:6-7 | an end record is found behind any archive and in front of any comment of up to 65,535 bytes |
| FileSignature.ClassificationIsOfContent | packages/commission-files/src/file-signature.ts:57-66 | classification accepts exactly the content that is acceptable for its context, however it was cut |
| FileSignature.TypeIsTheSignature | packages/commission-files/src/file-signature.ts:11-23 | a type is detected exactly when the content carries its signature; no content carries two, so the order of the tests does not matter |
| FileSignature.ZipDirectoryExactly | packages/commission-files/src/file-signature.ts:25-30 | a zip directory is found exactly where the four bytes of its end record are followed by the record's eighteen others |
| FileSignature.ContextsNest | packages/commission-files/src/file-policy.ts:21-26 | briefs and messages take exactly the types that must not double as an archive, submissions every type, evidence those of briefs without animations |
| ScanDecision.InspectUpTo | packages/commission-files/src/scan-processor.ts:87-121 | overflow is flagged exactly when the stream exceeds the declared size; otherwise the inspection is that of the whole stream |
| ScanDecision.DecideStream | packages/commission-files/src/scan-processor.ts:69-124 | streaming with overflow, then verdict and classification, computes the specified decision of the consumed chunks; `AcceptanceIsAboutTheWholeObject` and `RejectionExactly` say what that decision is |
| ScanDecision.AcceptanceIsAboutTheWholeObject | packages/commission-files/src/scan-processor.ts:69-124 | a scan accepts exactly when the scanner saw every byte of the object, found nothing, and the content has the declared size and an allowed type |
| ScanDecision.RejectionExactly | packages/commission-files/src/scan-processor.ts:47-124 | each rejection with its exact condition: the size when reported length or delivered bytes differ from the declared size; else the scanner's own reason when it found one, with its signature for malware only; else the type when no type makes the content acceptable |
| FileRows.RetryDelayDoubles | packages/commission-files/src/file-policy.ts:76-79 | the retry delay starts at a minute and doubles up to 30 minutes |
| FileStatements.RefusedExactly | packages/database/src/schema/commission-files.ts:59-83 | of all statements the program issues, trigger and checks refuse exactly a 1001st attempt and an upload dated before its row |
| FileStatements.ExecutedIsOk | packages/database/src/schema/commission-files.ts:59-83 | executing any of them keeps the row within the checks, and unpurged until it ends |
| FileStatements.StepExecutesItsStatement | packages/commission-files/src/scan-processor.ts:22-146 | every step of the lifecycle stores exactly what the database makes of its statement |
| FileStatements.StepRefusedExactly | packages/database/src/schema/commission-files.ts:61-61 | the same exact condition in every state of the lifecycle |
| FileAttempts.AttemptsAreBounded | packages/commission-files/src/scan-processor.ts:43-54 | with forward worker clocks and claims read after the upload, a file is attempted at most 147 times and once more for each recovery while overdue |
| FileAttempts.FewAttempts | packages/commission-files/src/scan-processor.ts:43-54 | in an orderly run a file is attempted at most 147 times, whatever fails |
| FileAttempts.NeverRefusedExactly | packages/database/src/schema/commission-files.ts:61-61 | no statement is ever refused if and only if overdue rows are not recovered and either every clock reading is current, or worker clocks do not run backwards, claims are read after the upload and uploads are not back-dated |
| FileAttempts.BackwardClocks | packages/commission-files/src/scan-processor.ts:43-46 | with a worker clock that runs backwards 1000 attempts pile up at one instant |
| FileAttempts.EarlyClocks | packages/commission-files/src/scan-processor.ts:21-27 | with claims read long before the upload 1000 attempts fit before it |
| FileAttempts.EndlessRecovery | packages/commission-files/src/maintenance.ts:75-78 | if overdue rows are recovered, abandoned claims reach 1000 attempts at ten minutes each, under every other habit, current clock readings included |
| FileAttempts.SweepFailsFirst | packages/commission-files/src/maintenance.ts:66-78 | once a sweep's failing pass reached the row its recovering pass does not match it overdue, whatever happens in between, if claims in between use no clock reading ten minutes older than the sweep's |
| FileDatabase.FileTable.constructor | packages/database/src/schema/commission-files.ts:59-83 | an empty table in order, and no events |
| FileDatabase.FileTable.CreateUpload | packages/commission-files/src/file-service.ts:123-127 | inserts a row awaiting its upload unless the id is taken or the declared size is out of bounds; the table stays in order |
| FileDatabase.FileTable.Claim | packages/commission-files/src/scan-processor.ts:22-28 | takes the lease of a due, unleased scanning row and of nothing else; never refused; the trigger allows it |
| FileDatabase.FileTable.CommitCopyIntent | packages/commission-files/src/scan-processor.ts:128-134 | commits the intent only on the version the worker holds, while scanning; never refused |
| FileDatabase.FileTable.SettleScan | packages/commission-files/src/scan-processor.ts:32-50 | writes result and single event together, or neither; refused exactly for a 1001st attempt |
| FileDatabase.FileTable.FinishUpload | packages/commission-files/src/file-service.ts:138-145 | moves an unexpired awaiting row to scanning; refused exactly when dated before the row |
| FileDatabase.FileTable.DiscardFile | packages/commission-files/src/file-service.ts:152-162 | ends a row that is awaiting, scanning or clean, and no other; never refused |
| FileDatabase.PurgeValues | packages/commission-files/src/maintenance.ts:114-131 | the values of a purge mark, from the row read earlier |
| FileDatabase.FileTable.MarkFilePurged | packages/commission-files/src/maintenance.ts:113-134 | marks only where the state is the one read and the marks are unset; never refused |
| FileDatabase.FileTable.UpdateBatch | packages/commission-files/src/maintenance.ts:56-78 | changes exactly the listed rows that still match, to what `FileHistory.RowIsItsHistory` and `FileEnds.OwnerEndIsDated` read off; one file with 1000 attempts among them fails the whole statement |
| FileDatabase.FileTable.SelectBatch | packages/commission-files/src/maintenance.ts:51-53 | selects the first matching rows by last update and id, up to the limit |
| FileDatabase.FileTable.RunPass | packages/commission-files/src/maintenance.ts:66-78 | an undisturbed pass changes exactly what it selects, and dates what it ends with its own reading (`FileEnds.OwnerEndIsDated`) |
| FileDatabase.OneEventEach | packages/commission-files/src/scan-processor.ts:38-39 | a table in order, which every method keeps, holds at most one scan event per file |
| FileDatabase.TableFollowsLifecycle | packages/commission-files/src/scan-processor.ts:22-146 | what the table does to a file is what the file's own lifecycle does, and other files are untouched |
| FileFleet.StepActs | packages/commission-files/src/maintenance.ts:20-28 | every step of a table under any number of concurrent rounds is, for every file, at most one action of the file's own lifecycle |
| FileFleet.PassIsOneStatement | packages/commission-files/src/maintenance.ts:66-78 | the update of a pass does to the table exactly what the table's bulk update does, so each listed row that no longer matches is left alone |
| FileFleet.StepKeepsFleet | packages/commission-files/src/maintenance.ts:20-78 | every step of every process and round keeps all files in order, and keeps what a failing pass has achieved: a row it did not overlook carries no expired lease while overdue |
| FileFleet.CurrentIsPunctual | packages/commission-files/src/maintenance.ts:42-42 | current clock readings have all the clock habits, no claim ten minutes older than a round in progress included |
| FileBacklog.LateMeansMissed | packages/commission-files/src/maintenance.ts:66-78 | a recovering pass matches an overdue file only if its own round's failing pass left the file out, which takes more files than a batch |
| FileBacklog.StepBalances | packages/commission-files/src/maintenance.ts:51-78 | every step keeps the accounts: each missing pass filled its batch with rows it ended for good or left alone because they had changed, and each late recovery goes with a miss of its own |
| FileBacklog.LateWithinMisses | packages/commission-files/src/maintenance.ts:66-78 | a file is recovered while overdue at most as often as failing passes missed it |
| FileBacklog.BacklogIsFinite | packages/commission-files/src/maintenance.ts:51-69 | a file is passed over at most as often as batches fit into the other files and the rows changed under the passes that missed it; never while all files fit into one batch |
| FileBacklog.AttemptsWithinBacklog | packages/commission-files/src/maintenance.ts:51-78 | a file is attempted at most 147 times and once more for each such batch; at most 147 times while all files fit into one batch |
| FileBacklog.RefusalNeedsMisses | packages/database/src/schema/commission-files.ts:61-61 | a refused statement, of any process or round, comes after 854 failing passes that missed one and the same file |
| FileBacklog.NotRefusedWithinBacklog | packages/database/src/schema/commission-files.ts:61-61 | no statement is refused while all files fit into one batch, or while the other files and the disturbed rows fill fewer than 854 batches |
| FileOverload.LateRecoveriesOfBacklog | packages/commission-files/src/maintenance.ts:51-78 | on current clocks and with no pass disturbed, a file reaches 147 attempts and one more for each batch of other files |
| FileOverload.BacklogOverloads | packages/commission-files/src/maintenance.ts:75-78 | 854 batches of other files lead to a refused recovery though no pass is disturbed |
| FileOverload.EndlessDisturbance | packages/commission-files/src/maintenance.ts:21-26 | one file more than a batch: while the selected rows are claimed before every update, the last file is recovered overdue every ten minutes, up to 1000 attempts |
| FileOverload.DisturbanceOverloads | packages/commission-files/src/maintenance.ts:75-78 | so one file more than a batch leads to a refused recovery; two files for a batch of one |
| FileOverload.OldClaimsOverload | packages/commission-files/src/maintenance.ts:75-78 | with claims on readings ten minutes older than those of rounds in progress one file leads to a refused recovery |
| FileOverload.LargeTableIsNot | packages/commission-files/src/maintenance.ts:51-78 | for every combination of habits some run over one file more than the safe size leads to a refused recovery |
| FileOverload.SafeSizeExactly | packages/database/src/schema/commission-files.ts:61-61 | with the clock habits of single files, no statement on at most n files is ever refused if and only if claims are no ten minutes older than a round in progress and the files fit into one batch, or into 854 batches when no row changes between a failing pass's select and update |
| FileLifecycle.ActionKeepsInv | packages/commission-files/src/scan-processor.ts:16-150 | every step of any owner, worker, sweep or store effect keeps the invariant of the file and both buckets |
| FileLifecycle.StoreActionKeepsInv | packages/commission-files/src/scan-processor.ts:136-142 | uploads, late copies and late deletes by the store keep the invariant |
| FileLifecycle.OwnerActionKeepsInv | packages/commission-files/src/file-service.ts:134-162 | the owner's commands, attachment, retention and the bulk updates keep the invariant |
| FileLifecycle.WorkerActionKeepsInv | packages/commission-files/src/scan-processor.ts:29-147 | every step of a scan worker keeps the invariant |
| FileLifecycle.SweepActionKeepsInv | packages/commission-files/src/maintenance.ts:107-134 | every step of a purge visit keeps the invariant, though the row is read without a lock |
| FileGuarantees.StepIsGuarded | packages/database/migrations/0043_increment_7_copy_intent_closure.sql:20-57 | whatever a step stores passed the trigger and the checks, raised the version by one, and left an ended file's end alone |
| FileGuarantees.RowsFollow | packages/commission-files/src/maintenance.ts:107-131 | over any run the version identifies the row, the state only rises in rank, terminal states absorb, evidence and marks are write-once |
| FileGuarantees.AtMostOneScanEvent | packages/commission-files/src/scan-processor.ts:32-42 | a file emits at most one scan event, and it tells how the scan ended |
| FileGuarantees.SupersededChangesNothing | packages/commission-files/src/scan-processor.ts:31-42 | a superseded worker changes neither row nor events, and commits no intent |
| FileGuarantees.SupersededCopiesExactly | packages/commission-files/src/scan-processor.ts:125-136 | a superseded worker can start a copy if and only if its intent was committed before |
| FileGuarantees.DiscardedFileIsCopied | packages/commission-files/src/scan-processor.ts:134-136 | a reachable state in which a discarded file's worker still asks for its copy |
| FileGuarantees.OneCurrentWorker | packages/commission-files/src/scan-processor.ts:22-36 | in every run no two workers hold the same version, so at most one passes the fence |
| FileGuarantees.CleanFilesAreWhatWasScanned | packages/commission-files/src/scan-processor.ts:69-140 | every accepted row records a clean version that is a byte copy of the quarantine version scanned clean, with its size, digest and an allowed type; while live it is in the bucket |
| FileGuarantees.UnscannedBytesAreKept | packages/commission-files/src/maintenance.ts:107-131 | nothing leaves quarantine while the file may still be scanned |
| FileGuarantees.ScansReadTheUpload | packages/commission-files/src/scan-processor.ts:72-113 | while a file is scanned, a worker finds no object only if nothing was ever uploaded; one it finds is read from the start of an uploaded version |
| FileGuarantees.DownloadServesScannedBytes | packages/commission-files/src/file-service.ts:187-199 | a file is downloadable exactly while attached, and the link serves the bytes that were scanned |
| FileGuarantees.OnlyLateCopiesSurvive | packages/commission-files/src/maintenance.ts:113-134 | after the final mark a clean version exists only if its copy took effect 24 hours or more after the row ended |
| FileGuarantees.PurgeIsFinal | packages/commission-files/src/maintenance.ts:113-134 | if copies take effect within 24 hours of the row's end, the clean bucket is empty in every state after the mark |
| FileGuarantees.NoIntentNoCopy | packages/commission-files/src/scan-processor.ts:125-140 | without a committed intent no copy was ever asked for |
| FileGuarantees.LateCopySurvivesTheFinalMark | packages/commission-files/src/maintenance.ts:127-129 | a reachable state in which a late copy outlives the final mark |
| FileProgress.ScanningEndsExactly | packages/commission-files/src/maintenance.ts:66-69 | a scanning file always has a deadline, and the sweep ends it exactly from the later of deadline and lease |
| FileRetention.RetentionIsOneDate | packages/commission-files/src/maintenance.ts:156-165 | the three grounds for deletion amount to one date; there is none for an order underway, nor for a message or submission file of an order that closed unpaid |
| FileProgress.LiveFileEnds | packages/commission-files/src/maintenance.ts:56-69 | time and the sweep end every file that is not attached |
| FileProgress.RetentionEnds | packages/commission-files/src/maintenance.ts:156-172 | retention ends an attached file whose order releases it, unheld and in enforce mode |
| FileProgress.AttachedStaysForEver | packages/commission-files/src/maintenance.ts:156-172 | otherwise no maintenance ever ends an attached file |
| FileProgress.EndedFileIsPurged | packages/commission-files/src/maintenance.ts:107-134 | an undisturbed visit 24 hours after the end sets both purge marks |
| FileProgress.CandidatesMissAMark | packages/commission-files/src/maintenance.ts:107-112 | a visit is for exactly those files that miss a mark; a live file's quarantine waits five minutes after the scan |
| FileProgress.NoFileIsStuck | packages/commission-files/src/maintenance.ts:28-136 | from every state of the invariant, time and the sweep alone can bring a file that is not attached to its end and both purge marks |
| FileProgress.PurgedExactly | packages/commission-files/src/maintenance.ts:28-172 | maintenance can purge a file if and only if it is not attached, or retention enforces, finds no hold, and finds an order that ends its retention |
| FileHistory.DiariesAreKept | packages/commission-files/src/scan-processor.ts:16-150 | in every run each worker and each purge visit stands where its own steps have brought it |
| FileHistory.RowIsItsHistory | packages/commission-files/src/scan-processor.ts:22-146 | after every run each column that statements write is what looking back through the changes of the row finds: versions, attempts, leases, dates, evidence, reasons and marks come from the step that set them |
| FileEnds.OwnerEndIsDated | packages/commission-files/src/maintenance.ts:56-69 | when an owner, a pass or retention ends a file, the row is dated with that statement's own reading |
| FileEnds.EndIsDated | packages/commission-files/src/scan-processor.ts:47-54 | over any run, whichever step ends a file: the end is dated by that statement's reading, by the claim's reading for an overdue claim, or by the reading of the scan that rejected it, which had that reason for it |
| FileEnds.PassEndsExactly | packages/commission-files/src/maintenance.ts:56-69 | after every run a pass ends a file if and only if it is the pass for its state and reads the clock 15 minutes or more after the grant, 24 hours or more after the upload with no lease running, or 24 hours or more after the scan that found it clean |
| FileEnds.MalwareIsNamed | packages/commission-files/src/scan-processor.ts:47-49 | a row names a malware signature exactly when rejected for malware, and it is the signature of the verdict that ended it |
| FileEnds.EndIsPast | packages/commission-files/src/scan-processor.ts:21-54 | no end is dated ahead of the store's clock |
| FileEnds.MarkIsADayLater | packages/commission-files/src/maintenance.ts:117-129 | with a copy intent the final mark is at least 24 hours after the recorded end |
| FileEnds.PurgeWaitsADay | packages/commission-files/src/maintenance.ts:117-129 | with current readings a file with a copy intent gets its final mark at least 24 hours after the store's clock at the step that dated its end: the ending step itself for owner, passes and retention, the claim or scan for a worker's result |
| FileEnds.DayIsFullExactly | packages/commission-files/src/maintenance.ts:117-129 | the mark comes at least 24 hours after the ending step in every continuation if and only if that step dated the end with the store's clock |
| FileEnds.LateResultShortensTheDay | packages/commission-files/src/scan-processor.ts:52-54 | a run on current readings whose overdue claim is settled later than it was read, and whose final mark comes less than 24 hours after the end |
| FilePurge.OnlyLateUploadsSurvive | packages/commission-files/src/maintenance.ts:119-129 | over any run, once the quarantine is marked as purged every version in it was uploaded after some purge of it had begun; what was uploaded before is gone for good |
| FileScan.ScanAccepts | packages/commission-files/src/scan-processor.ts:16-147 | from every state in which a file can be claimed before its deadline, one undisturbed scan of an acceptable object that is found clean ends clean, recorded with that version, its copy, digest and type, with its event |
| FileScan.ScanRejects | packages/commission-files/src/scan-processor.ts:16-124 | likewise an object and a verdict that decide against it end in exactly that rejection, dated now, with its event |
| FileScan.OverdueScanFails | packages/commission-files/src/scan-processor.ts:52-54 | a claim at or past the deadline ends the file, with its event |
| FileScan.FailedScanRetries | packages/commission-files/src/scan-processor.ts:43-46 | a scan that gives up counts one attempt and can be claimed again exactly from its delay on |
| FileScan.WinnerPurges | packages/commission-files/src/scan-processor.ts:141-146 | after its result the worker can always empty the quarantine bucket and mark it |
| Attachment.FileStore.constructor | packages/database/src/schema/commission-files.ts:86-99 | the given files and no attachments |
| Attachment.FileStore.Attach | packages/commission-files/src/thread-port.ts:47-67 | all or nothing: refused, aborted on a taken position, or every row and position written; the version check inside the loop cannot fail |
| Attachment.AttachIsGuarded | packages/database/migrations/0043_increment_7_copy_intent_closure.sql:27-57 | the update trigger lets every attached row through, and a row outside a brief is bound to its upload order |
| Attachment.AddsExactly | packages/commission-files/src/attachment-port.ts:24-32 | an accepted attachment adds each id at its own position and changes no other entry |
| Attachment.TargetWasEmpty | packages/database/src/schema/commission-files.ts:94-98 | a target takes attachments once |
| Attachment.AttachedOnce | packages/commission-files/src/evidence-attachment-port.ts:10-30 | after an attachment, whatever happens next, every later one naming the file is refused and its entry is unchanged |
| Attachment.PositionsAreExact | packages/commission-files/src/thread-port.ts:58-65 | over any run the positions of a target are 0..n-1, each once |
| Attachment.AttachesOnlyOwnFiles | packages/commission-files/src/thread-port.ts:47-67 | an accepted attachment names only clean, unbound files of its owner from the target's context and order or package, no more than the target takes, and leaves each attached to the order |
| Attachment.AttachedExactly | packages/commission-files/src/thread-port.ts:50-58 | accepted if and only if the port serves the target, the ids are distinct and not too many, each names such a file of an allowed size and type, and the target has no attachment yet |
| Attachment.EveryAttachmentIsOwned | packages/commission-files/src/thread-port.ts:47-67 | over any run every attachment was made by a command that named the file at that position, for its order, target and time, on behalf of the file's own owner |
| Keyset.SeekAfterRow | packages/catalog/src/public-catalog-query.ts:165-171 | seeking after the k-th row skips exactly k rows |
| SweepCursor.PurgePage | packages/commission-files/src/maintenance.ts:113-136 | failures are counted and never stop the page or move its cursor |
| SweepCursor.FullPagePasses | packages/commission-files/src/maintenance.ts:135-136 | a full page moves the cursor past at least a page of rows |
| SweepCursor.ReachedFromBefore | packages/commission-files/src/maintenance.ts:107-136 | a row after the cursor is read before the cursor wraps |
| SweepCursor.EveryCandidateIsVisited | packages/commission-files/src/maintenance.ts:101-136 | a row that stays a candidate is read once the runs cover the table twice and a page, whatever else comes, goes or fails |
| SweepCursor.PurgeIsFair | packages/commission-files/src/maintenance.ts:101-136 | with times of any precision and distinct ids, sorting and seeking by truncated times reads every staying candidate within the bound |
| SweepCursor.RawContinuesExactly | packages/commission-files/src/maintenance.ts:103-105 | a seek on the raw time continues right behind a page if and only if its last row's time is a whole millisecond |
| SweepCursor.RawSeekStarves | packages/commission-files/src/maintenance.ts:103-105 | with a fraction of a millisecond a raw seek reads the first row for ever: no number of runs reads the second |
| SweepCursor.RawReadsLikeKeys | packages/commission-files/src/maintenance.ts:145-154 | on whole milliseconds the raw seek reads what the key seek reads |
| SweepCursor.RetentionIsFair | packages/commission-files/src/maintenance.ts:145-175 | retention, which seeks on the raw attachment time, reads every row that stays attached within the bound |
| PublicDirectory.MatchingIsSorted | packages/catalog/src/public-catalog-query.ts:165-171 | filtering keeps key order |
| PublicDirectory.CandidatesContinue | packages/catalog/src/public-catalog-query.ts:220-228 | each candidate query continues where the previous batch ended |
| PublicDirectory.Collect | packages/catalog/src/public-catalog-query.ts:225 | a batch adds its visible creators up to the 25-item lookahead |
| PublicDirectory.ScanBatch | packages/catalog/src/public-catalog-query.ts:221-227 | one turn of the scan moves over at most 48 rows and keeps the first visible ones |
| PublicDirectory.Scan | packages/catalog/src/public-catalog-query.ts:216-233 | the loop computes the specified page and continuation |
| PublicDirectory.ListCreators | packages/catalog/src/public-catalog-query.ts:213-234 | a request returns the page of the matching rows after its cursor |
| PublicDirectory.NextCursorAdvances | packages/catalog/src/public-catalog-query.ts:229-233 | every cursor is after the one before, the next request starts where the page ended, fewer rows remain |
| PublicDirectory.PageIsBounded | packages/catalog/src/public-catalog-query.ts:229 | a page lists at most 24 creators |
| PublicDirectory.WalkIsSound | packages/catalog/src/public-catalog-query.ts:213-234 | over any table the walk lists only visible matching creators, in strict key order |
| PublicDirectory.WalkListsEveryone | packages/catalog/src/public-catalog-query.ts:213-234 | without faults the walk lists every visible matching creator exactly once in order |
| PublicDirectory.WalkMissesExactly | packages/catalog/src/public-catalog-query.ts:128-156 | the walk is complete if and only if no page passes over a visible creator that shares a batch with a faulty page; otherwise it is shorter |
| PublicDirectory.WalkAnswersTheQuery | packages/catalog/src/public-catalog-query.ts:165-234 | everyone listed is a visible creator whose handle starts with the prefix and who has the discipline asked for; without faults everyone who was asked for is listed |
| PublicDirectory.FaultHidesItsBatch | packages/catalog/src/public-catalog-query.ts:139-144 | two rows on which a faulty page hides a healthy creator |
| PublicDirectory.ListSitemap | packages/catalog/src/public-catalog-query.ts:235-240 | the sitemap loop computes the specified list |
| PublicDirectory.SitemapListsEveryone | packages/catalog/src/public-catalog-query.ts:235-240 | the sitemap is complete if and only if no visible creator shares a batch with a faulty page |
| CatalogCommands.FindMaxRevision | packages/catalog/src/catalog-service.ts:639-640 | finds the largest revision number of the page, zero when it has none |
| CatalogCommands.CatalogDatabase.constructor | packages/database/src/schema/creator-catalog.ts:11-24 | empty tables, in agreement |
| CatalogCommands.CatalogDatabase.ClaimHandle | packages/catalog/src/catalog-service.ts:481-490 | the command has exactly its specified effect and outcome and keeps the agreement |
| CatalogCommands.CatalogDatabase.MoveHandle | packages/catalog/src/catalog-service.ts:493-502 | demotes, claims, restarts the cooldown and moves the projection, or changes nothing on a taken handle |
| CatalogCommands.CatalogDatabase.RenameHandle | packages/catalog/src/catalog-service.ts:491-504 | the rename has exactly its specified effect and keeps the agreement |
| CatalogCommands.CatalogDatabase.Publish | packages/catalog/src/catalog-service.ts:574-717 | the publication has exactly its specified effect, which `CatalogHistory.VisitorsSeeTheDraft` states in terms of the saved draft, and keeps the agreement |
| CatalogCommands.CatalogDatabase.Withdraw | packages/catalog/src/catalog-service.ts:742-746 | the head is cleared and exactly one projection disabled; the missing-projection failure cannot happen |
| CatalogCommands.CatalogDatabase.Unpublish | packages/catalog/src/catalog-service.ts:719-751 | unpublishing has exactly its specified effect and keeps the agreement |
| CatalogCommands.CatalogDatabase.ClearForSuspension | packages/catalog/src/catalog-service.ts:753-768 | always succeeds and leaves no page of the user with a head |
| CatalogPublication.CommandKeepsAgreement | packages/catalog/src/catalog-service.ts:404-439 | every command, accepted or refused, keeps pages, claims, revisions, projections and the event ledger in agreement |
| CatalogPublication.RenameKeepsAgreement | packages/catalog/src/catalog-service.ts:491-504 | a rename keeps the projection on the current canonical handle and every old handle with its page |
| CatalogPublication.PublishKeepsAgreement | packages/catalog/src/catalog-service.ts:574-717 | a publication keeps the agreement |
| CatalogPublication.ClearKeepsAgreement | packages/catalog/src/catalog-service.ts:753-768 | the suspension clear keeps the agreement, succeeds and leaves no head |
| CatalogPublication.DirectoryAgrees | packages/catalog/src/public-catalog-query.ts:94-105 | after any commands: head set, projection enabled and admitted by the public query are the same, and the event ledger names the head |
| CatalogPublication.NoCorruptIndexFailure | packages/catalog/src/catalog-service.ts:742-767 | the failures for a projection update that misses its row, and unhandled index violations, are unreachable |
| CatalogPublication.OldLinksStillLand | packages/catalog/src/public-catalog-query.ts:205-212 | a handle once claimed stays with its page and, while the page is published, shows it or redirects in one hop to a handle that does |
| CatalogHistory.RunIsSound | packages/catalog/src/catalog-service.ts:264-286 | over any commands every page has a draft whose disciplines can be published, and the tables agree |
| CatalogHistory.AcceptedExactly | packages/catalog/src/catalog-service.ts:404-439 | for every command its acceptance, both ways: the page owner's request at the current version with publishing on and the capability it needs, a free and fitting handle, a rename past its cooldown, a complete publication that is not held, something published to take down |
| CatalogHistory.RefusedChangesNothing | packages/catalog/src/catalog-service.ts:415-439 | a refused command leaves every table as it was |
| CatalogHistory.VersionCountsEdits | packages/catalog/src/catalog-service.ts:431-435 | a page's version is one more than the number of its accepted edits |
| CatalogHistory.NoLostUpdate | packages/catalog/src/catalog-service.ts:431-435 | after an accepted edit, whatever comes between, no command expecting the version it was made at is accepted |
| CatalogHistory.HandleIsTheLastTaken | packages/catalog/src/catalog-service.ts:481-504 | a page's canonical handle is the last one it claimed or renamed to, whatever else happens |
| CatalogHistory.RenamesAreApart | packages/catalog/src/catalog-service.ts:495-500 | two accepted renames of a page are at least 30 days apart |
| CatalogHistory.CooldownIsThirtyDays | packages/catalog/src/catalog-service.ts:495-500 | after a rename, until the next, one that is otherwise in order is accepted exactly from 30 days on |
| CatalogHistory.VisitorsSeeTheDraft | packages/catalog/src/catalog-service.ts:598-711 | after an accepted save, any commands saving no other draft of the page, an accepted publication, and any commands that do not publish or take it down, the page is admitted with the draft's disciplines in order, its avatar's thumb, the publication's texts and the handle of the day; its revision is numbered one above every earlier one |
| CatalogHistory.TakenDown | packages/catalog/src/catalog-service.ts:719-768 | an accepted unpublication and a suspension take the page out of the directory |
| CatalogHistory.HandlesAreWords | packages/catalog/src/catalog-policy.ts:29-50 | a handle is accepted exactly when it is 3 to 30 characters of words of letters and digits joined by single hyphens, and not reserved |
| CatalogHistory.DisciplinesAreDistinct | packages/catalog/src/catalog-service.ts:265-268 | a draft is accepted exactly with one to three disciplines, each named once |
| CatalogHistory.HandlesFitReferences | packages/catalog/src/catalog-service.ts:161-171 | every handle that can be published survives in the reference it is replayed from |
| ShowcaseOrder.NamedExactly | packages/catalog/src/catalog-service.ts:560-561 | equal counts and every active showcase named means exactly the active showcases are named |
| ShowcaseOrder.ShowcaseTable.constructor | packages/database/src/schema/creator-catalog.ts:59-79 | holds the given rows |
| ShowcaseOrder.ShowcaseTable.SetRemoved | packages/catalog/src/catalog-service.ts:564-565 | changes exactly the listed rows with the expected value |
| ShowcaseOrder.ShowcaseTable.NumberParked | packages/catalog/src/catalog-service.ts:566-569 | numbers the parked rows; no statement can miss its row and the index holds throughout |
| ShowcaseOrder.ShowcaseTable.Renumber | packages/catalog/src/catalog-service.ts:563-571 | parking, numbering and bringing back amounts to numbering in place |
| ShowcaseOrder.ShowcaseTable.Reorder | packages/catalog/src/catalog-service.ts:557-573 | succeeds exactly when the ids are the page's active showcases, then they have positions 0..n-1 in the given order and nothing else changed |
| ShowcaseOrder.ReorderingIsExact | packages/catalog/src/catalog-service.ts:557-573 | afterwards the page's showcases that are not removed are exactly the ids, each at its own place; removed ones, other pages and everything but positions are as they were |
| CapabilityFence.PagePresentIsSafe | packages/identity/src/enforcement-port.ts:44-79 | with a page row, no interleaving leaves a head without an active capability and the reinstatement guard never fires |
| CapabilityFence.RunKeepsInv | packages/admin/src/creator-review-service.ts:285-319 | every step of every transaction keeps the lock and fence invariant |
| CapabilityFence.CommitKeepsInv | packages/catalog/src/catalog-service.ts:577-594 | a commit past the page lock invalidates no other transaction's check |
| CapabilityFence.LatePageEscapes | packages/catalog/src/catalog-service.ts:462-479 | from any active creator without a page there is a run that ends suspended with a published head |
| CapabilityFence.SafeExactlyWithPage | packages/admin/src/creator-publication-port.ts:36-49 | every run from a quiet state is safe if and only if the page row exists |
| CapabilityFence.RunIsSerial | packages/identity/src/enforcement-port.ts:44-79 | with a page row every interleaving is serializable: its committed values are those of the committed transactions run one at a time in the order of their commits, none of them refused |
| CapabilityFence.UndisturbedExactly | packages/admin/src/creator-review-service.ts:285-319 | undisturbed, each transaction is refused or does exactly what it is meant to, page or no page, and releases its locks |
| RetentionFence.AcquireFences | packages/database/src/public-media-retention-fence.ts:27-44 | refused exactly for inadmissible ids; otherwise each lower-cased id once, strictly increasing |
| RetentionFence.PlanIsUnique | packages/database/src/public-media-retention-fence.ts:41-43 | two requests for the same assets take the same fences in the same order |
| RetentionFence.SameFenceExactly | packages/database/src/public-media-retention-fence.ts:27-44 | two ids share a fence exactly when they differ at most in the case of letters |
| RetentionFence.IdsIgnoreCase | packages/database/src/public-media-retention-fence.ts:27-44 | case does not matter to what counts as an id, and keys are of lower-case digits and hyphens |
| RetentionFence.CatalogPlanIsOrdered | packages/catalog/src/catalog-service.ts:323-338 | page first and then the fences is an increasing plan |
| RetentionFence.CleanupPlanIsOrdered | packages/database/src/public-media-retention-fence.ts:9-26 | asset rows, page rows and fences is an increasing plan |
| RetentionFence.RunKeepsInv | packages/database/src/public-media-retention-fence.ts:41-43 | a lock has one holder at a time in every run |
| RetentionFence.NoWaitCycle | packages/database/src/public-media-retention-fence.ts:27-44 | in no reachable state does a chain of waits return to where it began |
| RetentionFence.SomeoneCanMove | packages/database/src/public-media-retention-fence.ts:27-44 | while any writer is unfinished some writer can take a step |
| RetentionFence.EveryoneCanFinish | packages/database/src/public-media-retention-fence.ts:27-44 | from every reachable state all writers can run to completion |
| RetentionFence.UnorderedWritersDeadlock | packages/database/src/public-media-retention-fence.ts:41-43 | two writers in opposite orders can block each other for good |
| CreatorApplication.ApplicationRow.constructor | packages/identity/src/creator-application-service.ts:510-551 | the first save creates a draft with revision 1 |
| CreatorApplication.ApplicationRow.SaveDraft | packages/identity/src/creator-application-service.ts:374-493 | edits the current revision, or starts a new one when it was submitted and sent back |
| CreatorApplication.ApplicationRow.SubmitDraft | packages/identity/src/creator-application-service.ts:555-700 | freezes the content in the current or a new revision |
| CreatorApplication.ApplicationRow.WithdrawApplication | packages/identity/src/creator-application-service.ts:702-745 | ends an open application and clears its claim |
| CreatorApplication.ApplicationRow.ClaimReview | packages/admin/src/creator-review-service.ts:216-227 | takes a submitted application, or one whose claim has expired, for 15 minutes |
| CreatorApplication.ApplicationRow.DecideReview | packages/admin/src/creator-review-service.ts:229-254 | decides the current revision under version, state and claim fences; the state it stores is the decision's own (`StateIsLastEvent`) |
| CreatorApplication.CommandKeeps | packages/identity/src/creator-application-service.ts:374-745 | every accepted command raises the version by one, keeps the invariant and every submitted revision; a missing revision cannot occur |
| CreatorApplication.ApplicationIsWellFormed | packages/identity/src/creator-application-service.ts:374-745 | after any run revisions are numbered 1..n, a draft is unsubmitted, what owners see was submitted, a claim exists exactly under review, the version counts commands |
| CreatorApplication.SubmissionsAreImmutable | packages/database/migrations/0008_creator-application-attestation-immutability.sql:1-15 | a submitted revision is never modified by any later commands |
| CreatorApplication.HistoryIsLegal | packages/admin/src/creator-review-service.ts:216-268 | every run obeys the review protocol: claims do not overlap, a decision follows the same owner's unexpired claim, a reopening follows a rejection |
| CreatorApplication.OnlyTheClaimHolderDecides | packages/admin/src/creator-review-service.ts:245-249 | an authorised decision is accepted exactly from the owner of the last, unexpired claim, at the current version and revision |
| CreatorApplication.StateIsLastEvent | packages/admin/src/creator-review-service.ts:245-254 | after every run the application is approved exactly if its last event is an approval, rejected exactly if it is a rejection, and so for every state |
| CreatorApplication.AcceptedExactly | packages/admin/src/creator-review-service.ts:216-268 | after every run a command is accepted if and only if it names the current version, its event may follow the last one and its inputs are in order: so a rejected application can be reopened, and one sent back can be saved and submitted |
| CreatorApplication.DecisionRefusals | packages/admin/src/creator-review-service.ts:246-251 | which refusal a decision meets, in terms of the history and in the order of the fences |
| CreatorApplication.DraftWasOnlySaved | packages/identity/src/creator-application-service.ts:510-551 | an application is a draft exactly while nothing was ever submitted |
| CreatorApplication.AnswersAreKept | packages/identity/src/creator-application-service.ts:374-493 | over any run the current revision holds for every field the last answer given to it |
| CreatorApplication.SubmissionStands | packages/identity/src/creator-application-service.ts:555-700 | an accepted submission stands with its content and time, whatever follows |
| Idempotency.CommandTable.constructor | packages/database/src/schema/shared-controls.ts:119-152 | an empty table |
| Idempotency.CommandTable.Begin | packages/database/src/idempotency-repository.ts:22-85 | one insert per key; otherwise expired, conflict, replay or in progress, and no change |
| Idempotency.CommandTable.Complete | packages/database/src/idempotency-repository.ts:87-115 | completes an unexpired record in progress; otherwise true only for the same stored reference |
| Idempotency.RunKeepsConsistent | packages/database/src/idempotency-repository.ts:22-115 | over any history of whole transactions the table is exactly the log of applied changes |
| Idempotency.AppliedAtMostOnce | packages/database/src/idempotency-repository.ts:22-115 | each actor, scope and key applies its change at most once, ever |
| Idempotency.NeverInProgress | packages/database/src/idempotency-repository.ts:64-84 | no committed record is found in progress |
| Idempotency.RecordsAreKept | packages/database/src/idempotency-repository.ts:40-62 | a committed record stays as it is |
| Idempotency.RetriesSeeTheFirstResult | packages/catalog/src/catalog-service.ts:404-439 | a faithful retry before expiry gets the first result, another request a conflict, later ones expired; nothing is applied again |
| Idempotency.AppliedExactly | packages/database/src/idempotency-repository.ts:22-115 | after any history a transaction applies its change exactly when it is in time, its work succeeds and its key is new |
| Idempotency.RecordIsItsHistory | packages/database/src/idempotency-repository.ts:22-115 | whatever single statements ran in whatever order, a record is its key's first begin in time, with the first reference offered after it before its expiry, and nothing later changes it |
| ReplayReference.PageRoundTrip | packages/catalog/src/catalog-service.ts:155-159 | a draft mutation's reference parses back exactly for a valid id and a positive version |
| ReplayReference.PageReferenceIsUnique | packages/catalog/src/catalog-service.ts:156-159 | no other text parses to the same result |
| ReplayReference.PublishRoundTrip | packages/catalog/src/catalog-service.ts:161-171 | a stored publication parses back if and only if its instant is not before 1970 |
| ReplayReference.UnpublishRoundTrip | packages/catalog/src/catalog-service.ts:173-183 | the same for an unpublication |
| ReplayReference.PublishReferenceExactly | packages/catalog/src/catalog-service.ts:165-171 | exactly the texts that parse to a publication: its printed fields when they are valid and its instant is not before 1970, with any zeros in front of the instant |
| ReplayReference.UnpublishReferenceExactly | packages/catalog/src/catalog-service.ts:177-183 | the same for an unpublication |
| ReplayReference.SnapshotRoundTrip | packages/identity/src/creator-application-service.ts:115-132 | an application result parses back exactly for valid ids and a positive version |
| ReplayReference.SnapshotReferenceIsUnique | packages/identity/src/creator-application-service.ts:119-132 | no other text parses to the same result |
| ReplayReference.PublishIsStorable | packages/database/src/idempotency-repository.ts:8-8 | a publication's reference fits the reference pattern, in at most 163 of 200 characters |
| ReplayReference.UnpublishIsStorable | packages/database/src/idempotency-repository.ts:8-8 | an unpublication's reference fits the reference pattern |
| ReplayReference.SnapshotIsStorable | packages/database/src/idempotency-repository.ts:8-8 | an application result's reference fits the reference pattern |
| ReplayReference.PageIsStorable | packages/database/src/idempotency-repository.ts:8-8 | a draft mutation's reference fits the reference pattern |
| Outbox.OutboxTable.constructor | packages/database/src/schema/system-outbox.ts:1-40 | an empty queue |
| Outbox.PickBatch | packages/database/src/outbox-repository.ts:110-123 | picks the first claimable rows in order of occurrence, at most the limit, passing over locked ones |
| Outbox.PickIsDetermined | packages/database/src/outbox-repository.ts:110-123 | no other set of rows satisfies that |
| Outbox.OutboxTable.ClaimBatch | packages/database/src/outbox-repository.ts:100-136 | locks exactly the picked rows for the worker, for leaseMs from its reading (`ClaimLasts`), and returns them as they now are |
| Outbox.OutboxTable.MarkPublished | packages/database/src/outbox-repository.ts:138-160 | publishes only for the holder of an unpublished event |
| Outbox.OutboxTable.Acknowledge | packages/database/src/outbox-repository.ts:162-188 | afterwards true exactly when the event is published |
| Outbox.OutboxTable.MarkFailed | packages/database/src/outbox-repository.ts:190-213 | reschedules only for the holder of an unpublished event |
| Outbox.OutboxTable.ReleaseExpired | packages/database/src/outbox-repository.ts:215-232 | unlocks exactly the unpublished events whose lease has expired |
| Outbox.RunKeepsEventsWhole | packages/database/src/outbox-repository.ts:100-232 | over any run the lock fields are all null or all set, and null when published |
| Outbox.AttemptsCountClaims | packages/database/src/outbox-repository.ts:118-134 | attempts is the number of claims |
| Outbox.PublishedIsFinal | packages/database/src/outbox-repository.ts:138-188 | a published event never changes and is never claimed again |
| Outbox.LeaseProtects | packages/database/src/outbox-repository.ts:100-213 | before a lease expires only its holder's mark or an acknowledgement changes the event |
| Outbox.DisplacedMarkIsIdle | packages/database/src/outbox-repository.ts:138-213 | once a worker no longer holds an event, and until it claims it again, its marks change nothing over any run |
| Outbox.MarkLandsExactly | packages/database/src/outbox-repository.ts:138-213 | a mark, publishing or failing, lands if and only if its worker holds the unpublished event, by whichever claim |
| Outbox.StaleMarkLands | packages/database/src/outbox-repository.ts:138-160 | the fence is the worker's id: a mark left over from the same worker's earlier claim publishes the event |
| Outbox.ReleaseKeepsClaimable | packages/database/src/outbox-repository.ts:215-232 | releasing expired leases changes what a claim finds exactly for a released, available event whose lease had not run out by the claim's reading; never for a reading as late as the release |
| Outbox.EveryEventBecomesClaimable | packages/database/src/outbox-repository.ts:100-117 | an unpublished event is claimable exactly from the later of availability and lease expiry |
| Outbox.ClaimLasts | packages/database/src/outbox-repository.ts:100-136 | from the claim itself: while no later operation reads the clock at now + leaseMs or beyond, acknowledges the event or is a mark of its worker, the worker holds it; it is claimable exactly from now + leaseMs on, if available |
| Outbox.ReleasedExactly | packages/database/src/outbox-repository.ts:215-232 | a release gives up a claim exactly from now + leaseMs on |
| Outbox.PickExists | packages/database/src/outbox-repository.ts:110-123 | for every queue, limit and set of locked rows there is such a pick, of as many rows as the limit when that many are due |
| Outbox.ClaimFillsItsLimit | packages/database/src/outbox-repository.ts:110-123 | a claim takes as many of the due events as its limit allows, hence all of them when there is room |
| Outbox.OldestFirst | packages/database/src/outbox-repository.ts:120-122 | with an event every older due one that was not locked is picked too |
| Outbox.FailureReschedules | packages/database/src/outbox-repository.ts:190-213 | after the holder's failing mark nobody holds the event, it is claimable exactly from the given time on whatever others do, and its error is kept up to 2,000 characters |
| Outbox.InsertedWaits | packages/database/src/outbox-repository.ts:75-98 | a new event is claimable exactly from the time it was given, or from its occurrence when it was given none |
| Outbox.FirstPublicationCounts | packages/database/src/outbox-repository.ts:138-188 | the first acknowledgement or holder's mark dates the publication for good and ends the lock |
| Outbox.OnlyMarksPublish | packages/database/src/outbox-repository.ts:138-188 | nothing else publishes an event |
| SecurityThrottle.Throttle.constructor | packages/identity/src/identity-repository.ts:93-113 | no row before the first attempt |
| SecurityThrottle.Throttle.RecordAttempt | packages/identity/src/identity-repository.ts:81-157 | one attempt rewrites count, window and block and answers from them; an invalid policy changes nothing |
| SecurityThrottle.RunsFitWindows | packages/identity/src/identity-repository.ts:115-140 | every attempt falls in its stored window and windows do not overlap |
| SecurityThrottle.WindowBound | packages/identity/src/identity-repository.ts:115-157 | at most the maximum is let through per stored window |
| SecurityThrottle.IntervalBound | packages/identity/src/identity-repository.ts:115-157 | any half-open interval as long as the window lets through at most twice the maximum less one, and at most the maximum when the window is one millisecond |
| SecurityThrottle.IntervalBoundIsTight | packages/identity/src/identity-repository.ts:115-157 | every valid policy has attempts that reach its bound |
| SecurityThrottle.BlocksHold | packages/identity/src/identity-repository.ts:115-157 | every attempt before a returned retryAt is refused and never postpones it |
| SecurityThrottle.AllowedAgain | packages/identity/src/identity-repository.ts:115-157 | once the window is over an attempt is let through exactly when no block lies ahead |
| SecurityThrottle.BlocksLast | packages/identity/src/identity-repository.ts:129-139 | a block lasts blockMs: the first refused attempt at t is told t + blockMs, and every refusal goes back to such an attempt, made before the time it is told |
| SecurityThrottle.CounterCounts | packages/identity/src/identity-repository.ts:132-134 | the counter is the number of attempts, refused ones included, in the window of the last one |
| SecurityThrottle.AllowedExactly | packages/identity/src/identity-repository.ts:129-157 | an attempt is let through if and only if no earlier block is in force and its window holds no more than the maximum; the last that fits is reported as elevated risk |
| BusinessCalendar.AddBusinessDays | packages/database/src/business-calendar-repository.ts:44-55 | an error exactly for an unsafe count or a walk past the last date object; otherwise the least date with n business days behind it, within 7 * ceil((n + holidays) / 5) days, printed as a date exactly up to the year 9999 |
| BusinessCalendar.WalkForward | packages/database/src/business-calendar-repository.ts:48-54 | the loop fails exactly when fewer than n business days are left before date objects end |
| BusinessCalendar.AdditionExists | packages/database/src/business-calendar-repository.ts:44-55 | without that limit the date exists within the bound for every start, n and finite set of holidays |
| BusinessCalendar.EnoughBusinessDays | packages/database/src/business-calendar-repository.ts:44-55 | that many weeks always hold n business days |
| BusinessCalendar.AdditionIsUnique | packages/database/src/business-calendar-repository.ts:44-55 | there is one such date |
| BusinessCalendar.BusinessDateIsAddition | packages/database/src/business-calendar-repository.ts:44-55 | a business date with n business days behind it is that date |
| BusinessCalendar.AdditionComposes | packages/database/src/business-calendar-repository.ts:44-55 | adding m and then n is adding m + n |
| BusinessCalendar.BusinessDayWindow | packages/database/src/business-calendar-repository.ts:84-115 | the refund window is the 5-day and the 7-day addition, and formatting it never fails |
| BusinessCalendar.StoredDeadline | packages/database/src/business-calendar-repository.ts:57-69 | an error exactly for a start without a four-digit year, a refused count or no date left; up to the year 9999 the last millisecond of the computed Vietnam date, not before the start; after it the day of the month is lost and the first of the month stands in |
| BusinessCalendar.DateExactly | packages/database/src/business-calendar-repository.ts:40-55 | the addition is a date that can be written exactly when n business days are left before the year 10000 |
| BusinessCalendar.EndOfDayIsLast | packages/database/src/business-calendar-repository.ts:57-82 | 16:59:59.999 UTC is the last millisecond of its Vietnam date |
| BusinessCalendar.WeekendExactly | packages/database/src/business-calendar-repository.ts:52-52 | days 7k+2 and 7k+3 after 1970-01-01, a Thursday, are Saturdays and Sundays and the only weekend days |
| BusinessCalendar.TextDaysAreYears | packages/database/src/business-calendar-repository.ts:31-42 | the first and last writable dates and the first with an unpadded year are those of the leap-year rule |

## Left out

- HTTP handlers, sessions, authentication, email, telemetry and configuration: plumbing with one-branch checks.
- Object storage, the malware scanner, encryption and keyed hashes are oracles: immutable object versions, an arbitrary verdict, injective digests. Scanner signature age and connection failures are one nondeterministic give-up step that retries.
- The file lifecycle is modelled for one file, and for many files as far as maintenance rounds tie them together; object keys of different files do not interact.
- FilePurge.OnlyLateUploadsSurvive: an upload grant used late can still write to quarantine after its mark, so the mark does not promise an empty bucket.
- Upload limits per owner and the order byte quota: the first is not an invariant under concurrency in the source, the second rests on a database function that is not part of this model.
- Idempotency.CommandTable.Begin: the formats of digests, actors and scopes, and the rejection of a malformed reference on completion, are not modelled.
- FileStatements.RefusedExactly: checks and trigger clauses on columns that no statement of the lifecycle writes (owner, object key, declared size, file name, upload order) are outside; scanner signatures are taken as the scanner client cleans them.
- FileOverload.SafeSizeExactly: file ids enter as their positions in the database's order; the clock habits that single files need are the subject of `FileAttempts.NeverRefusedExactly`.
- FileProgress.PurgedExactly: the order, the hold and the mode are what retention finds every time; an order that changes later is a later application of the same result.
- BusinessCalendar.StoredDeadline: the month arithmetic behind the first of the month is not modelled.
- File names, message text and Unicode normalisation. Publishing takes the normalised texts of the draft as an input.
- Showcases, cover images and media derivatives of a publication: the projection does not show them; of the avatar the thumbnail is modelled.
- PublicDirectory.ListCreators: the cursor's base64 text and the rejection of malformed queries are not modelled; handles and page ids enter as their positions in the database's order.
- PublicDirectory.WalkListsEveryone: capability, holds and media answers are the `visible` and `faulty` flags of a row; any port answer that empties a whole batch counts as a faulty row of it.
- CatalogPublication.DirectoryAgrees: the public query's checks of capability, holds and media, and the constant taxonomy and policy versions, are outside; disciplines are typed, so an unknown one cannot be stored.
- CatalogCommands.CatalogDatabase.ClaimHandle: the idempotency record around each command is modelled in `Idempotency.dfy`, not again here.
- CapabilityFence.PagePresentIsSafe: one creator; the user-row lock, penalties' time limits and step-up proofs only refuse commands and are a rollback.
- CreatorApplication.ApplicationRow.SaveDraft: one application; choosing the latest of several, the one-open-application index, the reapplication cooldown and retention's minimisation are outside, and eligibility checks are an input.
- CreatorApplication.ApplicationRow.DecideReview: the capability granted on approval and the session revocations are outside.
- ReplayReference.PageRoundTrip: versions are exact integers; the source's floating-point reading of more than 15 digits cannot arise from 32-bit columns.
- RetentionFence.NoWaitCycle: the 64-bit hash of a lock key is taken as injective, and rows locked beneath a page row are not separate locks.
- Outbox.OutboxTable.ClaimBatch: the rows that `skip locked` passes over are an input.
- BusinessCalendar.StoredDeadline: dates are day numbers; parsing and printing them, importing calendars and Vietnam's offsets before 1975 are outside.
- The thread's entry sequence, read models, notification and payment packages: they would add only easy members or rest on other components.
