# Solo Community core: a verified model

A Dafny model of the state-changing core of `solo-api`, and proofs of what that code promises:

* **Resumable uploads** (`document_upload.rs`). Each upload owns a manifest register of three files
  (`.json.tmp`, `.json`, `.json.bak`), a growing `upload.part`, a staged final file and an OS lock.
  `UploadStore` holds the state as a record and every file-system or library call as one `Act`.
  `ManifestRegister` and `UploadPlans` say, for each operation and every pattern of failing calls,
  which acts it performs from the store it finds; a crash leaves the store after any prefix of them.
  `StagedUpload` has the operations themselves, statement by statement, as methods of a class that
  records its calls in a journal; each is proved to perform exactly its plan. On the plans are proved:
  atomicity and durability of the register, the regularity of the unlocked reader, the invariant of
  all runs, end-to-end integrity of the bytes, publish-before-delete, when exactly the library can still
  be written (`SecondIngest`), that it holds what the receipts say (`LibraryReceipts`), the monotone
  history and the life cycle, and serialisability of any interleaving of processes. `UploadAnswers` says
  what each operation accepts, answers and leaves, in terms of the stored manifest and the bytes on disk
  alone. `StagingArea` has the locks of a whole data directory, the sweep over it and prepare.
* **Ranked relationship paths** (`graph_paths.rs`): two limited queries, merged, sorted and cut
  (`GraphPaths`, over `Ranking` and `TextOrder`).
* **Bounded directory import** (`mcp.rs`): the recursive walk under two budgets (`ImportWalk`) and the
  counting loop (`ImportLoop`).
* **The log view** (`log_tail.rs`): escape stripping over UTF-8 bytes (`EscapeCodes`, `Utf8`), the
  three redacting scanners (`SecretScan`, `SecretRescan`, `SecretHiding`, `RedactLoops`), and the last
  lines of a file (`LogTail`, `LogKeys`).
* **The sign-in address** (`account.rs`): percent-encoding, its decoder, the printer of the address and
  the parser of its query (`QueryCodec`).

`dafny verify dfyconfig.toml` checks everything. Clock readings, the outcomes of file-system calls (an
`Io` record, true where the call succeeds), the answers of the Memory Library and SHA-256 are
parameters, so every theorem is about all of them.

## Where the code does less than it seems to

Each of these is proved, with the exact condition.

* `write_manifest` starts by deleting a leftover temporary file, even one that holds the newest
  manifest. A write is crash-atomic if and only if that leftover is redundant (`CrashAtomicIff`). A
  repeated ingest that finishes a cleanup is safe against a second crash if and only if the receipt is
  not in that leftover alone (`ReplayKeepsReceiptIff`); otherwise receipt and bytes can be lost together
  (`TwoCrashesCanLoseTheReceipt`).
* For the same reason a visible receipt does not rule out a second ingest. An ingest that dies with its
  receipt in tmp alone has written the library, and status reports it as ingested; a retry that fails to
  remove the staged file and dies after its next call takes the upload back to committed, or to open, and
  it can be ingested again (`InterruptedIngestCanRepeat`). `AtMostOnceIff` says of every store that a run
  can leave whether the library can still be written. Once an ingest has answered, it cannot
  (`IngestedOnce`).
* A primary that does not parse is rotated over a good backup; with failing calls this loses the
  only copy (`FaultAtomicIff`).
* When the removal of the old backup fails, the write reports an error although recovery will find the
  new manifest (`FailedWriteIff`). An append then cuts off bytes that the manifest already counts
  (`UndoneAppendIff`). A commit moves its file back although recovery will find it committed
  (`UndoneCommitIff`): every repeated commit then answers Ok, and no ingest finds the file
  (`StrandedCommit`).
* `abort_upload` deletes the bytes before it writes the aborted manifest (`HalfAbortedIff`).
* A document whose staged file is its own part file (`upload.part`, or any name that the file system
  does not tell from it) is deleted by its commit (`CommitSucceedsIff`).
* The lock-free status read can miss an upload that exists throughout (`UnlockedReadCanMissIff`).
* Edge ids of which one continues another with a character up to U+001F make the path query and the
  final sort disagree, and a path that ranks first is cut off (`MergeIsExactIff`, `JoinedOrderIff`). So
  do edges with two negative factors (`FairlyWeighedIff`, `NegativeWeightsBreakTheMerge`). Storing a
  fact, the program inserts a UUID for the id and a bounds-checked confidence for both factors
  (`crates/solo-storage/src/triple_quality.rs:806-832`, `crates/solo-core/src/types.rs:230`), and then the
  merge is exact (`MergeOfInsertedIsExact`): it takes rows that something else has written.
* A comment at `account.rs:465` says that a malformed escape is kept; those with a plus sign before a
  digit are decoded all the same (`MalformedIsSwallowedIff`). The model follows the code.
* A base address with a `?` never reads back as it was sent (`AddressRoundTrips`).

## Model

| member | source | states |
|---|---|---|
| `ManifestRegister.WriteWalk` | crates/solo-api/src/document_upload.rs:1086-1139 | a manifest write ends in the closed form `Written`, and every store on the way is one of a handful of named ones |
| `ManifestRegister.CrashAtomicIff` | crates/solo-api/src/document_upload.rs:1035-1139 | with every call succeeding, a crash at any step leaves recovery with the old or the new manifest if and only if the leftover tmp that is deleted first was redundant |
| `ManifestRegister.FaultAtomicIff` | crates/solo-api/src/document_upload.rs:1086-1139 | the same for every pattern of failing calls, if and only if in addition no unreadable primary hides a good backup |
| `ManifestRegister.CleanWriteIsAtomic` | crates/solo-api/src/document_upload.rs:1086-1139 | from a store without a valid tmp, any failures and any crash point leave exactly old or new |
| `ManifestRegister.WriteInventsNothing` | crates/solo-api/src/document_upload.rs:1094-1139 | even from a store that is not clean, any failures and any crash point leave old, new, or what the leftover tmp had superseded |
| `ManifestRegister.SuccessfulWriteIsVisible` | crates/solo-api/src/document_upload.rs:1136-1139 | from any store whatever, a write that reports success is what loads afterwards, with tmp gone and the staged files untouched |
| `ManifestRegister.FailedWriteIff` | crates/solo-api/src/document_upload.rs:1098-1135 | a write that reports failure changed nothing that recovery sees, if and only if it did not leave its own tmp behind |
| `ManifestRegister.WriteLeavesFiles` | crates/solo-api/src/document_upload.rs:1086-1139 | a manifest write, cut short anywhere, touches only the register |
| `ManifestRegister.WritesAreDurable` | crates/solo-api/src/document_upload.rs:1035-1139 | however many later writes fail or are interrupted, recovery finds the last successful manifest or one attempted after it |
| `UnlockedReader.UnlockedReadIsRegular` | crates/solo-api/src/document_upload.rs:1040-1064 | a manifest found by reading the three files one at a time, with any acts of lock holders between the reads, was current at some instant of the read |
| `UnlockedReader.UnlockedReadCanMissIff` | crates/solo-api/src/document_upload.rs:1040-1064 | while one write replaces a manifest, a reader can find nothing although the upload exists throughout, if and only if the write rotates the primary away and then empties the backup |
| `UploadInvariant.LibraryActsOutside` | crates/solo-api/src/document_upload.rs:690-844 | every receipt the library calls can produce names a document or a stored asset, with link, extraction record and error present exactly when they should be |
| `LibraryReceipts.ReceiptTellsTheWrites` | crates/solo-api/src/document_upload.rs:690-844 | no bytes dropped: the library calls of an ingest that gets its receipt are, in order, exactly those the receipt vouches for: an asset stored, a document ingested, a link, an extraction record are among the calls if and only if the receipt names them |
| `LibraryReceipts.ReceiptTellsTheAnswers` | crates/solo-api/src/document_upload.rs:680-844 | which of these there are: the original if and only if the request says so, or is silent and the library does so by default; the document whenever it parses and, with the original, its extension is allowed; with the library's own id, chunks, bytes, flags, status and error |
| `LibraryReceipts.ReceiptIff` | crates/solo-api/src/document_upload.rs:690-821 | an ingest gets as far as a receipt if and only if the library does all that is asked of it |
| `LibraryReceipts.IngestWritesItsReceipt` | crates/solo-api/src/document_upload.rs:641-845 | a first ingest that answers Ok has appended to the library's log exactly the writes of its receipt |
| `LibraryReceipts.ReceiptsAreBacked` | crates/solo-api/src/document_upload.rs:919-941 | from prepare on, over every run with any crashes and failures at any clock readings, every receipt that recovery could surface has its writes in the library's log |
| `LibraryReceipts.RepliesAreBacked` | crates/solo-api/src/document_upload.rs:650-665 | and so has every receipt that an ingest answers with, first or repeated |
| `UploadAnswers.PrepareIff` | crates/solo-api/src/document_upload.rs:251-283 | which requests are prepared; the manifest is open, unexpired for an hour, for exactly the announced names, type, size and digest, and it is one that the theorems on runs start from |
| `UploadAnswers.AppendIff` | crates/solo-api/src/document_upload.rs:405-463 | with every call succeeding, a chunk is accepted if and only if it continues an open, unexpired upload where both manifest and part file end, fits, and agrees on the length; a refused one changes nothing, and is a conflict when only its offset is wrong |
| `UploadAnswers.AppendDoes` | crates/solo-api/src/document_upload.rs:464-486 | an accepted chunk is at the end of the part file, nothing else on disk has changed, and manifest and answer count it |
| `UploadAnswers.CommitIff` | crates/solo-api/src/document_upload.rs:575-617 | with every call succeeding, an open, unexpired upload is committed if and only if all bytes are there and the governing digest, the request's or else the announced one, is theirs |
| `UploadAnswers.WrongDigestIsRefused` | crates/solo-api/src/document_upload.rs:598-610 | whatever fails, bytes whose digest is not the governing one are never committed, and the attempt changes nothing |
| `UploadAnswers.CommitDoes` | crates/solo-api/src/document_upload.rs:610-638 | a commit that answers Ok has moved the part file under its final name and recorded its digest |
| `UploadAnswers.CommitRepeats` | crates/solo-api/src/document_upload.rs:556-566 | a repeated commit answers as the first, from the manifest alone, until the expiry |
| `UploadAnswers.IngestIff` | crates/solo-api/src/document_upload.rs:666-690 | with every manifest write succeeding, a committed upload is ingested if and only if it is unexpired, its file is there and the library does all that is asked of it |
| `UploadAnswers.IngestDoes` | crates/solo-api/src/document_upload.rs:919-941 | what a first ingest that answers Ok leaves: the log, the receipt stored for a day with its flags and time, and the staged file unless it goes |
| `UploadAnswers.ReplayDoes` | crates/solo-api/src/document_upload.rs:650-665 | a repeated ingest answers with the stored receipt, and when the staged file is still to be dealt with, removes it and stores and answers whether that succeeded |
| `UploadAnswers.AbortIff` | crates/solo-api/src/document_upload.rs:512-549 | an abort is refused if and only if a receipt stands; it says which files it found, leaves none, and keeps the aborted manifest for a day |
| `UploadAnswers.SweepIff` | crates/solo-api/src/document_upload.rs:1201-1211 | a sweep says that it took an upload if and only if it found it past its expiry and all removals succeeded |
| `UploadAnswers.StatusForetells` | crates/solo-api/src/document_upload.rs:489-496 | a status report foretells what the operations answer at that moment: the only offset an append can have, what a repeated commit and a repeated ingest give, and that nothing is left to do |
| `UploadAnswers.RefusalsTell` | crates/solo-api/src/document_upload.rs:405-690 | past its expiry a request is invalid, in a wrong status it is a conflict, and a missing staged file is not found |
| `UploadInvariant.GoodStep` | crates/solo-api/src/document_upload.rs:1035-1139 | each allowed act keeps the register invariant: every manifest that could surface is this upload's, in a stored status with the fields that go with it; older ones expire no later and have a receipt only if the newer ones have the same |
| `UploadInvariant.OperationIsGood` | crates/solo-api/src/document_upload.rs:398-665 | append, commit, ingest, abort and sweep, with any calls failing, perform only such acts |
| `UploadInvariant.PublishedIsProper` | crates/solo-api/src/document_upload.rs:919-933 | the published receipt belongs to this upload and never expires before the committed manifest it replaces |
| `UploadInvariant.RemovalWalk` | crates/solo-api/src/document_upload.rs:1217-1225 | deleting an upload takes part, final, tmp, primary and backup in that order, and leaves nothing |
| `UploadRuns.RunsAreGood` | crates/solo-api/src/document_upload.rs:398-941 | the register invariant holds at every instant of every run of operations, cut short by crashes anywhere |
| `UploadRuns.PreparedIsGood` | crates/solo-api/src/document_upload.rs:245-346 | prepare, complete or cut short, establishes it, with no files and nothing ingested |
| `UploadRuns.SweepIsSound` | crates/solo-api/src/document_upload.rs:1162-1225 | a sweep deletes only what was expired when re-read under the lock; a crash or error inside leaves nothing or something still expired; success leaves nothing |
| `UploadRuns.SweepsSpareTheLiving` | crates/solo-api/src/document_upload.rs:1204-1208 | however many sweeps come by among other operations, cut short anywhere, the run leaves what it would have left without them, as long as none of them finds an expired manifest |
| `UploadRuns.NoSweepBeforeExpiry` | crates/solo-api/src/document_upload.rs:1204-1208 | and until the expiry that prepare granted none does, whatever else happens to the upload |
| `UploadIntegrity.UploadsAreIntact` | crates/solo-api/src/document_upload.rs:426-638 | when appends carry slices of one file, over every run with retries, wrong offsets, torn writes, rollbacks and crashes, at any clock readings, the part is a prefix of the file, the staged file is the file, and every recorded digest is its digest |
| `UploadIntegrity.OperationIsIntact` | crates/solo-api/src/document_upload.rs:398-665 | every act of every operation keeps that |
| `UploadIntegrity.AppendActsAreIntact` | crates/solo-api/src/document_upload.rs:445-486 | an append only ever extends the part by the file's next bytes, and cuts back only its own |
| `UploadIntegrity.CommitDeliversTheFile` | crates/solo-api/src/document_upload.rs:576-638 | a commit that answers Ok for an open upload leaves exactly the file under its final name, with its size and digest recorded and replied |
| `UploadIntegrity.CommitRepliesAgree` | crates/solo-api/src/document_upload.rs:559-566 | any successful commit reply, first or repeated, reports the file's digest and size |
| `UploadIntegrity.CommitSucceedsIff` | crates/solo-api/src/document_upload.rs:615-617 | an accepted commit whose calls succeed delivers, if and only if the staged file is not the part file; when it is, the commit deletes it |
| `UploadIngest.PublishBeforeDelete` | crates/solo-api/src/document_upload.rs:899-941 | from every committed upload with its file, whatever a crash has left in tmp, at every crash point of the publication: if the staged file is gone then recovery finds an ingested manifest with a receipt |
| `UploadIngest.ReplayRecoversReceipt` | crates/solo-api/src/document_upload.rs:650-665 | whatever fails in an ingest and wherever it is cut short, whenever recovery finds a receipt, a repeated ingest that answers gives the published one up to the flags, and one whose calls succeed gives exactly the uninterrupted run's reply up to the replay flag |
| `UploadIngest.ReplayKeepsReceiptIff` | crates/solo-api/src/document_upload.rs:656-665 | a repeated ingest that finishes a cleanup, whatever fails and wherever it is cut short, keeps the receipt or the file, if and only if the receipt is not in tmp alone |
| `UploadIngest.AtMostOneIngest` | crates/solo-api/src/document_upload.rs:641-845 | from a closed store on, no run of operations writes to the library again, and every successful ingest reply is the one receipt |
| `UploadIngest.PublishingSeals` | crates/solo-api/src/document_upload.rs:919-941 | at every crash point of the publication where recovery finds the receipt, the upload is sealed against a second ingest if and only if nothing under tmp could still be ingested; and once the receipt has been renamed into place, nothing could |
| `UploadIngest.ReplayCloses` | crates/solo-api/src/document_upload.rs:650-665 | so does a repeated ingest that answers Ok, even from a receipt in tmp alone |
| `UploadIngest.IngestIsFinal` | crates/solo-api/src/document_upload.rs:641-845 | after a complete ingest that answered Ok, every later run leaves the library alone and repeats that answer: for a first ingest from any store and at any clock readings, for a repeated one when the clock does not go back |
| `UploadIngest.IngestedOnce` | crates/solo-api/src/document_upload.rs:245-941 | from prepare on, whatever happens before: once an ingest has answered Ok the library is never written for that upload again, and all later Ok replies are the same receipt; clocks matter only when that ingest was a repeated one |
| `UploadIngest.ForGood` | crates/solo-api/src/document_upload.rs:398-941 | a store that holds no manifest but the receipt stays so under every run of operations, at any clock readings, without a call of the library |
| `SecondIngest.AtMostOnceIff` | crates/solo-api/src/document_upload.rs:641-941 | from every store that a run can leave, no later run writes to the library if and only if no upload is left to ingest: none that is open or committed, unexpired and has its bytes or can start afresh; and no receipt in want of a cleanup over one that is |
| `SecondIngest.InterruptedIngestCanRepeat` | crates/solo-api/src/document_upload.rs:1094-1117 | an ingest that dies once its receipt is complete in tmp has written the library and is reported as ingested, and the library can be written for it again |
| `UploadIngest.OperationIsSealed` | crates/solo-api/src/document_upload.rs:398-941 | no operation on a sealed upload calls the library or brings back an older manifest |
| `UploadIngest.TwoCrashesCanLoseTheReceipt` | crates/solo-api/src/document_upload.rs:1094-1094 | the run behind that condition: two crashes in a row leave the upload committed, without bytes and without receipt, after the library was written |
| `UploadHistory.OperationMovesForward` | crates/solo-api/src/document_upload.rs:269-1225 | one operation on any upload, without a crash and with tidy manifest writes, whatever else fails: the status only moves Open to Committed to Ingested or to Aborted; bytes received and expiry never decrease; id, name and size never change; an upload disappears only when swept |
| `UploadHistory.HistoryMovesForward` | crates/solo-api/src/document_upload.rs:481-574 | the same over every crash-free run, torn appends, failed roll-backs and half-done aborts included, for any file name |
| `UploadHistory.TidyWriteIff` | crates/solo-api/src/document_upload.rs:1098-1135 | which failures a manifest write may have without leaving a trace for recovery, from whatever store |
| `UploadLifecycle.OperationStepsForward` | crates/solo-api/src/document_upload.rs:269-638 | for an upload not named like its part file, an operation whose own undo steps succeed keeps the life-cycle invariant: what the files are in each status |
| `UploadLifecycle.LifeOnlyMovesForward` | crates/solo-api/src/document_upload.rs:269-1225 | the same over every crash-free run of such operations: Open means the part is as long as the bytes received, Committed and Ingested that the staged file matches size and digest, Aborted that there are no files |
| `UploadLifecycle.PreparedIsSteady` | crates/solo-api/src/document_upload.rs:269-290 | a successful prepare establishes the life-cycle invariant |
| `UploadHistory.TidyWriteEffect` | crates/solo-api/src/document_upload.rs:1086-1139 | a tidy manifest write is all or nothing, as reported |
| `UploadLifecycle.UndoneAppendIff` | crates/solo-api/src/document_upload.rs:476-485 | an append whose manifest write failed and was rolled back leaves the upload as it was, if and only if the write left no stray tmp |
| `UploadLifecycle.UndoneCommitIff` | crates/solo-api/src/document_upload.rs:618-634 | a commit whose manifest write failed leaves the upload open, if and only if the write left no stray tmp; the bytes are back if and only if the renaming is undone |
| `UploadLifecycle.StrandedCommit` | crates/solo-api/src/document_upload.rs:559-566 | with a stray tmp and the renaming undone, repeated commits answer Ok with the digest, and every ingest answers not-found |
| `UploadLifecycle.HalfAbortedIff` | crates/solo-api/src/document_upload.rs:531-540 | an abort whose manifest write fails leaves the old status without its bytes, harmlessly if and only if there were none |
| `UploadConcurrency.EveryInterleavingIsSerial` | crates/solo-api/src/document_upload.rs:1257-1317 | however the steps of any processes interleave and wherever some die, the store is what the operations leave when run one after another in lock-acquisition order |
| `UploadConcurrency.WithoutDeathsWholeOperations` | crates/solo-api/src/document_upload.rs:415-416 | without deaths it is the store of the whole operations in that order |
| `UploadConcurrency.ConcurrentUploadsAreIntact` | crates/solo-api/src/document_upload.rs:514-515 | so the integrity of the bytes holds of every interleaving at any clock readings, and the register invariant when receipts outlive the upload |
| `UploadOrder.OperationIsOrderly` | crates/solo-api/src/document_upload.rs:1098-1137 | from any store and at any clock, every operation publishes only a complete tmp, restores only over a missing primary and deletes a primary only without a tmp |
| `UploadConcurrency.BusyStatusIsRegular` | crates/solo-api/src/document_upload.rs:497-508 | what the lock-free branch of a status request reports was the upload's state at some instant of the request, in every interleaving from any store |
| `UploadConcurrency.ConcurrentlyIngestedOnce` | crates/solo-api/src/document_upload.rs:641-845 | in every interleaving, once one turn is a complete ingest that answered Ok, the library stays as that turn left it and later Ok replies are the same receipt; clocks matter only when that ingest was a repeated one |
| `StagedUpload.Upload.LoadManifest` | crates/solo-api/src/document_upload.rs:1035-1073 | the loop over the three files finds what `Load` says: the first that parses, a storage error for another upload's manifest or for unreadable files, not-found for none |
| `StagedUpload.Upload.WriteManifest` | crates/solo-api/src/document_upload.rs:1086-1139 | performs exactly the calls of `WritePlan`, whichever of them fail, and reports as it says |
| `StagedUpload.Upload.AppendChunk` | crates/solo-api/src/document_upload.rs:415-486 | performs exactly `AppendPlan`: checks in order, bytes one by one, then the manifest, then the roll-back |
| `StagedUpload.Upload.CommitUpload` | crates/solo-api/src/document_upload.rs:551-638 | performs exactly `CommitPlan`, including the replies of repeated commits; and with a wrong digest changes nothing and answers an error |
| `StagedUpload.Upload.MoveAndPublish` | crates/solo-api/src/document_upload.rs:610-638 | renames the part, publishes, and undoes the renaming when publishing fails |
| `StagedUpload.Upload.AbortUpload` | crates/solo-api/src/document_upload.rs:512-549 | performs exactly `AbortPlan`: files first, then the aborted manifest |
| `StagedUpload.Upload.SweepUpload` | crates/solo-api/src/document_upload.rs:1201-1211 | re-reads under the lock and performs exactly `SweepPlan` |
| `StagedUpload.Upload.Cleanup` | crates/solo-api/src/document_upload.rs:899-917 | deletes the staged file unless it is retained, and touches no manifest |
| `StagedUpload.Upload.FinalizeIngest` | crates/solo-api/src/document_upload.rs:919-941 | publishes, cleans up, records the clean-up: exactly `FinalizePlan` |
| `StagedUpload.Upload.ReplayIngest` | crates/solo-api/src/document_upload.rs:650-665 | answers from the stored receipt, finishing an interrupted clean-up |
| `StagedUpload.Upload.IngestIntoLibrary` | crates/solo-api/src/document_upload.rs:690-844 | makes exactly the library calls of `LibraryPlan` and builds its receipt; when it does, the calls are those the receipt vouches for |
| `StagedUpload.Upload.IngestStagedDocument` | crates/solo-api/src/document_upload.rs:641-845 | performs exactly `IngestPlan` |
| `StagedUpload.Upload.Status` | crates/solo-api/src/document_upload.rs:489-496 | reports the loaded manifest, changing nothing |
| `StagedUpload.PrepareUpload` | crates/solo-api/src/document_upload.rs:251-290 | creates an upload that loads as its open manifest and is a start of runs, or gives the error of the request, or a storage error |
| `StagingArea.SweepTakesExactlyTheDoomed` | crates/solo-api/src/document_upload.rs:1162-1215 | a sweep that succeeds has emptied every listed upload that was expired and not locked, left every other one exactly as it was, and counted the emptied ones |
| `StagingArea.SweepSparesTheRest` | crates/solo-api/src/document_upload.rs:1184-1208 | even a sweep that fails half-way never touches an upload that is locked or was not expired |
| `StagingArea.IdOfIff` | crates/solo-api/src/document_upload.rs:1227-1232 | a listed file belongs to an upload if and only if it is one of its three manifest files |
| `StagingArea.DueIff` | crates/solo-api/src/document_upload.rs:1184-1190 | an upload is due if and only if its own manifest is past its expiry |
| `StagingArea.StagingArea.SweepExpiredUploads` | crates/solo-api/src/document_upload.rs:1162-1215 | the loop over the directory does what `SweepAll` says, once per upload however many of its files are listed, and gives every lock back |
| `StagingArea.StagingArea.PrepareUpload` | crates/solo-api/src/document_upload.rs:245-290 | a request that passes the checks sweeps first, whatever comes of that, and adds a start of runs to what the sweep left; one that does not changes nothing |
| `StagingArea.StagingArea.TryAcquire` | crates/solo-api/src/document_upload.rs:1261-1317 | the lock is got exactly when nobody holds it and the calls succeed; contention and failure leave locks and registry as they were; the operation can then be read back |
| `StagingArea.StagingArea.Release` | crates/solo-api/src/document_upload.rs:227-238 | dropping the lock forgets the operation and frees the upload |
| `StagingArea.StagingArea.OperationOf` | crates/solo-api/src/document_upload.rs:1319-1339 | the reported operation is one of the five known ones or `unknown` |
| `StagingArea.StagingArea.Status` | crates/solo-api/src/document_upload.rs:489-510 | a held upload is reported busy with its operation and never as terminal; a free one by its manifest |
| `GraphPaths.MergeIsExact` | crates/solo-api/src/graph_paths.rs:145-274 | when qualifying edges are fairly weighed, and of the first ids of two qualifying chains of equal weight none continues the other with a character up to U+001F, the two limited queries, merged, sorted and cut, are the first `limit` of all qualifying paths |
| `GraphPaths.MergeIsExactIff` | crates/solo-api/src/graph_paths.rs:145-274 | two ids of edges that leave the source keep the merge exact, however the chains go on, if and only if neither continues the other with a character up to U+001F |
| `GraphPaths.MergeOfInsertedIsExact` | crates/solo-storage/src/triple_quality.rs:806-832 | the merge is exact on every table of rows as the program inserts them |
| `TextOrder.JoinedOrderIff` | crates/solo-api/src/graph_paths.rs:257-271 | joining pairs of ids with U+001F keeps their order, whatever the second ids, under exactly that condition |
| `TextOrder.FirstDifference` | crates/solo-api/src/graph_paths.rs:257-271 | ids are ordered by their first different character |
| `GraphPaths.DisagreementBreaksTheMerge` | crates/solo-api/src/graph_paths.rs:213-274 | wherever query and sort rank the only two chains differently, limit 1 cuts off the path that should come first |
| `GraphPaths.FairlyWeighedIff` | crates/solo-api/src/graph_paths.rs:47-49 | an edge keeps its rank against every edge of non-negative weight if and only if neither of its factors is negative, or their product is zero |
| `GraphPaths.NegativeWeightsBreakTheMerge` | crates/solo-api/src/graph_paths.rs:163-164 | two negative factors cut off any path of smaller weight |
| `GraphPaths.DirectOrderAgrees` | crates/solo-api/src/graph_paths.rs:163-164 | the direct query ranks as the final sort does |
| `GraphPaths.TwoHopOrderAgrees` | crates/solo-api/src/graph_paths.rs:201-203 | the two-hop query ranks as the final sort does, joined keys included |
| `GraphPaths.RankedIsBest` | crates/solo-api/src/graph_paths.rs:252-274 | a qualifying two-edge chain is in the result, or the result is full of paths that rank no lower |
| `GraphPaths.DirectIsBest` | crates/solo-api/src/graph_paths.rs:252-274 | the same for a direct edge |
| `GraphPaths.OnlyQualifyingPaths` | crates/solo-api/src/graph_paths.rs:145-247 | nothing else is in the result: every path is a chain over the table |
| `GraphPaths.AllPathsIff` | crates/solo-api/src/graph_paths.rs:51-202 | the qualifying paths are exactly the chains: from the source node to the target node over one or two usable rows that meet elsewhere, each edge showing its row field by field, with the score and reasons that follow from the rows |
| `GraphPaths.FetchedAreChains` | crates/solo-api/src/graph_paths.rs:213-274 | whatever the two queries rank, all that is returned is chains over the table, no more than the limit, best score first, then fewer hops, then the joined ids |
| `GraphPaths.ChainsAreFetched` | crates/solo-api/src/graph_paths.rs:213-274 | where queries and sort rank alike, a chain over the table is returned, or as many as the limit that rank before it |
| `GraphPaths.LargerLimitExtends` | crates/solo-api/src/graph_paths.rs:213-274 | although both queries are limited anew, a larger limit only extends what is returned |
| `GraphPaths.BuildGraphPath` | crates/solo-api/src/graph_paths.rs:51-88 | nodes from source to target of the steps, hops, score and reasons of one path |
| `GraphPaths.FetchGraphRelationshipPaths` | crates/solo-api/src/graph_paths.rs:213-275 | the procedure returns chains over the table, and the first `limit` of all qualifying paths |
| `ImportWalk.WalkRefinesListing` | crates/solo-api/src/mcp.rs:1844-1929 | both budgets hold; every file is eligible; below the entry cap the result is the longest prefix of the sorted depth-first listing that fits; an untruncated result leaves nothing out |
| `ImportWalk.ListedIff` | crates/solo-api/src/mcp.rs:1873-1928 | a file is listed if and only if it has an allowed extension and neither it nor any directory on the way to it is hidden, with no directory on the way unless recursive |
| `ImportWalk.SiblingsInOrder` | crates/solo-api/src/mcp.rs:1871-1874 | what an entry contributes stands between what its siblings do, in the order of their paths |
| `ImportWalk.DirectoryUncapped` | crates/solo-api/src/mcp.rs:1861-1865 | a tree with no more entries than the budget is never capped |
| `ImportWalk.SoundTreeIsWalked` | crates/solo-api/src/mcp.rs:1844-1929 | the walk gives up only on what the operating system refuses, hidden entries aside |
| `ImportWalk.Collector.ReadEntries` | crates/solo-api/src/mcp.rs:1858-1871 | reading a directory takes its first entries, up to what is left of the shared budget, or fails when one of those cannot be listed |
| `ImportWalk.Collector.CollectDir` | crates/solo-api/src/mcp.rs:1844-1929 | the recursive procedure, with its two shared counters and its errors, is the walk |
| `ImportWalk.Collector.CollectEntries` | crates/solo-api/src/mcp.rs:1873-1928 | so is its loop over the sorted entries |
| `ImportWalk.CollectImportFiles` | crates/solo-api/src/mcp.rs:1795-1842 | a file alone, a directory's files by path, or an error |
| `ImportLoop.IngestImportFiles` | crates/solo-api/src/mcp.rs:5072-5179 | one result per file in order, with that file's path and size and the library's answers, and every counter counts the results that it names |
| `ImportLoop.ImportOne` | crates/solo-api/src/mcp.rs:5101-5165 | one turn of the loop moves exactly the counters that its result names |
| `ImportLoop.SummaryTellsTheAnswers` | crates/solo-api/src/mcp.rs:5072-5179 | every counter is the number of files to which the library answered so; without originals to keep, nothing is counted of them |
| `ImportLoop.BooksBalance` | crates/solo-api/src/mcp.rs:5072-5179 | imported, deduped and failed add up to the files; with originals kept, retained and asset failures add up to imported and deduped |
| `Utf8.LossyOfText` | crates/solo-api/src/log_tail.rs:295-295 | the lossy conversion gives back any text that is valid UTF-8 |
| `Utf8.EncodedBits` | crates/solo-api/src/account.rs:185-185 | each character is encoded in the bytes of Table 3-6 of the Unicode Standard |
| `Utf8.LossyKeepsAscii` | crates/solo-api/src/account.rs:486-486 | no ASCII byte is swallowed or invented by malformed bytes around it |
| `EscapeCodes.StripRemovesWholeCharacters` | crates/solo-api/src/log_tail.rs:273-296 | on text, the byte scanner removes exactly the control sequences and lone escapes, whole characters only |
| `EscapeCodes.ParseIsWellFormed` | crates/solo-api/src/log_tail.rs:277-294 | every line is made of plain characters, control sequences and lone escapes |
| `EscapeCodes.ParseIsUnique` | crates/solo-api/src/log_tail.rs:277-294 | in exactly one way |
| `EscapeCodes.StripIsIdempotent` | crates/solo-api/src/log_tail.rs:273-296 | no ESC remains, and stripping again changes nothing |
| `EscapeCodes.ControlIsRemoved` | crates/solo-api/src/log_tail.rs:277-288 | a control sequence, up to its first character from @ to ~, leaves nothing, finished or not |
| `EscapeCodes.LoneIsRemoved` | crates/solo-api/src/log_tail.rs:289-291 | a lone ESC goes and what follows it stays |
| `EscapeCodes.StripAnsi` | crates/solo-api/src/log_tail.rs:273-296 | the loop's bytes are valid text, so the lossy conversion replaces nothing |
| `SecretScan.PiecesAreTheLine` | crates/solo-api/src/log_tail.rs:96-205 | the kept stretches and the hidden values, in order, are the line: every other character is kept |
| `SecretScan.OnlySecretsAreHidden` | crates/solo-api/src/log_tail.rs:207-271 | each hidden stretch follows a key that stands alone and separators, and runs exactly to the end of a bare or quoted value |
| `SecretHiding.FirstIsHidden` | crates/solo-api/src/log_tail.rs:96-205 | the value after the first occurrence of a key that stands alone is hidden, bare or quoted, after any blanks and the separators of its kind; all before and the separators are kept, and the rest is scanned on |
| `SecretHiding.TokensAreWhole` | crates/solo-api/src/log_tail.rs:245-271 | no character of a token ends a value |
| `SecretHiding.AnyCaseMatches` | crates/solo-api/src/log_tail.rs:97-100 | a key is found in any case |
| `SecretHiding.StandsAloneIff` | crates/solo-api/src/log_tail.rs:226-231 | a key stands alone unless a letter, digit, underscore or hyphen runs into it |
| `LogKeys.NamedSecretsAreHidden` | crates/solo-api/src/log_tail.rs:65-94 | the whole sanitizer hides the number after each of the nineteen names, and no pass spoils the work of another |
| `SecretRescan.RescanChangesNothing` | crates/solo-api/src/log_tail.rs:96-205 | scanning again with the same key changes nothing, for every key that cannot be mistaken for the marker |
| `SecretRescan.OnlyBoundaryMatters` | crates/solo-api/src/log_tail.rs:226-231 | of the text before, a scanner depends only on whether a key could stand alone |
| `RedactLoops.Redact` | crates/solo-api/src/log_tail.rs:96-205 | the cursor loop terminates and writes what the scanner says |
| `RedactLoops.ProbeBearer` | crates/solo-api/src/log_tail.rs:108-117 | where the bearer loop stops, skips or finds a value |
| `RedactLoops.ProbeAssignment` | crates/solo-api/src/log_tail.rs:144-156 | the same for an assignment |
| `RedactLoops.ProbeFlag` | crates/solo-api/src/log_tail.rs:183-193 | the same for a flag |
| `RedactLoops.SkipHorizontalWhitespace` | crates/solo-api/src/log_tail.rs:214-224 | stops at the first character that is no blank |
| `RedactLoops.SecretValueRange` | crates/solo-api/src/log_tail.rs:233-243 | the value between quotes, or up to a terminator |
| `RedactLoops.SecretValueEnd` | crates/solo-api/src/log_tail.rs:245-271 | stops at the first terminator |
| `LogTail.PassesAreIdempotent` | crates/solo-api/src/log_tail.rs:65-94 | each single one of the nineteen passes of the sanitizer, repeated, changes nothing |
| `LogTail.SanitizeLogText` | crates/solo-api/src/log_tail.rs:65-94 | runs the passes in order |
| `LogTail.FittingIsLongest` | crates/solo-api/src/log_tail.rs:39-45 | a prefix fits the byte limit if and only if it is no longer than the one kept |
| `LogTail.BoundedIff` | crates/solo-api/src/log_tail.rs:37-48 | a line of up to 4096 bytes is shown whole, a longer one up to the last character that fits, and marked |
| `LogTail.NormalizeLogLine` | crates/solo-api/src/log_tail.rs:37-48 | strips, sanitizes, and cuts at the last character boundary within the limit |
| `LogTail.ShownLineIsSafe` | crates/solo-api/src/log_tail.rs:37-48 | a shown line is bounded in bytes and has no ESC, whatever the log holds |
| `LogTail.ReadTailLines` | crates/solo-api/src/log_tail.rs:17-35 | the last `limit` normalised lines with their levels, or the first read error; a limit of zero never opens the file |
| `LogTail.TailIff` | crates/solo-api/src/log_tail.rs:17-35 | of a file without read errors the last lines are shown, in order, each with its level |
| `LogTail.LevelIff` | crates/solo-api/src/log_tail.rs:50-63 | the level is the word that the line starts with, blanks aside |
| `QueryCodec.RoundTrip` | crates/solo-api/src/account.rs:183-486 | decoding undoes encoding for every text |
| `QueryCodec.EscapedHasNoDelimiter` | crates/solo-api/src/account.rs:180-197 | nothing in an encoded value can end it |
| `QueryCodec.EscapedByte` | crates/solo-api/src/account.rs:185-193 | letters, digits and four marks are kept, every other byte becomes a percent sign and two digits |
| `QueryCodec.PercentIsKeptIff` | crates/solo-api/src/account.rs:463-474 | when exactly the decoder keeps a percent sign as it stands |
| `QueryCodec.MalformedIsSwallowedIff` | crates/solo-api/src/account.rs:463-474 | of the malformed escapes, exactly those with a plus sign before a digit are swallowed, as that digit |
| `QueryCodec.PlusPassesForDigit` | crates/solo-api/src/account.rs:457-487 | in text, with anything after it, such an escape becomes one control character |
| `QueryCodec.EncodeComponent` | crates/solo-api/src/account.rs:183-197 | the loop writes the escaped bytes |
| `QueryCodec.DecodeComponent` | crates/solo-api/src/account.rs:457-487 | the index loop writes the unescaped bytes |
| `QueryCodec.PairsConcat` | crates/solo-api/src/account.rs:450-454 | a query is parsed piece by piece |
| `QueryCodec.PieceIsPair` | crates/solo-api/src/account.rs:450-454 | the first equals sign of a piece ends its key, and a piece without one is dropped |
| `QueryCodec.QueryParses` | crates/solo-api/src/account.rs:446-455 | a printed list of fields parses back to that list, whatever the values contain |
| `QueryCodec.AddressRoundTrips` | crates/solo-api/src/account.rs:158-178 | parsing the sign-in address gives client id, challenge method, redirect address, challenge, state and device name, each under its own key, if and only if the base has no question mark |
| `QueryCodec.AddressIsConnectPage` | crates/solo-api/src/account.rs:160-163 | the address is the connect page under the base without its last slashes |
| `QueryCodec.PrintAuthorizeUrl` | crates/solo-api/src/account.rs:160-177 | the loop prints that address, and for a base without a question mark it reads back as those six pairs |

## Left out

- HTTP, MCP and JSON-RPC plumbing, tool schemas, argument checks of the handlers, progress reports, cancellation: table lookups and formatting.
- JSON: a manifest file is absent, unreadable or holds a manifest; that serialising and parsing agree is taken for granted.
- The Memory Library is an oracle whose successful writes are logged; a library call that fails leaves no entry.
- SHA-256 is a function parameter; hashing a file chunk by chunk is not modelled. UUIDs, filename and digest normalisation are parameters of prepare and commit.
- Files are read and written without transient read errors; fsync, directories and permissions are not modelled. An error that leaves a half-written temporary file is.
- Directory removal and creation count only as calls that may fail.
- Clocks: after a repeated ingest, at-most-once assumes that the clock does not go back, since a committed manifest may be left under the receipt for a sweep that stops half-way to uncover; after a first ingest it assumes nothing.
- UploadLifecycle.OperationStepsForward: what the files are in each status is claimed only when the undo steps that the code has succeed (`Tidy`) and the staged file is not the part file; `UndoneAppendIff`, `UndoneCommitIff`, `HalfAbortedIff` and `CommitSucceedsIff` say what happens otherwise, and the history moves forward all the same. After a torn append the code promises no progress and neither does the model.
- UploadHistory.HistoryMovesForward: assumes tidy manifest writes, because a stray tmp that a later write deletes takes the history back, and that no sweep stops between deleting the primary and the backup, for the same reason.
- UploadIntegrity.CommitSucceedsIff: file names are compared exactly. On a file system that folds case, `sanitizedFilename` stands for the folded name, and every name that folds to `upload.part` is one with it.
- Dropping the future of an append (`crates/solo-api/src/http.rs:4793`) releases the lock while a write may still be in flight; a process that dies in the model stops writing when it gives up the lock.
- Interleaving is modelled for one upload at a time; `StagingArea` runs one operation at a time over many uploads.
- UploadInvariant.OperationIsGood: assumes of ingest and abort that the receipt they date does not expire before the upload would have (`ClockOk`); a clock that is a day behind shortens its life.
- The SQL queries are filter, sort and take over a table of rows; the evidence subquery is a field. Scores are exact and compared by their squares; rounding and NaN are not modelled.
- GraphPaths.MergeIsExact: assumes fairly weighed edges and ids that do not collide, because without them it is false (`NegativeWeightsBreakTheMerge`, `MergeIsExactIff`).
- Cancellation of the directory walk; whether a path is hidden or has an allowed extension is a field of the entry, and so is what the operating system refuses to say about it.
- Positions in a log line count characters, not bytes; the bytes matter only for stripping and truncation, where they are modelled. The three redacting loops share one body with three probes.
- LogTail.PassesAreIdempotent: is about single passes. That the whole sanitizer is idempotent is not claimed: a scanner skips what follows a key without a value, and a later pass may hide that key.
- SecretScan.OnlySecretsAreHidden: does not claim that every secret is found; the cursor deliberately skips.
- SecretRescan.RescanChangesNothing: asks that the key be no part of the marker and not start with a terminator, as all keys of the program satisfy.
- Splitting a file into lines and decoding it is the library's; a line that is not UTF-8 is a read error.
- The callback listener, token storage, network calls and browser start of the sign-in.
