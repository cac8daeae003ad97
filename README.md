# gui-sync sync engine, modelled in Dafny

gui-sync keeps an S3 bucket in step with a local directory. Each sync cycle
(`syncDirectoryWithS3`) has two phases:

- **Upload phase** (`uploadDirectoryToS3`). The engine walks the directory
  and skips directories and every file whose slash-normalised relative path
  is listed in `.syncignore`. For each remaining file it asks S3 whether the
  file changed (`fileChangedOnS3`: HEAD, size, timestamp, then the MD5
  digest against the ETag). It queues the changed files, and workers upload
  them (`uploadFileS3`: one PUT, or the multipart uploader above 100 MiB).
- **Reconciliation pass** (`deleteRemovedFilesFromS3`). This runs only when
  the upload phase succeeded. The engine walks the tree again, collects
  every local key, lists the bucket page by page and deletes every object
  whose key is not local.

The `.syncignore` loader (`loadSyncIgnoreFile`) keeps every trimmed line
that is neither blank nor a `#` comment. The matcher (`shouldIgnore`) is
exact, case-sensitive string equality.

The model works on values.

- **Outside world as inputs.** The directory walk is a sequence of
  `WalkItem`s. The answers of S3 and of the file system are functions from
  object key to outcome, held in `Pipeline.Env`: HEAD, stat, MD5, open, and
  PUT or multipart. The bucket listing is a sequence of pages plus a failure
  flag. The outcome of each DELETE is a predicate on keys.
- **The ignore list.** The process-wide `ignorePatterns` slice is passed in
  and handed back as a value.
- **Loops become methods.** Where the Go code loops to build up state, the
  model has a method with a loop, proved against a specification function.
  The exception is `shouldIgnore`'s search loop, which only computes a
  boolean and is the recursive function `ShouldIgnore`. The loop methods
  are:
  - `LoadSyncIgnoreFile` against `KeptPatterns`;
  - `QueueTasks` against `Scan`;
  - `DrainQueue` against `UploadFailures`;
  - `CollectLocalFiles` against `LocalKeys`;
  - `IssueDeletes` against `DeleteRequests` and `Confirmed`.

  The lemmas then state what the source promises about those functions.

Modules, one per file:

| file | module | contents |
|---|---|---|
| `sync_types.dfy` | `SyncTypes` | the threshold, `Option`, `Result`, the engine's errors |
| `text.dfy` | `Text` | `strings.Trim`, `strings.TrimSpace`, single-character `strings.ReplaceAll` |
| `walk.dfy` | `Walk` | walk items and the object key |
| `ignore.dfy` | `Ignore` | `shouldIgnore` and `loadSyncIgnoreFile`; `IsPatternLine` is the blank-or-comment test of main.go:351 |
| `change_detection.dfy` | `ChangeDetection` | `fileChangedOnS3` |
| `upload.dfy` | `Upload` | `uploadFileS3` and `uploadMultipart` |
| `pipeline.dfy` | `Pipeline` | `uploadDirectoryToS3`; `WalkStep` is its walk callback (main.go:159-199), `Advance` how one callback answer extends the walk, and `TaskUpload` a worker's upload of one task (main.go:146) |
| `reconcile.dfy` | `Reconcile` | `deleteRemovedFilesFromS3`; `Flatten` is the sequence of keys over the fetched pages (main.go:242-243) |
| `cycle.dfy` | `Cycle` | `syncDirectoryWithS3` and cross-phase properties |

Where the code and its written description differ, the model follows the
code:

- No pattern is added implicitly. In particular there is no pattern for the
  program's own executable.
- Matching is against the whole relative path only, never against the bare
  file name.
- A HEAD error other than 404, a stat error or an MD5 error stops the whole
  walk. It does not just skip that one file.
- Tasks queued before the walk stopped are still uploaded. The walk error
  is then reported in preference to any upload failures.
- Deletes are issued inside the page callback. The deletes for pages
  fetched before a listing failure have therefore already been issued when
  that failure is reported.
- `\` becomes `/` only on Windows. Elsewhere the relative path is the key
  unchanged.
- The reconciliation walk does not consult the ignore patterns. A local
  ignored file therefore protects a remote object with the same key from
  deletion (`Cycle.IgnoredFilesAreProtected`).

## Model

| member | source | states |
|---|---|---|
| Text.Trim | main.go:308 | the trimmed string is no longer than the input and neither starts nor ends with a trimmed character |
| Text.TrimStrips | main.go:308 | the trimmed string is the input minus a prefix and a suffix made only of trimmed characters; with the ends not being trimmed characters this fixes the result uniquely |
| Text.TrimKeeps | main.go:308-312 | a character outside the trimmed set occurs in the trimmed string exactly when it occurs in the input, so trimming quotes never adds or removes a `-` |
| Text.TrimIdempotent | main.go:308 | trimming an already trimmed string changes nothing |
| Text.ReplaceChar | main.go:173-175 | same length; each position holds the replacement exactly where the input held the replaced character and is unchanged elsewhere; no replaced character remains |
| Text.TrimSpace | main.go:349 | the trimmed line has no leading or trailing Unicode white space |
| Text.TrimSpaceStrips | main.go:349 | the trimmed line is the line minus its leading and trailing white space and nothing else: a slice of the line with only white space cut on either side, and no white space left at either end |
| Text.TrimSpaceIdempotent | main.go:349 | a trimmed line trims to itself |
| Walk.ObjectKey | main.go:173-175 | same length; at every position the key holds `/` where the relative path holds `\` on Windows, and the path's own character everywhere else; so elsewhere the key is the relative path unchanged, and on Windows no `\` remains |
| Ignore.ShouldIgnore | main.go:367-375 | a path is ignored exactly when some pattern equals it (exact, case-sensitive equality, no globbing) |
| Ignore.KeptPatterns | main.go:347-356 | at most one pattern per line |
| Ignore.KeptPatternsExactly | main.go:349-355 | every kept pattern is non-empty and does not start with `#`, and every line that is a pattern once trimmed is kept, trimmed |
| Ignore.KeptPatternSource | main.go:348-355 | every kept pattern is some line of the file, trimmed, and has no surrounding white space |
| Ignore.KeptPatternsAppend | main.go:348-356 | lines are handled independently and in file order: the patterns of two consecutive runs of lines are those of the first followed by those of the second |
| Ignore.LoadSyncIgnoreFile | main.go:336-365 | a missing file adds nothing and is no error; an unopenable file adds nothing and fails; otherwise the kept lines are appended in file order to the patterns loaded before, and a read error is reported after the lines read before it were appended |
| Ignore.LoadingKeepsIgnored | main.go:355 | loading only appends, so a path ignored before loading stays ignored |
| Ignore.LoadedLineIsIgnored | main.go:349-355 | after loading, the trimmed form of every pattern line of the file is ignored |
| Ignore.KeptPatternsStable | main.go:349-355 | a file that lists the loaded patterns one per line loads back to the same patterns |
| Ignore.ShouldIgnoreExamples | main_unit_test.go:203-243 | the cases of the `shouldIgnore` unit tests: exact matches, no suffix or prefix matching, an empty list, case sensitivity |
| ChangeDetection.TrimmedETag | main.go:308-312 | the trimmed ETag contains `-` exactly when the raw one does and has no `"` at either end |
| ChangeDetection.TrimmedETagStrips | main.go:308 | the compared tag is the ETag with all its leading and trailing `"` removed and nothing else |
| ChangeDetection.FileChangedOnS3 | main.go:263-318 | 404 means upload; another HEAD error is an error; a stat error after a successful HEAD is an error; the only error kinds are HEAD, stat and hash failures |
| ChangeDetection.NotFoundIgnoresLocalFile | main.go:264-271 | a missing object is uploaded whatever the stat and the digest are |
| ChangeDetection.HeadErrorNeverDecides | main.go:268-273 | a HEAD failure other than 404 always yields an error |
| ChangeDetection.SkipExactly | main.go:281-317 | the upload is skipped if and only if the object exists with the local size and a timestamp, and either the local file is not newer, or the file is at most 100 MiB, its digest is readable, the ETag has no `-` and the trimmed ETag equals the digest |
| ChangeDetection.ErrorExactly | main.go:268-306 | the decision is an error if and only if HEAD failed other than with 404, the stat failed after a successful HEAD, or the digest was needed and could not be computed |
| ChangeDetection.NotNewerSkipsWhateverTheContent | main.go:286-294 | equal sizes and a local file not newer than the object skip the upload whatever the content, digest or ETag |
| ChangeDetection.LargeNewerFileUploadsWithoutHash | main.go:292-300 | a file over 100 MiB that reaches the size branch is always uploaded and its digest is never consulted |
| ChangeDetection.SmallNewerMultipartTag | main.go:302-315 | for a small, newer file the digest is computed before the ETag is inspected: an unreadable file is an error even with a multipart tag, and a readable one with a multipart tag is uploaded |
| ChangeDetection.QuotedDigestTrims | main.go:308 | stripping the quotes from the quoted MD5 digest gives the digest back |
| ChangeDetection.UnchangedAfterPutIsSkipped | main.go:302-317 | a small file whose object has its size and its quoted digest as ETag is skipped whatever the timestamps |
| ChangeDetection.FileChangedExamples | main_unit_test.go:247-395 | the cases of the `fileChangedOnS3` unit tests: not found, size differs, object newer, large file, multipart ETag, HEAD error |
| Upload.UploadFileS3 | main.go:377-428 | an open failure is reported first; above the threshold only the multipart outcome matters and otherwise only the PUT; success reports exactly the given size and failure reports 0 bytes |
| Upload.LargeFileNeverPuts | main.go:384-388 | a file over the threshold gets the same result whatever a PUT would have done |
| Upload.SmallFileNeverGoesMultipart | main.go:390-400 | a file at or below the threshold gets the same result whatever the multipart uploader would have done |
| Upload.UploadExamples | main_unit_test.go:519-568 | the `uploadFileS3` unit-test cases (success, missing file, PUT failure) and the exact-threshold boundary going by PUT |
| Pipeline.WalkStepQueuesOnlyChanged | main.go:159-199 | the callback queues a file exactly when it is not a directory, its key is not ignored and change detection says upload, and the task carries the key and the walked size; it aborts exactly on a walk failure or a change-detection error |
| Pipeline.Scan | main.go:159-199 | the walk queues at most one task per item |
| Pipeline.ScanTasksComeFromItems | main.go:183-194 | every queued task was queued by the callback for some walked item |
| Pipeline.ScanErrorIsFirstAbort | main.go:159-186 | the walk ends in an error exactly when some item aborts it, and the error is that of the first aborting item |
| Pipeline.ScanQueuesEveryChange | main.go:183-194 | every file the callback decides to upload before the first item that aborts the walk is queued, also when the walk later fails |
| Pipeline.ScanStopsAtAbort | main.go:159-199 | items after an aborting item change neither the queue nor the error |
| Pipeline.UploadFailures | main.go:145-154 | at most one error per task |
| Pipeline.UploadFailuresExactly | main.go:145-154 | the collected list is empty exactly when every task uploads; each entry names a queued task and that task's upload error; every failed task has its entry |
| Pipeline.UploadPhaseError | main.go:205-214 | the phase fails exactly when the walk failed or some upload failed, and a walk error takes precedence |
| Pipeline.QueueTasks | main.go:159-199 | the walk loop produces exactly the queue and the error of `Scan` |
| Pipeline.DrainQueue | main.go:141-156 | draining the queue collects exactly `UploadFailures` of the queued tasks |
| Pipeline.UploadDirectoryToS3 | main.go:127-215 | every task queued before the walk stopped is uploaded; the walk error comes before upload failures; the phase succeeds exactly when no item aborted the walk and every queued upload succeeded |
| Reconcile.LocalKeys | main.go:218-238 | the only error of the reconciler's walk is a walk failure |
| Reconcile.LocalKeysExactly | main.go:218-238 | the walk fails exactly when some item is a failure; otherwise the local key set holds exactly the keys of the walked non-directory items, ignored or not |
| Reconcile.FlattenExactly | main.go:240-243 | the listed keys are exactly the keys on the fetched pages |
| Reconcile.DeleteRequests | main.go:243-253 | at most one delete per listed key |
| Reconcile.DeleteRequestsExactly | main.go:243-253 | a key is deleted exactly when it is listed and not a local key |
| Reconcile.DeleteRequestsAppend | main.go:242-253 | listed keys are handled independently and in listing order: the deletes for two consecutive runs of keys are those of the first followed by those of the second, so page boundaries do not matter |
| Reconcile.Confirmed | main.go:245-251 | at most one report per requested delete |
| Reconcile.ConfirmedExactly | main.go:245-251 | a requested delete is reported as deleted exactly when the store confirmed it |
| Reconcile.ConfirmedAppend | main.go:245-251 | each requested delete is reported independently of the others, in request order |
| Reconcile.ReconcileError | main.go:236-260 | a walk error is returned as it is; otherwise the pass fails exactly when the listing failed; failed deletes never make it fail |
| Reconcile.CollectLocalFiles | main.go:218-238 | the walk loop builds exactly `LocalKeys` |
| Reconcile.DeletePage | main.go:242-254 | handling one page appends the deletes for exactly that page's non-local keys, in page order |
| Reconcile.IssueDeletes | main.go:240-255 | over all fetched pages, the DELETE calls are exactly `DeleteRequests` of the listing and the reported deletions are the confirmed ones |
| Reconcile.DeleteRemovedFilesFromS3 | main.go:217-261 | a walk error returns before anything is listed or deleted; otherwise the deletes for every fetched page are issued, then a listing failure is reported |
| Reconcile.DeleteExamples | main_unit_test.go:399-517 | the `deleteRemovedFilesFromS3` unit-test cases: stale keys deleted, nothing deleted when all exist, an empty bucket, a listing failure reported, and a nested tree whose walk yields the nested keys so that only `dir3/old.txt` is deleted |
| Cycle.QueuedKeysAreNotDeleted | main.go:118-125 | when both passes walk the same tree, no key the upload phase queued is deleted by the reconciliation pass |
| Cycle.IgnoredFilesAreProtected | main.go:177-232 | an ignored local file is skipped by the upload walk, yet its key is never deleted by the reconciliation pass |
| Cycle.SyncDirectoryWithS3 | main.go:118-125 | a failed upload phase returns its error and deletes nothing; otherwise the result and the deletes are those of the reconciliation pass; over the same tree nothing uploaded is deleted |

## Left out

- The command line, the AWS session, credentials, the bucket name and the
  cron scheduler (`main`, the `select {}` loop). They only start cycles.
- Concurrency. The five workers, the buffered channel, the wait group and
  the mutex are modelled as the walk followed by an in-order drain. No
  decision of the walk depends on an upload, so the same uploads happen.
  The order of the collected upload errors is one of the orders the
  workers can produce.
- The multipart uploader's internals: part size, part concurrency, the part
  limit and cleanup on error. The multipart transfer, including the rewind
  of the file, is one given outcome per key.
- `calculateMD5` is given as a result per key: a digest or a failure. MD5
  itself is not modelled.
- `bufio.Scanner` line splitting and its 64 KiB token limit. The file is
  given as its lines plus whether a read error followed them.
- Go strings are UTF-8 bytes; the model uses characters. `IsSpace` covers
  exactly the code points Go's `unicode.IsSpace` accepts.
- `filepath.Walk` and `filepath.Rel` are given as the sequence of callback
  calls with relative paths. A failing `Rel` is a `WalkFailure`.
- Times are integers on one clock; `After` is strict `>`.
- Log output (`fmt.Printf`) is left out.
- Pipeline.UploadFailures: the error names the object key, not the absolute
  local path the Go message uses.
- SyncTypes error values carry the kind of failure, not the wrapped AWS or
  OS error text.
- ChangeDetection.FileChangedOnS3: a HEAD answer is modelled with a size and
  an ETag always present. The code dereferences `ContentLength` (main.go:282)
  and `ETag` (main.go:308) without a nil check, so an answer lacking either
  one makes the Go program panic. The model does not represent that case.
- ChangeDetection.FileChangedOnS3: Go's `(false, err)` is modelled as `Err`.
  The boolean that accompanies an error is not modelled; every caller
  ignores it.
