# vrac: token and file lifecycle, modelled in Dafny

vrac is a small file-drop service. An administrator creates an upload
*token* for a path; whoever holds the link uploads files through it while
the token is valid; once the content deadline has passed, a reaper deletes
the files and marks the rows deleted. This project models that lifecycle
and proves properties of the model:

- the metadata store (`token` and `file` tables, with their status codecs);
- the reaper `cleanup_once` and the stand-alone cleanup binary, over an
  abstract filesystem;
- the upload ingest loop and the route decisions of the Rocket server;
- the form parsers of the Warp API;
- the bounded copy of the earlier Tide server.

Layout, one module per file:

| file | module | models |
|---|---|---|
| wrappers.dfy | Wrappers | `Option`, `Result` |
| ints.dfy | Ints | the `as i32` / `as u64` casts and saturating byte arithmetic |
| schema.dfy | Schema | row shapes, `TokenStatus` / `FileUploadStatus` text codecs |
| db.dfy | Db | the store: pure table functions plus the `Store` class |
| fs.dfy | Fs | the filesystem as a `Disk` class (files with lengths, directories) |
| cleanup.dfy | Cleanup | `cleanup_once`, `remove_token_dir` |
| cleanup_bin.dfy | CleanupBin | the cleanup binary's `main` and its database-URL fallback |
| api.dfy | Api | `parse_token_`, `parse_size`, `parse_duration`, `parse_valid_for`, `Quantity` |
| vrac.dfy | Vrac | `upload_file`, `max_stream_size`, `get_file`, `download_file`, `gen_token_post` |
| tide_main.dfy | TideMain | `copy_limit` and the upload limit of `upload_files` |

Modelling conventions:

- **Clock.** The clock is a parameter `now`, in whole seconds, read once per request and once per reaper run. Each store function of the source reads the clock again; "## Left out" says what this single reading loses. Durations are seconds.
- **Tables.** A table is a sequence of rows in rowid order. The `Store` class holds the two tables as fields, and its methods reassign them.
- **Row ids.** A new row takes the largest id plus one. This is SQLite's rowid rule without AUTOINCREMENT. The migrations are not part of this model, so this rule is assumed.
- **Queries.** Every query is a pure function of the tables. Each store method is proved to leave exactly the state that function describes.
- **NULL.** A comparison with SQL NULL is false.
- **Paths.** A path is a sequence of components. A token's directory is `root + [token.path]`, and a file's path is that directory plus the field key. This is `root.join(p)` only for a non-empty `p` that has no separator and is not absolute; "## Left out" says what the other cases would do.
- **Faults.** Filesystem faults are fixed when a `Disk` is built:
  - a `broken` path fails every operation with an error other than NotFound;
  - an `unwritable` file opens, but then rejects every non-empty write.

Behaviours the model keeps as the code has them:

- **No status filter on liveness.** Neither the duplicate check of `create_token` nor `get_valid_token` looks at the status. A Deleted row whose deadline has not passed is still found, and `get_file` then hits its `unreachable!` (`Vrac.GetFileCanPanic`).
- **A deadline equal to `now`.** Liveness compares with `>= now` and the reaper with `<= now`. A deadline equal to `now` is therefore both valid and expired.
- **Consuming a token.** `consume_token` overwrites the row whatever its status, and it runs even when no field was stored.
- **The reaper never checks status.** `delete_expired_tokens` also reaps Used tokens.
- **`get_file` and `download_file` ignore upload status.** A file row that is still Started can be downloaded.
- **Token directory removal in the reaper.**
  - The reaper tries to remove a token's directory after each of the token's files, inside the inner loop.
  - With two files present, the first attempt fails, because the directory is not yet empty (`Cleanup.SiblingBlocksDirRemoval`). The whole run stops there with the second file still on disk (`Cleanup.TokenFilesSiblingStops`, `Cleanup.FirstPassSiblingStops`).
  - A content-expired token with no files gets no directory removal in the first pass. `delete_files` then marks it deleted, so the second pass never returns it either, and its directory is not removed on this token's account. Another token with the same path, reaped by the second pass, can still remove it.
- **Diverging `cleanup.rs` signatures.** `cleanup.rs` calls `delete_files(conn, &[token.id])` and `token.dir_name()`, which do not match `src/db.rs`. The model uses `delete_files` on `[token]` and takes the directory name to be `token.path`, as `upload_file` does when it creates the directory.

## Model

| member | source | states |
|---|---|---|
| Ints.WrapI32 | src/db.rs:197-203 | the i32 cast keeps the value modulo 2^32 within the i32 range, and is the identity on i32 values |
| Ints.WrapU64 | src/main.rs:159 | the u64 cast and wrapping u64 arithmetic reduce modulo 2^64, identity on u64 values |
| Ints.SatU64 | src/bin/vrac.rs:345-349 | byte-unit arithmetic saturates: the result is in u64 range, equals the input when it fits, and is u64::MAX above |
| Schema.TokenStatusToSql | src/db.rs:81-96 | every status is written as one of the three tags FRESH, USED and DELETED, which are exactly the texts the decoder accepts |
| Schema.TokenStatusFromSql | src/db.rs:66-79 | accepts exactly the three tags; an accepted tag is the encoding of the decoded status; any other text is rejected with "Unknown token status: " and the text |
| Schema.TokenStatusRoundTrip | src/db.rs:66-96 | decoding the encoding of a status gives the status back |
| Schema.TokenStatusFromSqlAccepts | src/db.rs:71-77 | the decoder accepts exactly the three tags the encoder writes |
| Schema.FileUploadStatusToSql | src/db.rs:120-134 | every upload status is written as STARTED or COMPLETED, exactly the texts the decoder accepts |
| Schema.FileUploadStatusFromSql | src/db.rs:106-118 | accepts exactly STARTED and COMPLETED; an accepted tag is the encoding of the decoded status; anything else is rejected with "Unknown file upload status: " and the text |
| Schema.FileUploadStatusRoundTrip | src/db.rs:106-134 | decoding the encoding of an upload status gives it back |
| Schema.FileUploadStatusFromSqlAccepts | src/db.rs:111-116 | the decoder accepts exactly STARTED and COMPLETED |
| Db.DeadlineNowIsLiveAndReapable | src/db.rs:230-273 | a token whose deadline equals `now` is both valid (`>=`) and reapable (`<=`) |
| Db.MaxTokenId | src/db.rs:216 | the largest id bounds every row and belongs to a row |
| Db.HighestToken | src/db.rs:216 | the row read back by `order(id.desc()).first()` is in the table and has the largest id |
| Db.MaxFileId | src/db.rs:357 | the largest file id bounds every row and belongs to a row |
| Db.HighestFile | src/db.rs:357 | the file row read back after the insert is in the table and has the largest id |
| Db.GetValidToken | src/db.rs:224-239 | the result is the first row in rowid order whose path matches and one of whose deadlines is `>= now`; None exactly when no row qualifies; status is not consulted |
| Db.CountLive | src/db.rs:180-188 | the duplicate count is at most the number of rows, and is zero exactly when no row with the path has a deadline not yet passed |
| Db.CountLiveIffValid | src/db.rs:180-192 | the duplicate count of `create_token` is positive exactly when `get_valid_token` finds a row |
| Db.DeletedTokenCanBeValid | src/db.rs:222-238 | a Deleted row at the head of the table whose content deadline is `now` is returned as the valid token |
| Db.NumHours | src/db.rs:201-203 | `num_hours` truncates toward zero: the remainder is below one hour in magnitude, with the sign of the duration |
| Db.NewTokenRow | src/db.rs:194-218 | the new row's id is above every existing id; the row is valid at `now` exactly when its token deadline is not passed; having no content deadline, it is never content-expired, and it is reapable exactly from its token deadline on |
| Db.NewTokenRowFacts | src/db.rs:194-218 | the inserted row is Fresh, with no content deadline and no deletion, the caller's path and expiry, the truncated hours and the size (exact when they fit in i32); ids stay unique and the row read back is the inserted one |
| Db.ConsumeRows | src/db.rs:318-333 | the table keeps its rows, ids and paths, unique ids stay unique, and the consumed row, given non-negative hours, is valid at `now` |
| Db.ConsumeRowsEffect | src/db.rs:318-333 | on the row with `tok.id` only `status := Used` and `content_expires_at := now + h·3600` (None without hours) change, whatever the old status; every other row is unchanged |
| Db.ConsumeOverwritesDeadline | src/db.rs:326-331 | consuming again later moves the content deadline again |
| Db.ExpireRows | src/db.rs:262-287 | the table keeps its rows, ids and paths, unique ids stay unique, no row is reapable or content-expired at `now` afterwards, and a row that was not reapable is unchanged |
| Db.ExpiredPaths | src/db.rs:268-286 | a path is returned exactly when a non-deleted row with it has `token_expires_at <= now` or `content_expires_at <= now`; nothing is returned when no row is reapable |
| Db.ExpireRowsIdempotent | src/db.rs:262-287 | after `delete_expired_tokens` nothing is reapable: a second call at the same `now` returns no path and changes no row |
| Db.MarkTokensDeleted | src/db.rs:289-315 | the table keeps its rows, ids and paths, unique ids stay unique; a row has no deletion time afterwards exactly when it had none and its id is not listed; a listed row is never reapable or content-expired again |
| Db.MarkFilesDeleted | src/db.rs:289-315 | only `deleted_at` changes, unique ids stay unique, and a row has no deletion time afterwards exactly when it had none and its token is not listed |
| Db.FilesOf | src/db.rs:255 | `belonging_to` selects exactly the rows of that token, deleted or not |
| Db.GetFiles | src/db.rs:379-385 | exactly the token's rows whose upload status is Completed |
| Db.GetFile | src/db.rs:387-398 | a row is returned only if its id and its token id both match; None exactly when no row does |
| Db.GetFileIgnoresUploadStatus | src/db.rs:393-396 | any row of the token, in either upload status, is found by its id |
| Db.NewFileRow | src/db.rs:335-361 | the new file id is above every existing one, and the new Started row is listed by `get_files` for no token |
| Db.NewFileRowFacts | src/db.rs:335-361 | the inserted file row is Started with no size and no deletion, records the request's token, name, path and content type, keeps ids unique and is the row read back |
| Db.CompleteRows | src/db.rs:363-369 | only the upload status changes; a row is Completed afterwards exactly when it was or has that id; unique ids stay unique |
| Db.AbortRows | src/db.rs:371-377 | exactly the row with that id is removed |
| Db.AbortRowsUnique | src/db.rs:373-377 | removing a row keeps file ids unique |
| Db.ContentExpiredTokens | src/db.rs:246-249 | exactly the rows with `deleted_at` unset and `content_expires_at <= now` |
| Db.ExpiredFiles | src/db.rs:242-260 | one entry per content-expired token; each entry's token is in the table and content-expired at `now`, and each of its files belongs to it |
| Db.ExpiredFilesSpec | src/db.rs:242-260 | every selected token is paired with all of its file rows, and every content-expired token appears |
| Db.MarkFilesDeletedKeepsCount | src/db.rs:300-304 | setting `deleted_at` leaves the number of rows of every token unchanged, so each update of `delete_files` counts all of its token's rows, already deleted ones included |
| Db.MarkFilesDeletedKeepsDeletedCount | src/db.rs:295-313 | the total of `delete_files` over a token list does not depend on earlier updates to the file table |
| Db.Store.CreateToken | src/db.rs:172-220 | fails with `TokenAlreadyExists(path)` and changes nothing exactly when `get_valid_token` would find the path; otherwise appends exactly the new row and returns it |
| Db.Store.ConsumeToken | src/db.rs:318-333 | the token table becomes the consumed table; the file table is unchanged |
| Db.Store.CreateFile | src/db.rs:335-361 | appends exactly the new Started row and returns it; tokens unchanged |
| Db.Store.CompleteUpload | src/db.rs:363-369 | the row with that id becomes Completed; tokens unchanged |
| Db.Store.AbortUpload | src/db.rs:371-377 | the row with that id is deleted; tokens unchanged |
| Db.Store.GetExpiredFiles | src/db.rs:242-260 | the loop builds exactly the content-expired tokens, in rowid order, each with all of its files |
| Db.Store.DeleteExpiredTokens | src/db.rs:262-287 | every reapable row becomes Deleted at `now`, even a Used one, and exactly their paths are returned |
| Db.Store.DeleteFiles | src/db.rs:289-315 | every file of each listed token gets `deleted_at = now`, each token becomes Deleted at `now`, and the returned count is the number of their file rows |
| Fs.Ancestors | src/bin/vrac.rs:371 | `create_dir_all` creates the directory and every non-empty prefix of it, and nothing else |
| Fs.RemoveFileResult | src/cleanup.rs:21-33 | `remove_file` succeeds exactly on a present regular file that is not broken, and reports NotFound exactly when nothing is at an unbroken path |
| Fs.RemoveDirResult | src/cleanup.rs:63-73 | `remove_dir` succeeds exactly on a present, unbroken directory with no entries, and reports NotFound exactly when nothing is at an unbroken path |
| Fs.Disk.RemoveFile | src/cleanup.rs:21 | the result is `RemoveFileResult` of the disk before the call; a successful removal takes away that file and nothing else |
| Fs.Disk.RemoveDir | src/cleanup.rs:63 | the result is `RemoveDirResult` of the disk before the call; a successful removal takes away that directory and nothing else |
| Fs.Disk.CreateDirAll | src/bin/vrac.rs:371-373 | succeeds exactly when no prefix is a file or broken, and then all prefixes are directories |
| Fs.Disk.OpenTruncate | src/bin/vrac.rs:406-417 | open with create and truncate leaves an empty file at the path and changes nothing else; NotFound when the parent directory is missing; another error for a directory or a broken path |
| Fs.Disk.Write | src/bin/vrac.rs:439-441 | `write_all_buf` appends the chunk's length; only a non-empty write to an unwritable file fails |
| Cleanup.CleanedLeavesNothingReapable | src/cleanup.rs:15-46 | after a successful run neither reaper query selects any row |
| Cleanup.CleanupIdempotent | src/cleanup.rs:15-46 | a second run at the same `now` selects nothing and changes neither table |
| Cleanup.FirstPassDeletesContentExpired | src/cleanup.rs:38 | every content-expired token is Deleted with `deleted_at = now` after the run |
| Cleanup.NothingContentExpired | src/db.rs:246-249 | when no row is reapable, `get_expired_files` selects no token |
| Cleanup.SecondPassSkipsFirstPass | src/cleanup.rs:38-42 | a token handled by the first pass is not reapable any more, so the second pass does not return it |
| Cleanup.SiblingBlocksDirRemoval | src/cleanup.rs:35-36 | while another file is inside the token directory, its removal fails with an error other than NotFound, and `remove_token_dir` passes that error on |
| Cleanup.TokenDirResult | src/cleanup.rs:60-75 | Ok exactly when `remove_dir` succeeds or reports NotFound; every other error is passed on |
| Cleanup.RemoveTokenDir | src/cleanup.rs:58-75 | returns `TokenDirResult` of the disk before the call and leaves the state `remove_dir` leaves; files are untouched |
| Cleanup.TokenFilesRun | src/cleanup.rs:19-37 | the inner loop of the first pass: an error is never NotFound; on success the listed files are gone and, if there was one, so is the token directory; nothing is created, and only the token directory can be removed |
| Cleanup.TokenFilesAlreadyGone | src/cleanup.rs:19-37 | files and a directory that are already missing are skipped: the loop succeeds and changes nothing |
| Cleanup.TokenFilesSingle | src/cleanup.rs:19-37 | a token's only file, alone in its directory: the file and then the directory are removed and the loop succeeds |
| Cleanup.TokenFilesSiblingStops | src/cleanup.rs:19-37 | with two files of a token present, the loop removes the first, fails on the directory with an error other than NotFound, and leaves the second file on disk |
| Cleanup.RemoveTokenFiles | src/cleanup.rs:19-37 | the loop's result and the disk it leaves are exactly those of `TokenFilesRun` |
| Cleanup.FirstPassRun | src/cleanup.rs:15-39 | the file removals of the first pass: success comes after every token; an error, never NotFound, names the token the pass stopped at; on success every listed file is gone, and so is the directory of each token that had files; only token directories are removed |
| Cleanup.TodoPathsOfExpired | src/cleanup.rs:15-19 | the files the first pass visits are exactly the files of the content-expired tokens |
| Cleanup.FirstPassSiblingStops | src/cleanup.rs:18-37 | when the first token has two files present, the pass stops at that token with an error other than NotFound and the second file still on disk |
| Cleanup.FirstPassAlreadyGone | src/cleanup.rs:18-39 | when every file and token directory is already gone, the pass succeeds and the disk is unchanged |
| Cleanup.FirstPass | src/cleanup.rs:15-39 | the result, the token it stopped at and the disk it leaves are those of `FirstPassRun`; it stops before the failing token's `delete_files`; on success `delete_files` ran once per content-expired token and `n` is the sum of their file counts |
| Cleanup.DirsRun | src/cleanup.rs:42-46 | the directory removals of the second pass: an error is never NotFound; files are untouched; only token directories are removed, and on success all the listed ones are gone |
| Cleanup.DirsRunClean | src/cleanup.rs:42-46 | when no listed directory is broken, a file or non-empty, the second pass succeeds |
| Cleanup.SecondPass | src/cleanup.rs:42-46 | `delete_expired_tokens`, then directory removals with the result and the disk that `DirsRun` gives over the returned paths |
| Cleanup.CleanupOnce | src/cleanup.rs:13-56 | an error of the first pass is returned at once with the disk it left; otherwise the result and disk are those of the second pass; no error is NotFound; on success the tables are the cleaned tables, `n` is the first pass's file count, the expired tokens' files are removed, and so are the directories of the second pass and of first-pass tokens that had files; on error the tables are a first-pass prefix or the cleaned tables; only token directories are ever removed |
| CleanupBin.ResolveDatabaseUrl | src/bin/cleanup.rs:18-25 | the `--database-url` argument wins; otherwise the variable's value, or an error when it is absent or not unicode |
| CleanupBin.DatabaseUrlErrorsDistinct | src/bin/cleanup.rs:22-23 | an absent and a non-unicode `DATABASE_URL` give two different errors |
| CleanupBin.FilesRun | src/bin/cleanup.rs:31-46 | the inner loop: an error is never NotFound; it succeeds exactly when no listed file is broken or a directory, and then those files are gone; directories are untouched |
| CleanupBin.BinRun | src/bin/cleanup.rs:28-49 | the file removals of `main`: they succeed exactly when no file of any listed token is broken or a directory, and then all those files are gone; an error names the token the run stopped at |
| CleanupBin.RemoveFiles | src/bin/cleanup.rs:31-46 | the loop's result and the disk it leaves are exactly those of `FilesRun` |
| CleanupBin.Run | src/bin/cleanup.rs:16-52 | a URL error changes nothing; otherwise the result and the disk are those of `BinRun` over the content-expired tokens, an error being reported as an I/O error; on success every content-expired token went through `delete_files` once, after its files, and their files are gone; on a removal error the tables are a prefix of that; no directory is removed and `delete_expired_tokens` is never called |
| Api.QuantityToOption | src/api.rs:20-27 | Unbounded maps to None and `Bounded(x)` to `Some(x)` |
| Api.QuantityToOptionInjective | src/api.rs:13-27 | distinct quantities give distinct options |
| Api.ParseSize | src/api.rs:71-87 | accepts exactly the six size labels, each with its MiB bound from the label table; any other string is rejected with "cannot parse quantity<u32> from " and the string |
| Api.ParseDuration | src/api.rs:89-101 | accepts exactly the four duration labels, each a positive whole number of hours; any other string is rejected with "cannot parse Duration from " and the string |
| Api.DurationHours | src/api.rs:89-101 | the four durations are 1, 24, 168 and 744 hours |
| Api.ParseValidFor | src/api.rs:103-109 | "DoesntExpire" is Unbounded; anything else is `Bounded` of the parsed duration, with the same errors |
| Api.ParseToken | src/api.rs:42-69 | a form without a path is rejected with "Missing path"; a parsed request holds the form's path verbatim, a size from the label table, a content duration of a positive whole number of hours, and a validity from the duration table when bounded |
| Api.ParseTokenFirstError | src/api.rs:42-61 | the first missing or unparsable field, in the order path, max-size, expires, valid-for, decides the error, and a missing key gives "Missing <key>" |
| Api.ParseTokenSuccess | src/api.rs:42-69 | parsing succeeds exactly when all four keys are present with accepted values, and the result holds the path verbatim and the three parsed values |
| Api.ParseTokenAcceptsEmptyPath | src/api.rs:43-46 | an empty path is accepted |
| Vrac.MaxStreamSize | src/bin/vrac.rs:345-349 | with a limit of `s` MiB the budget is `s·1024·1024 + 10·1024` bytes, a negative limit gives 10 KiB, and without a limit it is `u64::MAX`; the budget is always within u64 |
| Vrac.MaxStreamSizeMonotone | src/bin/vrac.rs:345-349 | a larger limit never gives a smaller budget, and no limit gives the largest |
| Vrac.MaxStreamSizeSlack | src/bin/vrac.rs:346-347 | the budget exceeds the limit by exactly 10 KiB; 10 MiB is 10·1024·1024 bytes |
| Vrac.RunChunks | src/bin/vrac.rs:422-443 | the bytes the chunk loop writes never exceed the bytes the field carries |
| Vrac.RunChunksDrained | src/bin/vrac.rs:422-443 | the loop drains a field exactly when no chunk errs and every write is accepted, and the file then holds all the field's bytes |
| Vrac.RunChunksErrorFirst | src/bin/vrac.rs:423-430 | a chunk error before any data ends the field with nothing written |
| Vrac.WriteChunks | src/bin/vrac.rs:422-443 | the loop over chunks ends as the chunk run does, and the file grows by exactly the bytes that run wrote |
| Vrac.FieldOutcome | src/bin/vrac.rs:375-443 | a part ends the loop with a multipart error exactly when it is malformed; it is skipped exactly when it is a field without a usable key; it is stored exactly when it is kept, its file opens and no chunk errs and no non-empty write is refused; it fails with NotFound exactly when opening its file does |
| Vrac.CompleteFreshRow | src/bin/vrac.rs:450-454 | completing the row just created changes only that row |
| Vrac.IngestField | src/bin/vrac.rs:395-454 | one kept field: a Started row is appended before the open, and it becomes Completed only after every chunk was written; the field ends as its outcome says; the disk holds what the chunk run wrote |
| Vrac.ProcessedCount | src/bin/vrac.rs:375-462 | the loop gets through exactly the leading parts that are skipped or stored |
| Vrac.KeptFields | src/bin/vrac.rs:378-388 | exactly the fields whose name, falling back to the file name, is present and non-empty |
| Vrac.UploadedRowsPrefix | src/bin/vrac.rs:375-462 | an upload only appends rows, one per kept field |
| Vrac.UploadedRowsAt | src/bin/vrac.rs:395-404 | the row for each kept field is Completed, owned by the token, at `root/token.path/<key>`, with the field's file name as its name and its content type |
| Vrac.UploadedRowsUnique | src/bin/vrac.rs:395-404 | file ids stay unique through an upload |
| Vrac.StoredFilesLast | src/bin/vrac.rs:406-443 | the file of the last kept field with a given key holds all of that field's bytes |
| Vrac.StoredFilesUntouched | src/bin/vrac.rs:406-443 | a disk file that no kept field names is left as it was |
| Vrac.IngestParts | src/bin/vrac.rs:375-462 | the field loop: skipped fields add nothing; it stops at the first part that fails, leaving that field's Started row and partial file |
| Vrac.UploadFile | src/bin/vrac.rs:325-472 | no valid token gives None and no change; a failed directory creation gives an error and no change; otherwise one row and one file per kept field, then the token is consumed once, even with no field; a chunk error gives the "kaboom" flash and a write, open or multipart error gives Err, and in both cases the token is not consumed; a kept field that stopped the loop leaves its row Started, and a malformed part adds no row |
| Vrac.UnnamedFieldsAreSkipped | src/bin/vrac.rs:378-388 | a body whose fields all lack a usable key is processed to the end with no row created |
| Vrac.StoppedRowIsStarted | src/bin/vrac.rs:395-441 | the field that stops the loop leaves its row Started, owned by the token, at its path |
| Vrac.ChunkErrorFlashes | src/bin/vrac.rs:423-430 | a chunk error answers with the "kaboom" error flash to the token's page, not with an error |
| Vrac.GetFileView | src/bin/vrac.rs:150-167 | None without a valid token; the upload page for Fresh; the listing for Used; the `unreachable!` panic exactly for Deleted |
| Vrac.ListingShowsCompletedFiles | src/bin/vrac.rs:169-199 | the listing shows exactly the token's Completed files, and each is marked as an image when its content type starts with "image" |
| Vrac.GetFileCanPanic | src/bin/vrac.rs:164 | a Deleted row with a deadline not yet passed reaches the `unreachable!` |
| Vrac.DownloadTarget | src/bin/vrac.rs:207-223 | a file is served only if `get_valid_token` finds the token and `get_file` finds that id owned by it |
| Vrac.DownloadIgnoresStatuses | src/bin/vrac.rs:207-223 | a Deleted token's Started file is still served |
| Vrac.TokenSpecOf | src/bin/vrac.rs:101-112 | the request expires a whole `token-valid-for` hours after `now`, never before it; a content duration is present exactly when hours were given, and it is that number of whole hours; path and size are the form's |
| Vrac.TokenSpecRoundTrip | src/bin/vrac.rs:101-112 | the stored row expires `token-valid-for` hours after `now`, and the content hours and the size come back unchanged when they fit in i32 |
| Vrac.GenTokenPost | src/bin/vrac.rs:94-127 | a refused token gives an error flash back to the form carrying `TokenAlreadyExists(path)` and changes nothing; otherwise the row is created and a success flash redirects to its page |
| TideMain.BufReader.FillBuf | src/main.rs:229 | the buffer is the next unconsumed bytes, empty only at the end of input |
| TideMain.BufReader.Consume | src/main.rs:254 | consuming advances the read position by exactly the bytes written |
| TideMain.PlannedWrite | src/main.rs:235 | a write takes at most the buffer; it fails exactly on a planned failure, and takes nothing exactly for an empty buffer or a planned `Accept(0)` |
| TideMain.Sink.Write | src/main.rs:235 | the writer takes the prefix of the buffer that `PlannedWrite` gives for its next planned step, and moves on in its plan |
| TideMain.Sink.Flush | src/main.rs:231 | the flush fails exactly when the writer's flush is set to fail |
| TideMain.CopyStep | src/main.rs:228-254 | one turn of the loop: it goes on only after a non-empty write that keeps the count within the limit; `Copied` only at end of input; `Truncated` past the limit and within the window just filled; a flush error only at end of input; a write error or a zero-byte write only from a planned `Fail` or `Accept(0)`, with nothing counted for that write |
| TideMain.CopyFromFacts | src/main.rs:226-256 | `Copied(n)` only at end of input with n every byte and n ≤ limit; `Truncated` exactly when the input is longer than the limit, by less than one buffer; a flush error only after every byte; a write error or a zero-byte write only before the limit was passed |
| TideMain.CopyFromErrorsArePlanned | src/main.rs:229-237 | a write error needs a planned failure, a zero-byte write a planned `Accept(0)` and a flush error a failing flush; without any of them the copy succeeds |
| TideMain.CopyFromZeroWrite | src/main.rs:235-238 | a planned zero-byte write with input left ends the copy with WriteZero and nothing more counted |
| TideMain.PollOnce | src/main.rs:228-254 | one turn of `poll` does what `CopyStep` says, and the writer gains exactly the bytes it accepted |
| TideMain.Poll | src/main.rs:226-256 | the loop of `poll` from a fresh reader ends as `CopyFrom` from the start says, and the writer holds exactly the first `amt` input bytes |
| TideMain.CopyLimit | src/main.rs:200-267 | the outcome and count are those of `CopyFrom` from the start; the writer holds exactly the first `amt` input bytes; `Ok(n)` only at the end of input with n every byte and n ≤ limit; `Truncated` exactly when the input is longer than the limit, once `amt > limit` and by less than one buffer; a flush error only after every byte; a write error or a zero-byte write only from a planned `Fail` or `Accept(0)`, before the limit; with an accepting writer no error occurs |
| TideMain.UploadLimit | src/main.rs:155-160 | the limit is within u64 range and is `u64::MAX` without a size |
| TideMain.UploadLimitExact | src/main.rs:155-160 | without overflow the limit is `(s + 1)·1024·1024` bytes |
| TideMain.UploadLimitForFormSizes | src/main.rs:155-160 | the 1 MB and 5 GB sizes get 2 MiB and 5121 MiB |
| TideMain.UploadLimitWrapsAtI32Max | src/main.rs:159 | at `i32::MAX` the `+ 1` wraps, and the limit becomes 2^64 − 2^51 |

## Left out

- HTTP routing, responders, templates and flash colouring are rendering. So are Basic auth, scrypt, app bootstrap and the Tide handlers other than the upload limit. None of them is modelled. Redirects are kept only as their target.
- Concurrency is not modelled: the write lock and the joined background job. Each store call is one atomic step.
- Database errors are not modelled: diesel failures, a failed connection and an insert that reports zero rows. As a result, no store operation fails except the duplicate check. The `Err` paths that come from `?` on store calls are therefore absent from `Vrac.UploadFile`, `Vrac.GenTokenPost`, `Cleanup.CleanupOnce` and `CleanupBin.Run`.
- The migrations are not part of this model. New ids take the largest id plus one, and i32 id overflow is not modelled.
- Db.Store.GetExpiredFiles: the source returns a `HashMap`, whose iteration order is unspecified. The model fixes rowid order. `cleanup_once` and the cleanup binary therefore visit tokens in rowid order, and the token at which an error stops a run depends on that choice.
- Db.GetValidToken: the source query has no `ORDER BY`, so SQLite may return any matching row. The model takes the first in rowid order. Since `create_token` refuses a path while a row for it is live, at most one live row per path is ever inserted through it.
- Db.Store.DeleteExpiredTokens: its `load` has no `ORDER BY` either. The model returns `Db.ExpiredPaths` in rowid order, so the directory at which `Cleanup.SecondPass` stops on an error depends on that choice.
- Db.NewTokenRowFacts: states the stored size and hours only when they fit in i32. Beyond that, the value is the wrapped cast given by `Ints.WrapI32`.
- Vrac.UploadFile, Vrac.GenTokenPost, Cleanup.CleanupOnce: one clock reading `now` serves every store call of the run. The source reads `Utc::now()` again in each store function (src/db.rs:179, 198, 229, 245, 266, 299, 325), so time can pass between calls. Two effects of that are not captured:
  - `consume_token` counts the content deadline from the end of the upload, not from the moment `get_valid_token` ran.
  - `cleanup_once` has a window. A token whose content deadline passes after `get_expired_files` but before `delete_expired_tokens` is marked Deleted by the second pass, yet its files are never removed or marked deleted. Its `remove_dir` then fails because the directory is not empty, and the run returns an error. Later runs never select it again, because `deleted_at` is set, so its files are left behind. `Cleanup.CleanupIdempotent` and `Cleanup.CleanedLeavesNothingReapable` hold for a run at a single `now` only.
- Timestamps are whole seconds, and chrono's range limits and overflow panics are not modelled.
- Vrac.GenTokenPost:
  - `token_valid_for` is taken as a non-negative number of hours. The `u64 as i64` cast and chrono's panic on huge durations are not modelled.
  - The flash text of a refused token is the `Display` of the store error. That text is not defined in the visible source, so the flash carries the error value.
- Vrac.UploadFile:
  - The multipart stream is given as a sequence of parts. `Malformed` stands for every error of `next_field`, including multer's rejection of field names outside `allowed_fields` and a breach of the whole-stream size limit. The link between `Vrac.MaxStreamSize` and the errors that multer raises is not modelled.
  - `writer.flush().unwrap()` is taken to succeed, and so is `shutdown()`. Their panic and error are not modelled.
  - The `file_size` accumulator is only logged, so it is left out.
  - Each source path component is kept whole. `PathBuf::push` semantics for keys that contain separators or are absolute are not modelled.
- Vrac.UploadFile, Cleanup.CleanupOnce, Cleanup.TokenDir: `root.join(token.path)` is taken as `root + [token.path]` for every token path. Token paths are not checked when a token is created, and the model does not capture what `join` does with the other cases:
  - with an empty path, `join` gives the root itself. The reaper's `remove_dir` then fails while anything is under the root, or removes an empty root. The model instead tries a directory that never exists and gets NotFound, that is Ok.
  - with a path that contains a separator, `join` gives a deeper directory.
  - with an absolute path, `join` replaces the root, so uploads go to, and the reaper removes from, that absolute directory.
- Cleanup.CleanupOnce: the source returns `Ok(())` and only logs the first pass's file count; the model returns that count as its Ok value.
- Vrac.MaxStreamSize: the byte-unit type of the web framework is not part of this model. Its arithmetic is taken to saturate at `u64::MAX`, and a negative i32 is taken to count as zero bytes.
- Vrac.DownloadTarget: the final `fs::File::open` of the stored path and the choice of content type are I/O and are not modelled.
- CleanupBin.Run: the connection step `db::connect` is not modelled. `main` starts from the given store once the URL is resolved.
- TideMain.CopyLimit:
  - The inner reader is taken to fill the whole buffer capacity when it can, and it never fails. Short reads and read errors are not modelled.
  - `amt` is unbounded. A u64 overflow of the count would need more than 2^64 input bytes.
  - The `println!` diagnostics are left out.
- TideMain.UploadLimit: the field type of `max_size_in_mb` in the store used by the Tide server is not part of this model. It is taken to be i32, like the table column, with wrapping release arithmetic.
- `deserialize_sentinel`, `Maybe` and `from_option_str` are serde plumbing. The form arrives already parsed as `Vrac.TokenInput`.
- src/bin/admin.rs, src/errors.rs, src/conf.rs, src/lib.rs and src/bin/teststuff.rs are not part of this model. The one fact taken from src/bin/teststuff.rs, 10 MiB = 10·1024·1024 bytes, is in `Vrac.MaxStreamSizeSlack`.
