# Digital Time Capsule: capsule store, request throttle and handler rules in Dafny

A time capsule is a file uploaded for a list of recipients. Nobody can download it before its
unlock date. It is deleted once every recipient has downloaded it, when its uploader deletes it,
or when the hourly sweep finds that its expiry date has passed.

This project models three parts of the Python service and proves properties about them:

- the capsule store (`database.py`, class `Database`);
- the per-user request throttle (`rate_limiter.py`, class `RateLimiter` and the `rate_limit` wrapper);
- the decision logic of the upload, download, delete and sweep handlers in `app.py`.

Modules, one file each:

- `Common` (`common.dfy`): `Option`, `Result`, duplicate-freedom, and `list(set(...))` as `Dedup`.
- `Text` (`text.dfy`): the string operations the handlers use. These are Python's `str.strip`,
  `str.split` and `str(n)`, the comma-separated recipient list, and SQLite's BINARY comparison of
  text (`TextLess`).
- `Timestamps` (`timestamps.dfy`): calendar timestamps. It covers the two fixed-width text forms the
  store uses (`%Y-%m-%d %H:%M:%S` and the date picker's `%Y-%m-%dT%H:%M`) and `format_date`. Its
  main theorem is that the stored text sorts in chronological order, which is what makes SQLite's
  text comparisons of dates correct.
- `Store` (`store.dfy`): the two tables as maps in a `Tables` value, and the specification of every
  store operation as a function on `Tables`. The `Consistent` invariant says what the service keeps
  true of them. The class `Database` has the two tables as fields. Its state-changing methods and
  `GetFile` are proved to give the result of the specification function. The query methods
  `SelectNewestFirst`, `GetUserFiles` and `CheckExpiredFiles`, and the staging step
  `StageTracking`, are specified by the properties of what they return instead.
- `Throttle` (`throttle.dfy`): one admission as a function `Admit`, with the properties of a window
  of calls. The class `RateLimiter` has methods proved against `Admit`, and `RateLimitGate` is the
  wrapper's decision.
- `Handlers` (`handlers.dfy`): each handler as a function of the tables, the request and the
  results of the remote storage calls. The methods `Upload`, `Download` and `DeleteCapsule` over a
  `Database` are proved to give the reply and the new tables of that function, and `SweepExpired`
  the new tables of `SweepSpec`. `SelectByExpiry`, the sweep's query, is specified by what it
  returns: exactly the matching ids, each once.

Times are whole seconds. Every call to the remote storage service is an input. The upload call is
the URL it returned, or none when it raised. Every other call is the status code it returned, or
`Failed` when it raised.

Three behaviours of the code are easy to miss when reading its schema and its handlers, and the
model follows the code in each:

- `delete_file` removes only the `files` row. The foreign key's `ON DELETE CASCADE` is not in
  force, because the connection never enables it. After a download-triggered delete or a sweep, the
  capsule's tracking rows stay behind. Only the explicit delete removes them. (`Consistent` allows
  such orphan rows.) A capsule stored later under the same id inherits them: an old undownloaded
  row counts as pending, so `check_and_update_download` never reports the last download of the
  new capsule (`InheritedRowBlocksLast`). `add_file` raises the integrity error when a new
  recipient already has a row under that id, but not for the old row of a user the new capsule
  does not list. The upload theorems are stated for an id with no tracking rows.
- The sweep in `app.py` selects only `expiry_date < now`. It ignores the status of the
  trash-emptying call, and it removes only the `files` row.
- The upload handler never checks the unlock date itself. `add_file` rejects a bad date, so the
  rejection comes after the file has been sent to the remote service, and it surfaces as a 500.
  `UploadChecksDateAfterRemote` states this.

## Model

| member | source | states |
|---|---|---|
| Common.Dedup | app.py:167 | the result has no duplicates and holds exactly the elements of the input |
| Common.DedupOfDistinct | app.py:167 | deduplicating a list without duplicates gives the same elements with the same multiplicities, in some order |
| Text.Strip | app.py:164 | the result has no leading or trailing white space; it is empty exactly when the input is all white space; stripped text is left as it is |
| Text.StripSlice | app.py:164 | the stripped text is the slice of the input that has only white space before it and only white space after it |
| Text.SplitPieces | app.py:164 | no piece of a split contains the separator |
| Text.JoinSplit | app.py:164 | joining the pieces of a split with the separator gives back the input |
| Text.SplitJoin | app.py:164 | splitting a join of separator-free pieces gives back the pieces |
| Text.SplitConcat | app.py:164 | splitting `a + sep + b` is splitting `a` followed by splitting `b` |
| Text.CommaItems | app.py:164 | the recipients read from comma-separated text are exactly the non-empty stripped pieces of its split at commas; each is non-empty, stripped and free of commas |
| Text.CommaItemsOfJoin | app.py:164 | comma-joined clean ids are read back as the same ids |
| Text.LastPieceAfterSeparator | app.py:195 | the last '/'-separated piece of `prefix/name` is `name` |
| Text.TextLessAsymmetric | database.py:63-67 | the text order used by `ORDER BY` and `<` on text is asymmetric |
| Text.TextLessTransitive | database.py:63-67 | the text order is transitive |
| Text.IntToString | rate_limiter.py:44 | the text is the decimal numeral of the number: its digits denote the absolute value, with no leading zero, behind a '-' exactly when the number is negative |
| Timestamps.ParseLocal | database.py:119 | a parsed date-picker value is a valid datetime with zero seconds |
| Timestamps.ParseFormatLocal | database.py:119 | the date-picker text of a valid datetime with zero seconds parses back to that datetime |
| Timestamps.FormatParseLocal | database.py:119 | text accepted in the date-picker form is exactly the date-picker text of its value, so nothing else parses |
| Timestamps.ParseStored | app.py:220 | a parsed stored timestamp is a valid datetime |
| Timestamps.ParseFormatStored | database.py:120 | the stored text of a valid datetime parses back to the same datetime |
| Timestamps.FormatParseStored | app.py:220 | text that parses in the stored form is exactly the stored text of its value |
| Timestamps.FormatDate | database.py:42-56 | unparsable input is returned unchanged; parsable input comes back in the stored form, denoting the same instant |
| Timestamps.LocalAsStored | database.py:45-54 | a valid `YYYY-MM-DDTHH:MM`, with the `T` made a space and `:00` appended, parses in the stored form to the same moment |
| Timestamps.FormatDateText | database.py:45-54 | for a valid `YYYY-MM-DDTHH:MM`, the result is `YYYY-MM-DD HH:MM:00` |
| Timestamps.FormatDateIdempotent | database.py:42-56 | applying format_date twice is the same as applying it once |
| Timestamps.StoredOrderIsChronological | database.py:189 | one stored timestamp sorts before another as text exactly when it is the earlier instant |
| Store.LookupFile | database.py:89-113 | get_file finds nothing exactly when there is no row; it fails to decode exactly when the recipient column is malformed; otherwise it returns the row's fields, with recipients (none for empty text) |
| Store.InsertFileOutcome | database.py:115-144 | add_file fails on an unparsable unlock date and on any key clash; otherwise it adds the new row (file name, size, MIME type, upload date as `now` in stored form, uploader, recipient list, not unlocked) and one undownloaded tracking row per listed user, changes nothing already there, and stores the unlock date in stored form as both unlock and expiry date |
| Store.InsertFileRejects | database.py:119 | an unparsable unlock date raises before anything else, and a key clash raises the integrity error |
| Store.InsertFileConsistent | database.py:138-142 | inserting a capsule whose uploader is a recipient, under an id with no tracking rows, keeps the store consistent |
| Store.EmptyConsistent | database.py:14-40 | freshly created tables are consistent |
| Store.MarkDownloadedPending | database.py:152-180 | check_and_update_download removes the caller from the pending recipients and changes nothing else; it returns true exactly when the caller was the last pending one; a missing or already-marked row gives false and no change; otherwise the row is marked with the download date |
| Store.MarkDownloadedIdempotent | database.py:157-164 | a second call for the same capsule and recipient returns false and changes nothing |
| Store.ExactlyOneLastDownload | database.py:174-180 | whatever the order of downloads, repeats included, at most one call reports "last recipient"; one does exactly when every pending recipient takes part |
| Store.InheritedRowBlocksLast | database.py:174-180 | while a user who never downloads still has an undownloaded row under the id, no download of it reports "last recipient"; a reused id inherits such rows |
| Store.TwoRecipients | database.py:152-180 | with two pending recipients, the first download returns false and the second returns true |
| Store.MarkDownloadedConsistent | database.py:166-171 | marking a download keeps the store consistent |
| Store.RemoveFileRowLeavesTracking | database.py:146-150 | delete_file removes the capsule row, keeps the store consistent, and leaves every tracking row of the capsule in place |
| Store.DropCapsulesConsistent | database.py:194-199 | deleting capsules removes exactly their rows and their tracking rows, and keeps the store consistent |
| Store.ExpiredMeansUnlocked | database.py:182-192 | on a consistent store, every id the expiry query returns has an unlock time earlier than now |
| Store.InsertNewestFirst | database.py:63-67 | inserting into the newest-first list adds exactly the new id |
| Store.InsertNewestFirstSorted | database.py:63-67 | the insertion keeps the list newest-first and free of duplicates |
| Store.ListedFor | database.py:69-87 | the listing holds summaries of listed capsules that name the user, and every such capsule appears |
| Store.ListedForOrdered | database.py:63-87 | a newest-first scan lists each capsule once, newest upload first |
| Store.Database.constructor | database.py:14-40 | both tables start empty |
| Store.Database.SelectNewestFirst | database.py:63-67 | every capsule id exactly once, in descending upload date |
| Store.Database.GetUserFiles | database.py:58-87 | exactly the capsules whose recipient list decodes and names the user, each once, as summaries, newest upload first |
| Store.Database.GetFile | database.py:89-113 | the result is the lookup of the id in the current tables |
| Store.Database.StageTracking | database.py:138-142 | staging succeeds exactly when no user is listed twice and none already has a row; the staged rows are the old ones plus one undownloaded row per user |
| Store.Database.AddFile | database.py:115-144 | the tables become the result of the insert, or stay unchanged and the error is returned |
| Store.Database.DeleteFile | database.py:146-150 | removes the capsule row only, and reports whether it existed |
| Store.Database.CheckAndUpdateDownload | database.py:152-180 | the tables and the verdict are those of the check-and-set specification |
| Store.Database.CheckExpiredFiles | database.py:182-192 | returns exactly the ids whose expiry or unlock date sorts before the current time, each once |
| Store.Database.DeleteExpiredFiles | database.py:194-199 | deletes the rows and tracking rows of exactly the listed capsules |
| Throttle.Prune | rate_limiter.py:14-20 | the kept entries are exactly those less than 3600 s older than now, and their number is the count of such entries |
| Throttle.PruneMultiset | rate_limiter.py:14-20 | pruning keeps each recent entry as many times as it occurs and drops every older one |
| Throttle.CountAfter | rate_limiter.py:37-41 | the count is at most the length; it equals the length when all entries are later than the cutoff, and is zero when none is |
| Throttle.PruneKeepsMinute | rate_limiter.py:14-41 | pruning never drops an entry of the last minute |
| Throttle.AdmitOutcome | rate_limiter.py:30-51 | the current request is recorded last, even when refused, and only entries less than an hour old remain, so the list holds one more than the requests of the last hour; the call is allowed exactly when the last minute and the kept entries are within their ceilings; the minute ceiling decides first |
| Throttle.BurstStep | rate_limiter.py:34-49 | a call within the same minute as the whole history prunes nothing, records the call and is judged on the history's length plus one |
| Throttle.Burst | rate_limiter.py:34-49 | within one minute, call i is refused by the minute ceiling exactly when the history plus i + 1 exceeds it, refused calls counting too; otherwise it is refused by the hour ceiling when that is exceeded |
| Throttle.ConfiguredBurst | app.py:24-27 | at 40 per minute with no history, 40 calls within a minute are allowed and the 41st is refused with the per-minute message |
| Throttle.WindowSlides | rate_limiter.py:37-44 | once every earlier request is at least 60 s old, only the hour ceiling can refuse a call |
| Throttle.MinuteCheckedFirst | rate_limiter.py:43-49 | when both ceilings are exceeded, the per-minute message is returned |
| Throttle.RateLimiter.constructor | rate_limiter.py:9-12 | the ceilings are stored and there is no history |
| Throttle.RateLimiter.Default | rate_limiter.py:9-12 | without arguments the ceilings are 60 per minute and 1000 per hour, and there is no history |
| Throttle.RateLimiter.CleanOldRequests | rate_limiter.py:14-20 | only the user's list changes, and it becomes its pruned version |
| Throttle.RateLimiter.CheckRateLimit | rate_limiter.py:22-51 | an empty user id is refused with "User ID is required" and no list changes; otherwise only the caller's list changes, and the verdict and message are those of one admission |
| Throttle.RequestUser | rate_limiter.py:60 | the user is the first non-empty one of the query argument and the form field, or none |
| Throttle.RateLimitGate | rate_limiter.py:53-75 | without a user id the answer is 401 and the limiter is untouched; a refusal becomes 429 with the limiter's message; otherwise the handler runs |
| Handlers.NormalizeRecipients | app.py:152-173 | an empty field is rejected; JSON text that does not decode is rejected; the accepted list is non-empty and duplicate-free, with the members of the decoded JSON list or of the comma items |
| Handlers.RecipientsOfJoinedIds | app.py:160-167 | clean distinct ids, comma-joined, are accepted and normalised to the same ids, each once, in some order |
| Handlers.WithUploader | app.py:175-176 | the uploader is in the result; the list is extended only by the uploader and stays duplicate-free |
| Handlers.UploadRejectsEarly | app.py:141-173 | every 400 rejection comes before the remote upload and writes nothing; with file, user field and name present, the answer is 400 exactly when normalisation fails |
| Handlers.UploadChecksDateAfterRemote | app.py:194-197 | an unparsable unlock date is only caught after the remote upload, and gives 500 with the tables unchanged |
| Handlers.UploadStores | app.py:175-197 | a successful upload stores the capsule under the last piece of the returned URL, listing the normalised recipients plus the uploader, each once and each with an undownloaded row, with the form's file name, size and MIME type, the upload time in stored form and the unlock date in stored form, and changes nothing else |
| Handlers.UploadPendingRecipients | app.py:175-197 | after an upload under an id with no tracking rows, the capsule is pending for exactly the uploader and the normalised recipients |
| Handlers.UploadConsistent | app.py:140-204 | uploading under an id with no tracking rows keeps the store consistent |
| Handlers.DownloadServesOnlyUnlockedRecipients | app.py:209-248 | content is served only to a recipient, once the capsule is unlocked or its unlock time has come, after a 200 fetch; every other outcome leaves the tables unchanged |
| Handlers.DownloadGateOrder | app.py:210-235 | no user gives 401, an unknown id 404, a locked capsule 403 with its unlock date whatever the caller's membership, and a non-member 403 |
| Handlers.DownloadDeletesAfterLastRecipient | app.py:245-273 | a served download asks for deletion exactly when the caller was the last pending recipient; the capsule row goes exactly then, and only when the move to trash answers 200 and emptying the trash does not raise |
| Handlers.DownloadPassesGates | app.py:223-248 | a recipient's download of an unlocked capsule with a 200 fetch is the check-and-set, followed by the detached delete when it reports the last recipient |
| Handlers.UploaderDownloadsLast | app.py:245-273 | with bob and the uploader alice pending, bob's download keeps the capsule, and alice's later download removes it |
| Handlers.DownloadConsistent | app.py:209-273 | downloads keep the store consistent |
| Handlers.DeleteOnlyByOwner | app.py:291-338 | only the uploader can delete, recipients included; success removes exactly the capsule's row and its tracking rows; every other outcome changes nothing |
| Handlers.DeleteFailedPurgeKeepsCapsule | app.py:310-330 | a refused move to trash, or a trash emptying that answers neither 200 nor 204, returns the remote status and changes nothing |
| Handlers.DeleteConsistent | app.py:333-338 | deletes keep the store consistent |
| Handlers.SweepRemovesOnlyUnlocked | app.py:351-390 | on a consistent store the sweep selects what the store's expiry query selects; every capsule it removes has passed its unlock time; tracking rows stay and the store stays consistent |
| Handlers.Upload | app.py:140-204 | the reply, the new tables and whether the remote upload was made are those of the upload specification |
| Handlers.Download | app.py:209-286 | the reply and the new tables are those of the download specification |
| Handlers.DeleteCapsule | app.py:291-349 | the reply and the new tables are those of the delete specification |
| Handlers.SelectByExpiry | app.py:357-362 | exactly the ids whose expiry date sorts before the cutoff, each once |
| Handlers.SweepExpired | app.py:351-390 | each selected capsule is removed exactly when its own move to trash answered 200 and its trash emptying did not raise, whatever happened to the others; tracking rows stay |

## Left out

- The `TTLCache` response cache and its `cache.clear()` calls: no domain logic.
- Remote storage calls: `upload_file` is an input as the URL it returned, or none when it raised; `requests.get`, `requests.patch` and `requests.delete` are inputs as a status code or `Failed`.
- `json.loads` of the recipient field is an input (`decoded`). JSON lists holding non-strings, which `list(set(...))` may reject, are not modelled.
- `json.dumps` of the recipient column: the column is modelled as a decoded list, empty text or malformed text. A NULL column is not modelled, since nothing writes one.
- `secure_filename` and `os.fstat`: the stored file name and size are inputs. One `filename` field
  serves both the upload's emptiness check and the stored name. The source checks the raw
  `file.filename` and stores `secure_filename` of it, so a name that `secure_filename` empties
  passes the check and is stored as empty text; the model does not capture that case.
- Timestamps.ParseLocal: `strptime` also accepts non-zero-padded fields such as `2025-1-5T9:05`, and it matches the literal `T` without regard to case, so `2025-01-05t09:05` parses too. Only the zero-padded fixed-width form with an upper-case `T` is modelled.
- Timestamps.ParseStored: the same leniency applies to `%Y-%m-%d %H:%M:%S`. `strptime` also accepts non-padded fields, a run of white space for the space, and non-ASCII digits. Only the fixed-width form is modelled. The column only ever holds `strftime` output, which is in that form.
- Timestamps.FormatStored: always writes four year digits. The platform `strftime('%Y')` may write fewer for years before 1000.
- Timestamps: `datetime.now` is read at whole-second precision. This is exact for the unlock comparison, because stored dates have zero sub-seconds, and for stored text, because `strftime` drops sub-seconds.
- Throttle.RateLimiter.CheckRateLimit: reads the clock once per call. The source reads `time.time()` twice, in `check_rate_limit` and in `_clean_old_requests`, and uses floats.
- Common.Dedup: keeps first occurrences. Python's `list(set(...))` order depends on hashing, so no contract promises an order: `Dedup` and `NormalizeRecipients` promise membership and no duplicates, and `DedupOfDistinct` and `RecipientsOfJoinedIds` promise the same multiset.
- Handlers.Download: the `isinstance(allowed_users, str)` branch is not modelled. It cannot be taken, because `get_file` already decodes the column.
- Handlers.Download: the detached delete runs to completion before the reply. The source schedules it with `asyncio.create_task`.
- `BackgroundScheduler` and the async wrappers are not modelled. Concurrency is out of scope: each handler and the sweep run as one sequential call.
- The `rate_limit` wrapper is modelled on its own and not composed with each handler.
- SQLite transactions are not modelled. Each store method either commits all its changes or none, as `with sqlite3.connect(...)` does on success or exception.
- `list_files` in app.py is not modelled. It is `get_user_files` behind the cache.
- Vault and configuration bootstrap, static JavaScript, and Flask response construction are not modelled.
