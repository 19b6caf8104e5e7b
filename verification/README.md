# NSFW_PIP downloader and cleanup, modelled in Dafny

This project models the two core scripts of the repository.

`downloader.py` is a multi-worker video downloader. Each worker:

- picks a random endpoint among those that are not circuit-broken;
- asks it for a media URL;
- downloads that URL, probing with HEAD first, then checking for a leftover temp file, streaming, checking completeness, renaming and checking the content hash;
- records the result in shared counters and history sets, which are persisted as `download_history.json`.

`cleanUp.py` deletes old data. It walks the output directory bottom-up and deletes files older than a cutoff and the directories that become empty. It then deletes the top-level dated directories (`雅俗共赏_YYYYMMDD`) whose date is before the cutoff.

The model is purely functional. Everything the code learns from outside is an input:

- the HTTP responses (status, parsed JSON, body text, headers, final URL);
- the chunks of a streamed transfer, including a stop request and an exception mid-stream;
- the temp-file size found on disk, whether `os.rename` succeeds, and the file's MD5;
- the clock stamp and thread identifier, and the choice made by `random.choice`;
- the directory tree with modification times and whether each removal succeeds.

The functions decide what the code decides: which branch is taken, which counters move, which files remain.

Modules:

- `Wrappers`: the `Option` type.
- `Text`: the Python `str` operations used.
  - `strip` uses the full `isspace` set.
  - `startswith`, the `in` substring test, `lower`, `str(n)` and `f"{n:06d}"` are modelled too.
- `Health`: the per-endpoint failure counts, with a threshold of 5.
- `Resolver`: `get_video_url`.
- `Naming`: `sanitize_path`, the extension choice and `get_unique_filename`.
- `History`: the seen-hash and seen-URL sets, with loading and saving.
- `Download`: `download_video`, as an outcome function.
- `Worker`: one iteration of `worker_thread`, and runs of iterations.
- `Calendar`: `strftime("%Y%m%d")` and `strptime(s, "%Y%m%d")`. The parse follows CPython's `_strptime` regular expression: ordered alternatives for month and day, a match anchored only at the start, then a rejection of leftover text and of impossible dates.
- `Retention`: `clean_old_data`.

A transfer that delivers 750 of 1000 declared bytes is discarded silently. No counter changes, the error count included: `error_count` only increases when an exception reaches the handler at `downloader.py:354-364`. `Download.ShortTransferDiscarded` states this case.

## Model

| member | source | states |
|---|---|---|
| `Text.Strip` | downloader.py:226 | The result is a contiguous part of the input with only Python whitespace cut off at both ends, and it neither starts nor ends with whitespace |
| `Text.StripIdempotent` | downloader.py:233 | Stripping a stripped text changes nothing |
| `Text.ContainsIffOccurs` | downloader.py:239 | The `in` test holds exactly when the substring occurs at some position |
| `Text.Lower` | downloader.py:238 | Lower-casing keeps the length and maps each character independently |
| `Text.NatToString` | downloader.py:141-142 | `str(n)` is a non-empty string of decimal digits without a leading zero |
| `Text.DigitsValueOfNatToString` | downloader.py:142 | Reading back the digits of `str(n)` gives `n` |
| `Naming.ReplaceReserved` | downloader.py:86 | Each reserved character (`<`, `>`, `:`, `"`, the vertical bar, `?`, `*`) becomes `_`; every other character and the length are kept |
| `Naming.ReplaceSpaces` | downloader.py:87 | Each space becomes `_`; every other character and the length are kept |
| `Naming.SanitizePath` | downloader.py:84-88 | Every reserved character and every space becomes `_`, all others are kept, and no unsafe character remains |
| `Naming.SanitizeIdempotent` | downloader.py:84-88 | Sanitizing a sanitized path changes nothing |
| `Naming.Extension` | downloader.py:275-282 | `.avi` iff the lower-cased type contains "avi"; `.mov` iff not "avi" but "mov"; `.webm` iff neither but "webm"; `.mp4` otherwise |
| `Naming.PadCounter` | downloader.py:142 | `{n:06d}` is all digits, has length max(6, digits of n), and reads back as `n` |
| `Naming.UniqueFilename` | downloader.py:136-145 | The counter goes up by one. The name starts with `video_<stamp>_<ident % 1000>_`, ends with the extension, and between them holds exactly as many characters as `{n:06d}` of the new counter has, so at least six |
| `Naming.FilenameCounterRoundTrip` | downloader.py:139-144 | The text between the prefix and the extension is exactly `{n:06d}` of the new counter, and reads back as that counter |
| `Naming.FilenamesDistinct` | downloader.py:136-145 | Different counter values give different names for the same stamp, thread and extension |
| `Health.MarkFailure` | downloader.py:152-155 | The endpoint's count goes up by one (from 0 if absent), it becomes a key, and no other endpoint changes |
| `Health.MarkSuccess` | downloader.py:157-161 | A positive count goes down by one; an absent or zero count leaves the map unchanged; the keys and the other endpoints are unchanged |
| `Health.Decay` | downloader.py:409-410 | Every recorded count v becomes max(0, v-1) and the set of endpoints is kept |
| `Health.AvailableApis` | downloader.py:388-390 | The result is an order-preserving subsequence of the endpoints; it holds each endpoint exactly as often as the list does when its count is below 5, and never otherwise |
| `Health.NoneAvailable` | downloader.py:405-406 | The worker's back-off branch is taken exactly when every configured endpoint has reached the threshold |
| `Health.DecayTimesLowers` | downloader.py:405-411 | k decay passes lower every count by k, floored at 0, and keep the endpoints |
| `Health.SuccessesRecover` | downloader.py:147-161 | k successes lower the count by k, floored at 0; the endpoint is then available iff its count was below 5 + k |
| `Health.FailuresTrip` | downloader.py:147-155 | k failures raise the count by exactly k; the endpoint is then broken iff count + k ≥ 5; other endpoints are unchanged |
| `Resolver.FirstUrlField` | downloader.py:223-228 | None iff no key holds a string that starts with "http" once stripped; otherwise the stripped value of the first key in order that does |
| `Resolver.Extract` | downloader.py:220-240 | The JSON field wins, then the stripped body text (starting with "http", under 500 chars), then the final URL when the content type mentions video; none iff all three fail |
| `Resolver.GetVideoUrl` | downloader.py:196-249 | An unavailable endpoint gives nothing and changes nothing. Status 200 is a success for the endpoint whatever the body holds and yields the extraction. Any other status, or an exception, is a failure and yields nothing |
| `Resolver.ResolvedUrlShape` | downloader.py:224-240 | A resolved URL is a stripped string starting with "http", or the final URL of a response whose content type mentions video |
| `Resolver.ResolutionHealthStep` | downloader.py:217-249 | After a 200 the endpoint stays available; otherwise its count rises by one; other endpoints are untouched |
| `History.Elements` | downloader.py:170-171 | `set(list)` holds exactly the list's elements |
| `History.Load` | downloader.py:163-174 | A missing or unreadable file changes nothing. An unhashable `hashes` field changes nothing. Otherwise the hashes are replaced, and the URLs are replaced unless their field raises |
| `History.ToList` | downloader.py:182-183 | `list(set)` lists every element exactly once |
| `History.Save` | downloader.py:176-186 | The document holds both sets as duplicate-free lists, and loading it back gives the saved sets whatever was loaded before |
| `Download.Initial` | downloader.py:26-39 | Counters at zero, no failures, counter 0, running. The history starts empty and takes what `load_download_history` reads: a missing or unreadable file, or an unhashable `hashes` field, leaves it empty. Otherwise the hashes are the field's elements, and the URLs too unless their field raises |
| `Download.Restart` | downloader.py:176-186 | Saving the history and starting a new downloader on the saved file gives back exactly the saved sets, with fresh counters |
| `Download.RememberedUrlIsDuplicate` | downloader.py:163-174 | A URL listed in the history file found at start-up is a duplicate on its first attempt |
| `Download.PlanResume` | downloader.py:288-299 | The temp file is discarded iff the declared length is positive and the file already has that many bytes. Otherwise the transfer resumes from its size, and the offset stays below a positive length. A `Range: bytes=N-` header, which parses back to the offset, and append mode are used iff the offset is positive |
| `Download.Consume` | downloader.py:312-319 | The loop ends with the offset plus the bytes of all chunks before the first stop or fault. It ends finished iff there is none, and halted iff the first is a stop |
| `Download.StreamToTemp` | downloader.py:312-319 | The imperative chunk loop agrees with `Consume` |
| `Download.Publish` | downloader.py:321-352 | Incomplete iff below 80% of a positive declared length. Otherwise the rename failed iff the rename fails, then a duplicate iff a computed hash is already recorded, and stored in the remaining case. Every outcome is accounted for. A final file remains iff stored, and no temp file remains |
| `Download.Fetch` | downloader.py:301-364 | A raised GET or a fault mid-stream is an error, exactly. A GET status other than 200/206 is a silent failure, exactly. A stop request is a cancellation, exactly: it keeps its temp file and clears running. A finished stream of n bytes is then classified as in `Publish`. Every outcome is accounted for. A final file remains iff stored |
| `Download.NameFor` | downloader.py:275-286 | The name given after a passed probe has the stamp-and-thread prefix and ends with the extension the content type selects |
| `Download.Probed` | downloader.py:259-286 | A raised HEAD, or a content-length header `int()` rejects, is an error. A HEAD status other than 200/206 is a silent failure, exactly. A name is assigned iff the probe passes: the `get_unique_filename` name with the extension the content type selects. It has the stamp-and-thread prefix and ends with that extension, and the filename counter moves by one. The GET, stream and publish steps then classify the rest as in `Fetch` |
| `Download.NamedFetch` | downloader.py:275-352 | After a passed probe, the file gets the `NameFor` name and the counter moves by one. Errors, bad GET status, cancellation and the finished-stream classification are as in `Fetch` for the declared length |
| `Download.DownloadVideo` | downloader.py:251-364 | A seen URL is a duplicate, exactly. An unseen URL with running cleared does nothing. Otherwise the outcome is decided by the world exactly as in `Probed`: the probe status, the exceptions, the GET status, the stop request, and for a finished stream of n bytes the completeness rule, the rename and the hash check. A name, with the extension the content type selects, is assigned iff the attempt is fresh and the probe passes. Every outcome moves only its own counter and history: duplicate +1, error +1 for exceptions only, commit adds one download, its bytes, its URL and its hash. A final file remains iff stored. Health is untouched. The filename counter moves iff a name was assigned |
| `Download.CountersMonotone` | downloader.py:251-364 | No counter decreases and the history sets only grow |
| `Download.StoredIsRecorded` | downloader.py:343-352 | A commit adds exactly its URL to the URL set. It adds its hash to the hash set when one was computed, and leaves the hash set unchanged otherwise |
| `Download.SameUrlTwice` | downloader.py:253-257 | After a commit, the same URL again is a duplicate and stores nothing, whatever the world does |
| `Download.SmoothTransferCompletes` | downloader.py:312-325 | A fresh, error-free transfer of the declared bytes finishes with exactly those bytes and passes the completeness rule |
| `Download.SameContentTwice` | downloader.py:335-341 | A second URL whose content hashes like a committed one is a duplicate, leaves no file, and is not counted as a download |
| `Download.ResumeCompletes` | downloader.py:288-325 | A temp file of n bytes, 0 < n < L, plus L - n streamed bytes is a complete L-byte download requested with a Range header in append mode |
| `Download.ShortTransferDiscarded` | downloader.py:321-325 | 750 of 1000 declared bytes: incomplete, no files left, no counter changes |
| `Download.CancelKeepsTemp` | downloader.py:314-316 | A stop during the transfer keeps the temp file, writes no final file, changes no counter and leaves running cleared |
| `Download.SmoothStored` | downloader.py:259-352 | A new URL, a probe and transfer without faults that deliver the declared bytes, a successful rename and new content give a stored file of exactly those bytes, one more download, and those bytes added to the total |
| `Download.ErrorsCountExceptions` | downloader.py:354-364 | `error_count` rises by one exactly when an unseen URL is attempted while running and an exception reaches the handler; otherwise it is unchanged |
| `Download.SilentFailures` | downloader.py:269-333 | A rejected probe or GET status, a short stream and a failed rename move no counter and record nothing |
| `Worker.WorkerStep` | downloader.py:396-424 | Running cleared: the loop exits. Limit reached: running is cleared and the loop exits. No endpoint available: one decay pass and continue. Otherwise the chosen endpoint is asked for a URL; a non-empty URL is downloaded and the step continues from the download's state, and without one the step continues with only the endpoint's health updated. The loop only continues below the limit, and one pass adds at most one download |
| `Worker.DownloadComesFromResolution` | downloader.py:413-419 | A download counted in one pass comes from the chosen available endpoint: it answered 200 with a URL not seen before, and that URL is recorded afterwards |
| `Worker.ChosenIsAvailable` | downloader.py:413-414 | The endpoint chosen is a configured endpoint and is available |
| `Worker.RunRespectsLimit` | downloader.py:396-401 | A single worker starting at or below `max_downloads` never ends above it |
| `Worker.StepMonotone` | downloader.py:403-424 | One iteration never lowers a counter or shrinks a history set |
| `Worker.RunMonotone` | downloader.py:396-428 | Any run of iterations never lowers a counter or shrinks a history set |
| `Calendar.DayNumberOrder` | cleanUp.py:81 | Comparing day numbers is comparing dates: earlier iff smaller, equal iff equal |
| `Calendar.DayNumberIncreases` | cleanUp.py:81 | An earlier valid date has a smaller day number |
| `Calendar.TwoDigits` | downloader.py:490 | `%m` and `%d` are two digits that read back as the number |
| `Calendar.FourDigits` | downloader.py:490 | `%Y` of a four-digit year is four digits that read back as the year |
| `Calendar.FormatYmd` | downloader.py:490 | `%Y%m%d` is eight decimal digits |
| `Calendar.MonthGroups` | cleanUp.py:80 | Every month alternative that matches takes one or two characters within the text, starting with a digit. Its value is that digit, or the two digits read as a number, and lies in 1..12 |
| `Calendar.MonthReadings` | cleanUp.py:80 | The month readings are complete and in pattern order. There are at most two. A two-digit reading comes first exactly when two digits spell 01 to 12, and a one-digit reading comes last exactly when a digit 1 to 9 stands there |
| `Calendar.DayGroups` | cleanUp.py:80 | Every day alternative that matches takes one or two characters within the text. Its value is the single digit, the two digits read as a number, or the digit after a leading space, and lies in 1..31 |
| `Calendar.DayReadings` | cleanUp.py:80 | The day readings are complete and in pattern order. There are at most two. A two-character reading comes first exactly when two digits spell 01 to 31 or a space precedes a digit 1 to 9, and a one-digit reading comes last exactly when a digit 1 to 9 stands there |
| `Calendar.FirstMatch` | cleanUp.py:80 | No match iff no month alternative is followed by a matching day alternative. Otherwise the match is the first month alternative that is, with the first day alternative after it, and ends after both |
| `Calendar.ParseYmd` | cleanUp.py:80 | Whatever `strptime` accepts is a date that exists, years 1 to 9999 |
| `Calendar.ParseFormat` | cleanUp.py:80 | Parsing what `strftime("%Y%m%d")` wrote gives the same date back |
| `Calendar.TwoDigitsOf` | downloader.py:490 | Any two digits are the `%m`/`%d` rendering of the number they spell |
| `Calendar.FourDigitsOf` | downloader.py:490 | Any four digits spelling at least 1000 are the `%Y` rendering of that year |
| `Calendar.FormatParse` | cleanUp.py:80 | An eight-digit text that `strptime` accepts with a year of at least 1000 is exactly what `strftime("%Y%m%d")` writes for that date |
| `Retention.Walk` | cleanUp.py:47-70 | The remaining tree is the old one with exactly these entries deleted: each expired, removable file, and each removable directory all of whose contents go. Every other entry stays in order, directories with their pruned contents. The tree is emptied iff everything in it goes. The file count is the number of expired, removable files. Kept files are all kept. No deletable file remains. Directory counts add up. No empty removable directory remains |
| `Retention.FilesSplit` | cleanUp.py:50-59 | Every file is either kept or deleted |
| `Retention.UnexpiredFilesKept` | cleanUp.py:50-59 | In a directory holding only files whose time is unknown or not before the cutoff, every file is kept, in order, and none is counted |
| `Retention.LockedDirectoryStays` | cleanUp.py:61-69 | A directory whose removal fails stays under its name with its pruned contents and is not counted |
| `Retention.DatedDirName` | downloader.py:489-491 | The dated directory's name starts with `雅俗共赏_` |
| `Retention.IndexOf` | cleanUp.py:79 | None iff the character is absent; otherwise the position of its first occurrence |
| `Retention.SecondField` | cleanUp.py:79 | None iff there is no `_` (the index raises). Otherwise the text from just after the first `_` up to the next `_` or the end |
| `Retention.SecondFieldOf` | cleanUp.py:79 | `split('_')[1]` of `p_x` is `x` when neither contains `_` |
| `Retention.DirDate` | cleanUp.py:75-80 | A recognised date is valid, comes from a name with the dated prefix, and is what `strptime` makes of the name's second `_`-separated field |
| `Retention.UnparsableSkipped` | cleanUp.py:77-87 | A name without a second field, or whose second field `strptime` rejects, gives no date and is skipped |
| `Retention.NotesSkipped` | cleanUp.py:77-87 | `雅俗共赏_notes` carries the prefix but gives no date |
| `Retention.DatedNameRoundTrip` | cleanUp.py:75-80 | The directory the downloader makes for a date is recognised as that date |
| `Retention.KeepUndated` | cleanUp.py:72-87 | The entries left are exactly the original ones, with multiplicity, minus the expired, removable dated directories |
| `Retention.SweepDated` | cleanUp.py:72-87 | The loop keeps exactly those entries and counts the rest |
| `Retention.CleanOldData` | cleanUp.py:30-89 | A missing base gives (0, 0) and no tree. Otherwise the file count is the number of deleted files, and the directory count is the walk's plus the dated directories deleted after it |
| `Retention.DatedDirectoryExpires` | cleanUp.py:79-85 | A removable dated directory made for day d is deleted iff the start of day d is before the cutoff |

## Left out

- Text.Lower: lower-cases ASCII letters only, because Unicode case mapping tables are outside the model. The content types and extensions compared are ASCII.
- Calendar.ParseYmd: accepts ASCII digits only, while `\d` in Python's regular expressions also matches other Unicode decimal digits.
- Calendar.FormatYmd: requires a four-digit year, because how `%Y` pads years below 1000 depends on the platform.
- Download.DownloadVideo: the completeness rule `downloaded < length * 0.8` is stated exactly, as 5·written < 4·length, rather than with floating-point rounding.
- HTTP sessions, retry adapters, headers, timeouts and the SSL-verify domain list (`downloader.py:106-134`, `downloader.py:205-208`): the network is replaced by the responses it returns.
- Threads, the lock, the thread-local session, sleeps, the status printer, `start_download` and signal handling: the model is one sequential worker. The check at `downloader.py:253` runs outside the lock, so with several workers two of them can both pass it for the same URL.
- `get_file_hash` (MD5): the hash, or its failure, is an input.
- `format_size`: floating-point formatting for display only.
- `ensure_directory` and its fallback to `os.getcwd()/video_downloads` (`downloader.py:90-104`): filesystem set-up, outside the model.
- The argument parsing and `main` of both scripts.
- History: JSON text, encoding and write failures of `save_download_history` are not modelled; the document is modelled by its two fields. Field values that are not lists but still iterable are left out: they are treated as `Unhashable` or as lists of strings. A list whose elements are not strings, such as `[1, 2]`, cannot be represented either: the model's lists hold strings only.
- Download: the removals at `downloader.py:293`, `downloader.py:324`, `downloader.py:332` and `downloader.py:338` are assumed to succeed. In the code a failing one raises, and the exception handler then counts an error; the model does not follow that path.
- Download: the removal of the temp file inside the exception handler (`downloader.py:357-360`) is treated as succeeding. In the code its failure is swallowed and the temp file stays behind.
- The resume branch: the temp path is the final name plus `.tmp`, and the final name is freshly numbered by `get_unique_filename` (`downloader.py:284-286`). A temp file is therefore found only when an earlier run left one under the same stamp, thread number and counter, so the branch is practically never taken. The model keeps the temp-file size a free input, so `PlanResume` and `ResumeCompletes` cover the branch anyway; `Naming.FilenamesDistinct` states why names do not repeat within a run.
- Worker.RunRespectsLimit: covers one worker. With `max_workers > 1` the limit check at `downloader.py:398-401` runs under the lock but the download after it does not, so every worker can pass the check before any of them commits. `downloaded_count` can then end up to `max_workers - 1` above `max_downloads`.
- Retention: the real filesystem walk, symbolic links, time zones and fractional modification times are not modelled. Times are whole seconds on one local clock.
- Retention: a failing `shutil.rmtree` is treated as removing nothing, and the printed messages are left out. The walk visits entries one at a time, while `os.walk` lists a directory's files and then its subdirectories; the resulting tree and counts are the same.
- Retention: every directory is assumed listable. In the code `os.walk` skips a directory it cannot list, and the `os.listdir` at `cleanUp.py:64` then raises outside any `try`: `clean_old_data` stops without returning counts, and the deletions already made stay done.
