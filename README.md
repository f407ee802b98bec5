# Nyaser Maps Downloader: backend core in Dafny

This project models the Rust backend of Nyaser Maps Downloader, a desktop
tool that downloads Left 4 Dead 2 map archives with aria2, extracts them
with 7-Zip and mounts them into the game's `addons` directory through
symbolic links. The model covers these parts of the backend:

- the bounded-concurrency task queue;
- the download and extraction queues with their retry loop;
- the queue commands;
- the URL, Steam manifest and aria2 JSON-RPC parsers;
- the download monitor's timing and failure counting;
- the elevated helper that creates symbolic links on request.

Each Rust source file is one module. Code that changes state in place is
modelled as classes and methods with loops. The parsers and formatters
are functions. The properties the code promises are lemmas.

Processes, the file system, the clock and JSON text parsing are inputs.
They appear as parameters, for example `attempt: nat -> Result<…>` for
successive 7-Zip runs, `runs: nat -> Run` for successive PowerShell runs,
`present: string -> bool` for `Path::exists`, and a map from paths to
entries for the helper's file system.

Modules:

- `Wrappers`: `Option` and `Result`.
- `Text`: the `str` methods the code relies on.
- `Json`: `serde_json::Value`.
- `Utf8`: UTF-8 and percent decoding.
- `Paths`: `PathBuf::join`, `parent`, `file_name` and `set_extension` on the paths the backend builds (std's rules for other paths are listed under Left out).
- One module per source file:
  - `QueueManager` for `queue_manager.rs`;
  - `DownloadManager` for `download_manager.rs`;
  - `ExtractManager` for `extract_manager.rs`;
  - `Commands` for `commands.rs`;
  - `Utils` for `utils.rs`;
  - `DirManager` for `dir_manager.rs`;
  - `Aria2cRpc` and `Aria2cDownload` for `aria2c.rs`: the RPC client, and the download monitor;
  - `Helper` for `helper.rs`.

The repository is in the middle of a refactor. `commands.rs` drives a
download queue with a waiting list, an active list and a task map. That
queue differs from the `DownloadQueue` of `download_manager.rs`. The two
are modelled separately, each as written.

## Model

| member | source | states |
|---|---|---|
| QueueManager.TaskQueue.constructor | src-tauri/src/queue_manager.rs:25-45 | `new` and `default`: a new queue is empty, not started, has no active ID and has the given cap (1 for `default`) |
| QueueManager.TaskQueue.AddTask | src-tauri/src/queue_manager.rs:48-50 | the task is appended at the back; the active set and the cap invariant are kept |
| QueueManager.TaskQueue.TakeNextTask | src-tauri/src/queue_manager.rs:53-70 | at the cap or on an empty queue nothing changes and nothing is returned; otherwise the former front is returned, the queue becomes its tail, and its ID joins the active set; the number of active tasks never exceeds the cap |
| QueueManager.TaskQueue.RemoveActiveTask | src-tauri/src/queue_manager.rs:73-75 | the ID leaves the active set; removing an absent ID changes nothing |
| QueueManager.TaskQueue.IsEmpty | src-tauri/src/queue_manager.rs:79-81 | empty exactly when no task waits and none is active |
| QueueManager.TaskQueue.Len | src-tauri/src/queue_manager.rs:85-87 | both counts are zero exactly when the queue is empty |
| DownloadManager.DownloadQueue.constructor | src-tauri/src/download_manager.rs:81-87 | the download queue starts empty with a cap of 1 |
| DownloadManager.DownloadQueue.TakeNextDownload | src-tauri/src/download_manager.rs:138-160 | below the cap the front task is popped and its ID becomes active; otherwise nothing changes |
| DownloadManager.DownloadQueue.FinishDownload | src-tauri/src/download_manager.rs:251-260 | the task leaves the active set whether the download succeeded or failed |
| DownloadManager.FirstWithoutMarker | src-tauri/src/download_manager.rs:445-456 | returns the first index whose marker file is absent, or none when every task has a marker |
| DownloadManager.FirstAbsent | src-tauri/src/download_manager.rs:445-456 | the first task without a marker, every task before it having one |
| DownloadManager.SelectionIndex | src-tauri/src/download_manager.rs:445-476 | the index taken from a non-empty queue is in range |
| DownloadManager.ExtractQueue.constructor | src-tauri/src/download_manager.rs:89-95 | the extraction queue starts empty with a cap of 1 |
| DownloadManager.ExtractQueue.DownloadAndExtract | src-tauri/src/download_manager.rs:292-339 | a failed download passes its error on and enqueues nothing; a finished one appends exactly one extraction task at the back |
| DownloadManager.ExtractQueue.TakeNextExtraction | src-tauri/src/download_manager.rs:445-476 | below the cap, the first task whose marker is absent is removed from where it stands, or the front when every task has a marker; its ID becomes active |
| DownloadManager.ExtractQueue.FinishExtractTask | src-tauri/src/download_manager.rs:604-716 | after the retries the task leaves the active set; the archive is deleted exactly on success; a failure means all four attempts failed and carries the "已尝试3次" prefix and the fourth error; a success is the first successful attempt's message, with "(重试了k次)" after k retries |
| Paths.Join | src-tauri/src/dir_manager.rs:62-71 | the result starts with the base and ends with the part |
| Paths.FileName | src-tauri/src/commands.rs:193-210 | a file name is non-empty, has no separator and ends the path (std's `Path::file_name` on the paths the backend builds) |
| Paths.Parent | src-tauri/src/commands.rs:607-615 | a parent is a strictly shorter prefix of the path (std's `Path::parent` on the paths the backend builds) |
| Paths.JoinThenSplit | src-tauri/src/dir_manager.rs:62-71 | joining a plain name and then taking the file name and the parent gives both back |
| Paths.MarkerOfSevenZip | src-tauri/src/download_manager.rs:447-452 | `x.7z` gets the marker `x.7z.aria2` |
| Paths.MarkerOfBareName | src-tauri/src/download_manager.rs:447-452 | a name without an extension gets `.7z.aria2` appended |
| ExtractManager.ExtractWithRetries | src-tauri/src/extract_manager.rs:284-314 | at most 1 + 3 attempts; the loop stops at the first success; every earlier attempt failed; a failure means all three retries were used; retry k waits 2k seconds |
| ExtractManager.FinishExtraction | src-tauri/src/extract_manager.rs:318-367 | the archive is deleted exactly on success; a failure means all four attempts failed and its message is "解压失败（已尝试3次）: " with the last error; a success after k retries appends " (重试了k次)" |
| ExtractManager.ProcessExtractTask | src-tauri/src/extract_manager.rs:392-404 | the task leaves the active set on success and on failure; the outcome and message are those of `FinishExtraction`: failure only after four failed attempts, success with the first successful attempt's message |
| ExtractManager.Release7zResources | src-tauri/src/extract_manager.rs:431-513 | succeeds only with a directory manager, returning `<bin>/7zG.exe`; with the resources already present it succeeds; without a directory manager it fails with "目录管理器未初始化" |
| ExtractManager.ExtractWith7zip | src-tauri/src/extract_manager.rs:540-737 | the extractor runs exactly when every earlier step succeeded; success exactly when it exits with status 0 and a non-empty target; the target is removed exactly after a failed or empty extraction; an existing target is deleted first exactly when the checks before it pass; the success message names the archive, the target and the file count |
| ExtractManager.RejectedBeforeExtraction | src-tauri/src/extract_manager.rs:554-572 | a missing, unsized or empty archive fails with nothing run, cleared or cleaned up; the missing-file and too-small messages |
| ExtractManager.MagicNumberOnlyLogged | src-tauri/src/extract_manager.rs:579-611 | the 7z magic-number check never changes the outcome |
| Commands.RemoveAllCounts | src-tauri/src/commands.rs:772 | `retain` removes every occurrence of the ID and keeps every other ID's count |
| Commands.RemoveAbsent | src-tauri/src/commands.rs:772 | removing an absent ID changes nothing |
| Text.PositionOf | src-tauri/src/commands.rs:784 | the first position of the ID (also `str::find` with a character): no earlier occurrence, and none at all when absent |
| Commands.RemoveFirstCounts | src-tauri/src/commands.rs:784-785 | removing the first occurrence takes exactly one occurrence away |
| Commands.CommandQueue.constructor | src-tauri/src/commands.rs:768 | `DOWNLOAD_QUEUE` as the commands see it, in a given state and with no cancel request recorded |
| Commands.CommandQueue.CancelDownload | src-tauri/src/commands.rs:754-809 | every waiting occurrence is dropped in order; an active ID loses its first occurrence and a cancel reason is recorded ("normal" by default); the task map is untouched |
| Commands.CommandQueue.CancelAllDownloads | src-tauri/src/commands.rs:881-915 | the waiting list is emptied and its former length reported; the active list is kept |
| Commands.CommandQueue.RefreshDownloadQueue | src-tauri/src/commands.rs:824-878 | the snapshot is active then waiting entries filtered through the task map, and the message states both counts |
| Commands.CancelUnknownChangesNothing | src-tauri/src/commands.rs:768-809 | cancelling an ID in neither list leaves both lists as they were |
| Commands.KnownAll | src-tauri/src/commands.rs:829-847 | when the map knows every ID, the snapshot has every entry in order |
| Commands.KnownAppend | src-tauri/src/commands.rs:829-847 | unknown IDs are dropped and the rest keep their order |
| Commands.KnownShorter | src-tauri/src/commands.rs:829-847 | there are never more entries than IDs |
| Commands.SnapshotOf | src-tauri/src/commands.rs:827-852 | the payload's total is the sum of both filtered lengths |
| Commands.SnapshotTotal | src-tauri/src/commands.rs:827-852 | the total never exceeds the number of IDs, and equals it when the map knows every ID |
| Commands.HexFixed | src-tauri/src/commands.rs:236-239 | `{:016x}` gives exactly w lower-case hex digits |
| Commands.HexRoundTrip | src-tauri/src/commands.rs:236-239 | reading the digits back gives the number whenever it fits in w digits |
| Commands.U64IsSixteenDigits | src-tauri/src/commands.rs:233-239 | every u64 fits in 16 hex digits |
| Commands.LinkName | src-tauri/src/commands.rs:229-239 | "nmd_link_" + 16 hex digits + ".vpk" |
| Commands.LinkNameRoundTrip | src-tauri/src/commands.rs:229-239 | the digest can be read back from its link name |
| Commands.LinkNameInjective | src-tauri/src/commands.rs:1023-1027 | different digests never share a link name |
| Commands.WrapI32 | src-tauri/src/commands.rs:68-69 | `as i32` and wrapping arithmetic stay in the i32 range and are the identity on it |
| Commands.TruncDivRemainder | src-tauri/src/commands.rs:68-69 | the truncating division's remainder has the sign of the dividend |
| Commands.CentredCoord | src-tauri/src/commands.rs:68-69 | main_pos + (main_size − child_size)/2, with truncating i32 division |
| Commands.CentredMargins | src-tauri/src/commands.rs:68-69 | without overflow, the left margin is half the size difference truncated toward zero, the two margins differ by at most one pixel, and the odd pixel goes to the far side |
| Commands.CentringTruncates | src-tauri/src/commands.rs:68-69 | a child wider than the main window by an odd number of pixels is placed one pixel right of the floored position |
| Commands.GroupFilesLinks | src-tauri/src/commands.rs:229-251 | every file carries the link name of "group/file" and is mounted exactly when that link exists |
| Commands.MapGroupsShape | src-tauri/src/commands.rs:271-283 | every listed group has a file and is mounted exactly when all its files are |
| Commands.ListGroupFiles | src-tauri/src/commands.rs:197-270 | the inner loop lists the group's regular files with their link state |
| Commands.ListMapGroups | src-tauri/src/commands.rs:184-300 | the outer loop lists the non-empty group folders in directory order |
| Commands.GetMaps | src-tauri/src/commands.rs:103-300 | a `get_data_dir` error passes through; with no manager yet, no configured data directory is "未配置数据存储目录，请先配置" and a `with_nmd_data_dir` error passes through; a manager made here has no addons directory, so the list is empty; with a manager, the result is `MapsOfReadyManager` |
| Commands.MapsOfReadyManager | src-tauri/src/commands.rs:143-300 | no data directory is an error; once it is known, the only other error is an unreadable maps directory, and when both directories exist an unreadable maps directory is exactly that error; a missing maps directory, no addons directory or a missing addons directory give an empty list; when both directories exist and the listing is read, the result is exactly the groups of the listing |
| Commands.JoinAddsSeparator | src-tauri/src/commands.rs:617 | joining onto a directory without a trailing separator adds exactly one |
| Commands.InstallExtractsOutsideMaps | src-tauri/src/commands.rs:605-618 | as written `install` extracts into `<data>/bin/maps`, not the `<data>/maps` that `get_maps` lists; the corrected directory is `<data>/maps`; this holds for every data directory, a drive root included |
| Commands.InstallExtractDir | src-tauri/src/commands.rs:605-618 | corrected: the extraction directory is `<data>/maps`, the directory `get_maps` lists, and never the as-written `<data>/bin/maps` |
| Utils.BaiduPcsLinkMatchesPattern | src-tauri/src/utils.rs:5-8 | the link test holds exactly for http(s)://…baidupcs.com/file/<non-empty> |
| Utils.LinkHasPatternShape | src-tauri/src/utils.rs:5-8 | a matching link has the pattern's shape |
| Utils.PatternShapeIsLink | src-tauri/src/utils.rs:5-8 | every URL of the pattern's shape matches |
| Utils.RunToAmpersand | src-tauri/src/utils.rs:13 | the run up to the next '&' holds no '&' |
| Utils.FinValueFrom | src-tauri/src/utils.rs:13-17 | the capture of `&fin=([^&]+)`: a non-empty value up to the next '&' that follows the first `&fin=` |
| Utils.FileNameFromBaidupcs | src-tauri/src/utils.rs:11-31 | no `fin` value gives none; when the decode with '+' read as "%20" succeeds it is the name; only when it fails is the raw value decoded, and that decode (or none) is the name |
| Utils.PlusAsSpace | src-tauri/src/utils.rs:19-21 | every '+' becomes a space and nothing else changes |
| Utils.PlusEscapeDecodes | src-tauri/src/utils.rs:19-21 | replacing '+' by "%20" and then percent-decoding is reading '+' as a space |
| Utils.FinPlusIsSpace | src-tauri/src/utils.rs:16-28 | a `fin` value without escapes comes out with '+' read as a space |
| Utils.SegmentLength | src-tauri/src/utils.rs:34 | the run before the next '/' or '?' holds neither |
| Utils.PathnameMatchAt | src-tauri/src/utils.rs:34 | a capture has no '/' or '?' |
| Utils.PathnameFrom | src-tauri/src/utils.rs:34-44 | the leftmost match at or after a position |
| Utils.FileNameFromPathname | src-tauri/src/utils.rs:33-45 | a result is non-empty and holds no '/' or '?' |
| Utils.PathnameWithoutQuery | src-tauri/src/utils.rs:33-45 | without a '?', the result is exactly the text after the last '/', and none when that is empty or there is no '/' |
| Utils.NoMatchFrom | src-tauri/src/utils.rs:34 | no match starts where no '/' follows |
| Utils.NoMatchBefore | src-tauri/src/utils.rs:34 | without a '?', no match starts before the last '/' |
| Utils.FileName | src-tauri/src/utils.rs:47-56 | a Baidu PCS link goes to the `fin` extractor and has no name without a `fin` value; every other URL goes to the pathname extractor, and its name is non-empty and holds no '/' or '?' |
| Utils.FileNameOfPlainUrl | src-tauri/src/utils.rs:11-56 | a Baidu PCS link whose `fin` value has no '%' is named by that value with each '+' read as a space; another URL without '?' is named by the non-empty text after its last '/', else by nothing |
| Utf8.PercentDecodePlain | src-tauri/src/utils.rs:20-28 | bytes before the first '%' pass through percent-decoding unchanged |
| Utf8.DecodeEncode | src-tauri/src/utils.rs:20-28 | decoding the UTF-8 encoding of a text gives the text back |
| Utf8.UrlDecodeWithoutPercent | src-tauri/src/utils.rs:20-28 | a text without '%' decodes to itself |
| DirManager.WithNmdDataDir | src-tauri/src/dir_manager.rs:56-79 | it succeeds exactly when all four directories are created, with the layout `Layout(data)`; otherwise the first failure, in the order nmd_data, bin, bin/cache, maps, is the error with its own message |
| DirManager.DataDirLayout | src-tauri/src/dir_manager.rs:62-71 | bin and maps sit directly in the data directory, and cache directly in bin |
| DirManager.DirManager.constructor | src-tauri/src/dir_manager.rs:39-54 | every path is empty and there is no addons directory |
| DirManager.DirManager.SetAddonsDir | src-tauri/src/dir_manager.rs:93-95 | the addons directory is set and nothing else changes |
| DirManager.FirstQuoted | src-tauri/src/dir_manager.rs:211-217 | the text between the first two '"' has no '"' |
| DirManager.FirstQuotedOfQuoted | src-tauri/src/dir_manager.rs:211-217 | after a quote-free prefix, the text between the first two quotes is found |
| DirManager.CollapseEscaped | src-tauri/src/dir_manager.rs:218 | collapsing "\\\\" undoes the vdf escaping of a path |
| DirManager.LibraryPathOfVdfLine | src-tauri/src/dir_manager.rs:203-219 | a `"path"` line of libraryfolders.vdf gives back the path Steam wrote |
| DirManager.CollectSomes | src-tauri/src/dir_manager.rs:203-219 | starting from the given paths, the loop appends the value each line yields, in line order, and nothing else |
| DirManager.LibraryPathsFromLines | src-tauri/src/dir_manager.rs:203-219 | at most one path per line, each from some line |
| DirManager.LibraryPathsAppend | src-tauri/src/dir_manager.rs:203-219 | two stretches of lines contribute in order |
| DirManager.ParseLibraryFolders | src-tauri/src/dir_manager.rs:188-228 | the Steam directory first, then the extracted paths in line order |
| DirManager.CollectLibraryPaths | src-tauri/src/dir_manager.rs:203-219 | the loop collects exactly the paths the lines contribute |
| DirManager.InstallDirFrom | src-tauri/src/dir_manager.rs:242-246 | the leftmost `installdir"\s+"([^"]+)` match and its non-empty capture |
| DirManager.FieldValueSpec | src-tauri/src/dir_manager.rs:249-257 | a line yields a value exactly when its lower-case text contains "installdir" and the chosen field exists and is not blank |
| DirManager.FirstSomeFrom | src-tauri/src/dir_manager.rs:249-260 | the first line from a position that yields a value |
| DirManager.Appmanifest | src-tauri/src/dir_manager.rs:230-272 | missing and unreadable files are errors; a regular-expression match wins; without one the result is the first line fallback value, else the not-found error; a result is non-empty |
| DirManager.SplitKeyValueLine | src-tauri/src/dir_manager.rs:253-257 | a key-value line splits at its four quotes: field 2 is the gap, field 3 the value |
| DirManager.FallbackReadsGap | src-tauri/src/dir_manager.rs:253-257 | with a blank gap, field 2 is skipped while field 3 gives the value |
| DirManager.CapitalKeyNoMatch | src-tauri/src/dir_manager.rs:242-246 | `"INSTALLDIR" "L4D2"` has no case-sensitive match |
| DirManager.CapitalKeyFields | src-tauri/src/dir_manager.rs:249-257 | the fallback's fields on that line |
| DirManager.AsWrittenMissesCapitalisedKey | src-tauri/src/dir_manager.rs:242-263 | as written that manifest is an error; reading field 3 gives "L4D2" |
| DirManager.AppmanifestAsWritten | src-tauri/src/dir_manager.rs:230-272 | as written: when the regular expression finds nothing, the fallback reads field 2 of the split line; otherwise it agrees with the corrected parser |
| DirManager.ParseAppmanifest | src-tauri/src/dir_manager.rs:230-272 | the search loop with early return computes the corrected `Appmanifest` |
| DirManager.CandidateSpec | src-tauri/src/dir_manager.rs:291-325 | a library yields a directory exactly when its manifest exists and parses and its addons directory exists; the manifest is read with the corrected `parse_appmanifest` (field 3) |
| DirManager.Candidates | src-tauri/src/dir_manager.rs:291-325 | one candidate per library |
| DirManager.TryLibrary | src-tauri/src/dir_manager.rs:291-325 | one pass of the search loop is that library's candidate, with the corrected manifest parser |
| DirManager.FindAddonsDir | src-tauri/src/dir_manager.rs:291-331 | the first library in order that yields a directory, else the not-found error; uses the corrected manifest parser |
| DirManager.GetL4d2AddonsDir | src-tauri/src/dir_manager.rs:274-331 | a failed registry lookup passes through; a missing or unreadable libraryfolders.vdf gives its error; otherwise the first candidate over the Steam library and the listed libraries, else the not-found error; the Steam library's own candidate wins; uses the corrected manifest parser |
| Aria2cRpc.ByteOfLine | src-tauri/src/aria2c.rs:487 | a parsed line is a code below 256 |
| Aria2cRpc.ParsedCodes | src-tauri/src/aria2c.rs:490-496 | one character per parsable line, in order |
| Aria2cRpc.Decoded | src-tauri/src/aria2c.rs:485-499 | when every line is a code, the text is those characters; otherwise it is unchanged |
| Aria2cRpc.DecodeCodeLines | src-tauri/src/aria2c.rs:490-498 | the push loop computes `ParsedCodes` |
| Aria2cRpc.LinesOfCodeLines | src-tauri/src/aria2c.rs:485-499 | a text written one code per line has those lines |
| Aria2cRpc.DecodedCodeLines | src-tauri/src/aria2c.rs:485-499 | writing a Latin-1 text one code per line and decoding gives the text back |
| Aria2cRpc.PsSpan | src-tauri/src/aria2c.rs:513-521 | `@{` is at the start found and `}` at the end found |
| Aria2cRpc.BraceSpan | src-tauri/src/aria2c.rs:584-586 | the first '{' and the last '}' |
| Aria2cRpc.FirstGidRow | src-tauri/src/aria2c.rs:604-609 | the first row from a position with at least three tokens |
| Aria2cRpc.BraceStep | src-tauri/src/aria2c.rs:584-590 | the guarded slice from the first '{' to the last '}' |
| Aria2cRpc.NormaliseDecoded | src-tauri/src/aria2c.rs:505-625 | a reply whose trimmed form starts with '{' is returned as it is |
| Aria2cRpc.NormaliseAsWritten | src-tauri/src/aria2c.rs:505-625 | the normalisation as written; wherever it does not panic it returns what the corrected `Normalise` returns |
| Aria2cRpc.NormaliseTable | src-tauri/src/aria2c.rs:594-622 | an addUri table reply is rebuilt around the third token of its first data row |
| Aria2cRpc.NormaliseCutsBraces | src-tauri/src/aria2c.rs:584-590 | text printed around one JSON object is cut from the first '{' to the last '}' |
| Aria2cRpc.PsObjectOfOnePair | src-tauri/src/aria2c.rs:526-568 | a PowerShell object with one pair becomes one JSON entry without a comma |
| Aria2cRpc.BraceSlicePanics | src-tauri/src/aria2c.rs:584-590 | "} {" makes the slice as written panic, while the guarded step passes it over |
| Aria2cRpc.PsSlicePanics | src-tauri/src/aria2c.rs:519-528 | a tellStatus reply "} @{" makes the object slice as written panic, while the guarded one returns the reply |
| Aria2cRpc.AddUriRequestReadsBack | src-tauri/src/aria2c.rs:301-326 | the request carries "token:" + secret, the URL, and the save directory and file name |
| Aria2cRpc.AddUriRequest | src-tauri/src/aria2c.rs:301-326 | an `aria2.addUri` call with three parameters: the token that reads back as the secret, then the one URL |
| Aria2cRpc.TellStatusRequest | src-tauri/src/aria2c.rs:697-705 | an `aria2.tellStatus` call with two parameters: the token that reads back as the secret, then the GID |
| Aria2cRpc.QuoteRoundTrip | src-tauri/src/aria2c.rs:442-452 | PowerShell's reading of doubled quotes gives back the JSON that was quoted |
| Aria2cRpc.FirstAnswered | src-tauri/src/aria2c.rs:462-628 | the first attempt from a position that gives a non-empty reply |
| Aria2cRpc.Backoff | src-tauri/src/aria2c.rs:654-658 | the k-th wait is 500·2^k ms (the interval starts at 500 ms, line 458) |
| Aria2cRpc.RunOnce | src-tauri/src/aria2c.rs:475-651 | an attempt gives a reply exactly when the run succeeded with output, the reply being that output under the corrected normalisation; otherwise it records the spawn failure, the empty reply or the command failure |
| Aria2cRpc.SendRpcRequest | src-tauri/src/aria2c.rs:429-664 | the loop computes the reply of the first answered attempt under the corrected normalisation, or the last error after four attempts, and the waits taken between attempts |
| Aria2cRpc.BackoffTotal | src-tauri/src/aria2c.rs:654-658 | the first n waits add up to 500·(2^n − 1) ms |
| Aria2cRpc.WaitsBounded | src-tauri/src/aria2c.rs:654-658 | at most three waits and 3.5 s in all |
| Aria2cRpc.Member | src-tauri/src/aria2c.rs:332-343 | absent and null members both read as none |
| Aria2cRpc.DecodeEnvelope | src-tauri/src/aria2c.rs:332-333 | a reply with "jsonrpc" and a u64 "id" decodes to its result and error |
| Aria2cRpc.AddDownloadReply | src-tauri/src/aria2c.rs:329-344 | a failed send passes its error on; an unparsable reply is a parse failure; success exactly when the reply is well-formed with a string `result`, which is the GID returned |
| Aria2cRpc.AddDownload | src-tauri/src/aria2c.rs:292-345 | sends addUri and returns `AddDownloadReply` of the reply, normalised by the corrected normalisation |
| Aria2cRpc.AddDownloadOfTableGid | src-tauri/src/aria2c.rs:594-622 | the GID read from a table reply is what `add_download` returns |
| Aria2cRpc.AddDownloadOfError | src-tauri/src/aria2c.rs:337-340 | a reply with an error and no result is a failure that carries it |
| Aria2cRpc.FieldOr | src-tauri/src/aria2c.rs:722-744 | a string member that parses as u64, else the default |
| Aria2cRpc.StatusOf | src-tauri/src/aria2c.rs:718-768 | no object result gives none |
| Aria2cRpc.StatusReply | src-tauri/src/aria2c.rs:692-769 | the status of an object result, else none; failures propagate |
| Aria2cRpc.GetDownloadStatus | src-tauri/src/aria2c.rs:692-769 | sends tellStatus and returns `StatusReply` of the reply, normalised by the corrected normalisation |
| Aria2cRpc.StatusRoundTrip | src-tauri/src/aria2c.rs:722-744 | every field within u64 is read back as reported |
| Aria2cRpc.StatusDefaults | src-tauri/src/aria2c.rs:722-744 | missing fields read as 0 connections, 0 done, 0 speed and a total of 1 |
| Aria2cRpc.NumericFieldIgnored | src-tauri/src/aria2c.rs:722-744 | a field given as a JSON number also takes the default |
| Aria2cDownload.NewPendingTasks | src-tauri/src/aria2c.rs:55 | the pending-task queue is empty with a cap of 5 |
| Aria2cDownload.AfterLast | src-tauri/src/aria2c.rs:1121-1123 | the text after the last separator has none |
| Aria2cDownload.LastPieceIsAfterLast | src-tauri/src/aria2c.rs:1121-1123 | `split(c).last()` is the text after the last c |
| Aria2cDownload.LastPieceOfJoin | src-tauri/src/aria2c.rs:1121-1123 | the last piece of a + [c] + b is b when b has no c |
| Aria2cDownload.Extension | src-tauri/src/aria2c.rs:1121-1143 | with `ext` the text after the last '.' of the text after the last '/' (found with `rfind`): kept exactly when `ext` takes at most 6 bytes, as "." + ext |
| Aria2cDownload.OutputName | src-tauri/src/aria2c.rs:1137-1142 | the UUID followed by "." + ext when ext takes at most 6 bytes, else the bare UUID |
| Aria2cDownload.ExtensionOfFile | src-tauri/src/aria2c.rs:1121-1143 | `…/stem.ext` with a short ext gives ".ext" |
| Aria2cDownload.ExtensionOfDotlessName | src-tauri/src/aria2c.rs:1121-1143 | a last segment without a dot is taken whole |
| Aria2cDownload.LongExtensionDropped | src-tauri/src/aria2c.rs:1121-1143 | an extension longer than 6 bytes leaves the bare UUID |
| Aria2cDownload.TrailingSlashGivesBareDot | src-tauri/src/aria2c.rs:1121-1143 | a URL ending in '/' gives the extension "." |
| Aria2cDownload.DurationReadsBack | src-tauri/src/aria2c.rs:1290-1309 | the number and unit read back are the duration rounded down to the largest unit that fits |
| Aria2cDownload.EtaSeconds | src-tauri/src/aria2c.rs:1366 | seconds left × speed never exceed the total |
| Aria2cDownload.EtaAgrees | src-tauri/src/aria2c.rs:1300-1313 | while done ≤ total, the ETA as written equals the saturating one |
| Aria2cDownload.EtaTextIsEtaField | src-tauri/src/aria2c.rs:1300-1313 | the ETA text is the event's `eta` field, formatted |
| Aria2cDownload.EtaUnderflows | src-tauri/src/aria2c.rs:1300-1302 | total 0, done 1, speed 1: as written the ETA is 2^64 − 1 s shown in hours; corrected it is "0s" |
| Aria2cDownload.Reactions | src-tauri/src/aria2c.rs:1578-1615 | one reaction per poll |
| Aria2cDownload.ReactionsAt | src-tauri/src/aria2c.rs:1578-1615 | a failure resets the manager on multiples of 3 and emits a notice on even counts |
| Aria2cDownload.GiveUpPoint | src-tauri/src/aria2c.rs:1617 | the first poll after which the counter reaches 8 |
| Aria2cDownload.StreakStep | src-tauri/src/aria2c.rs:1579 | a failure adds one, a read resets the counter (line 1263), a missing task leaves it |
| Aria2cDownload.WatchStatus | src-tauri/src/aria2c.rs:1242-1638 | corrected (the manager's guard released before it is locked again): reacts to every poll until the counter first reaches 8; then it stops, as complete if the file is non-empty, else failed with the last error; it never blocks |
| Aria2cDownload.EightFailuresEndIt | src-tauri/src/aria2c.rs:1578-1638 | corrected monitor: eight failures in a row from the start end the watch after the eighth; the manager is reset after the third and sixth |
| Aria2cDownload.StreakOfFailures | src-tauri/src/aria2c.rs:1579 | over a run of failures the counter counts them |
| Aria2cDownload.GivingUpTakesEightFailures | src-tauri/src/aria2c.rs:1617 | giving up takes at least eight failed polls in all |
| Aria2cDownload.StreakAtMostFailures | src-tauri/src/aria2c.rs:1579 | the counter never exceeds the number of failures |
| Aria2cDownload.RelockPoint | src-tauri/src/aria2c.rs:1483-1598 | the first poll that locks `ARIA2_RPC_MANAGER` again: a missing task (`get_rpc_manager`, line 1491) or a failure count divisible by 3 (line 1595) |
| Aria2cDownload.WatchStatusAsWritten | src-tauri/src/aria2c.rs:1188-1638 | as written the guard taken at line 1188 is held through the loop, so the thread blocks at the first poll that locks the manager again, having reacted to the polls before it; the check against 8 is never reached |
| Aria2cDownload.StreakBelowThreeUntilRelock | src-tauri/src/aria2c.rs:1578-1598 | as written, the counter stays below 3 until the manager is locked again |
| Aria2cDownload.BlocksBeforeGivingUp | src-tauri/src/aria2c.rs:1188-1638 | every run of polls on which the corrected monitor gives up blocks the as-written one at an earlier poll |
| Aria2cDownload.ThreeFailuresBlock | src-tauri/src/aria2c.rs:1578-1598 | three failures in a row from the start block the as-written monitor at the third, where the corrected one resets the manager |
| Helper.ArgsAfter | src-tauri/src/helper.rs:294-306 | the port stays within u16 |
| Helper.ParseServerArgs | src-tauri/src/helper.rs:294-306 | the argument loop computes `ArgsAfter`; the port is within u16 |
| Helper.DefaultArgs | src-tauri/src/helper.rs:294-295 | without flags the port is 0 and the token empty |
| Helper.LastTokenWins | src-tauri/src/helper.rs:302-304 | the last token flag wins, whatever its value |
| Helper.LastPortWins | src-tauri/src/helper.rs:298-302 | the last port in range wins |
| Helper.ArgsAfterPrefix | src-tauri/src/helper.rs:297-306 | the settings up to an argument depend only on what came before |
| Helper.UnparsablePortKept | src-tauri/src/helper.rs:298-302 | a port that does not parse as u16 keeps the previous one |
| Helper.CreateFileSymlink | src-tauri/src/helper.rs:99-145 | succeeds exactly when the target is a file, the directory is a directory, the link is absent and the link is made; the success message names the link |
| Helper.AfterCreate | src-tauri/src/helper.rs:130-144 | the link appears only when it was made |
| Helper.CreateTwiceRefused | src-tauri/src/helper.rs:125-128 | after a link is made, the same request is refused as "链接路径已存在" |
| Helper.TokenCheck | src-tauri/src/helper.rs:175-222 | lets a message through exactly when no token is set or its string "token" equals the server's |
| Helper.Dispatch | src-tauri/src/helper.rs:225-271 | a complete "create" with string target, path and name is accepted; anything else gets one of the four refusals |
| Helper.TokenGuardsCommands | src-tauri/src/helper.rs:175-222 | with a token set, a non-JSON message, a missing token or a wrong token is refused and nothing changes |
| Helper.UnparsableLine | src-tauri/src/helper.rs:210-276 | a non-JSON line gets "消息格式错误…" with a token set, else "解析消息失败: " and the error |
| Helper.Respond | src-tauri/src/helper.rs:173-285 | the answer to one line: a refused token is answered first with nothing done, and a request that does not succeed leaves the file system as it was |
| Helper.RespondSucceedsIff | src-tauri/src/helper.rs:175-276 | success exactly when the token passes, the create command is complete and the link is made; the file system changes only then; the message is the one `create_file_symlink` returns |
| Helper.NoTokenNoCheck | src-tauri/src/helper.rs:175 | without a server token the "token" member is not looked at |
| Helper.Serve | src-tauri/src/helper.rs:147-285 | no more responses than reads |
| Helper.HandleClient | src-tauri/src/helper.rs:147-285 | the connection loop computes `Serve`, one response per `read_line` result |
| Helper.OneResponsePerLine | src-tauri/src/helper.rs:147-285 | every `read_line` result before the end of the stream gets exactly one response |
| Helper.SameRequestTwice | src-tauri/src/helper.rs:125-128 | one complete request sent twice makes the link once; the second answer says it exists |

## Left out
- Paths.FileName and Paths.Parent split at the last separator. They agree with std's `Path::file_name` and `Path::parent` on every path the backend builds by joining plain names onto a directory (JoinThenSplit). They do not model std's component rules: a trailing separator or a trailing `.` is not skipped (`a\b\`, `a\.`), a single component has no parent rather than the empty one, a root has the empty parent rather than none, and the parent of `D:\bin` is `D:` rather than `D:\`. For that last reason DirManager.DataDirLayout keeps its requirement that the data directory does not end in a separator.

- Concurrency is not modelled:
  - the `Mutex` and lazy-static globals;
  - the atomics;
  - the async loops `process_queue` and `QueueManager::start_processing`;
  - the monitor threads.
  Each queue operation is one atomic step, and lock errors are not modelled.
- Process spawning and IPC are not modelled: aria2c, PowerShell, tasklist/taskkill, 7za/7zG and helper.exe, and the TCP server. Their outcomes are parameters.
- Floating-point values are not modelled: progress percentages, MiB/KiB speed strings and `total_size_mb`.
- The `DefaultHasher` (SipHash) digest, UUIDs and the Windows registry are parameters.
- serde_json text parsing and serialisation are inputs: the parsed value or the parser's message. The serialised `SymlinkResponse` text is left out.
- `String::from_utf8_lossy` is not modelled. Reply text is a string from the start.
- `to_lowercase` is modelled for ASCII only.
- Aria2cDownload.WatchStatus: models the corrected monitor, which releases the manager's guard before locking it again; as written the thread blocks instead (see Findings), which `WatchStatusAsWritten` models. It models only the failure counter of the monitor loop. A `StatusRead` poll stands for the status branch's continue path, and `NoStatus` for the task-not-found branch's continue path. The other exits of those branches are not modelled: completion, the file-size checks, an empty file, an inaccessible file, and a failed manager lookup. The file length is read once, at the point where the watch gives up.
- DirManager.CandidateSpec, DirManager.TryLibrary, DirManager.FindAddonsDir and DirManager.GetL4d2AddonsDir read each manifest with the corrected parser, which takes field 3; as written the fallback takes field 2 (see Findings).
- Aria2cRpc.RunOnce, Aria2cRpc.SendRpcRequest, Aria2cRpc.AddDownload and Aria2cRpc.GetDownloadStatus use the corrected normalisation; as written the two slices panic on the replies listed under Findings.
- Helper.HandleClient: each pass of the loop builds a new `BufReader`, so bytes it read past the first newline are dropped. The model takes one `read_line` result per pass; a second line that arrived in the same read gets no response.
- The waits for the `.7z.aria2` marker to disappear before extraction are not modelled (download_manager.rs:537-576 and extract_manager.rs:110-251). They poll every 500 ms with a 180 s time-out, and the one in `extract_manager.rs` locks `ARIA2_RPC_MANAGER` (line 164). They depend on the clock and on other threads.
- Commands.GetMaps: the warning dialog shown when no data directory is configured is not modelled.
- Aria2cDownload.BelowComplete: stands for `progress < 100.0` over the integers the percentage comes from. It does not capture float rounding near 100 %.
- Aria2cDownload.EtaTextAsWritten: models `u64` subtraction as wrap-around, as in a release build. A debug build panics instead.
- Commands.CentredCoord: models release-build wrapping. A debug build panics on overflow.
- Aria2cRpc.AddDownloadReply: these are parameters:
  - the JSON parser;
  - serde's shape-error message;
  - the `{:?}` rendering of the error value.
- Aria2cRpc.SendRpcRequest: the sleeps are reported as a list of waits, not taken.
- Helper.CreateFileSymlink:
  - paths are compared as text;
  - `Join` covers a relative link name only, so an absolute name, which `Path::join` would substitute for the directory, is not modelled;
  - the operating system's answer to the link request is a parameter.
- Helper.Respond: the request is given as the parsed line, so the trimming of the line before parsing is not modelled.
- Commands.CommandQueue.CancelDownload: `aria2c::CANCEL_DOWNLOAD_REQUESTS` is modelled as the field `cancelRequests`, a map from task ID to cancel reason, because its declaration is not in the source. The failure of its `lock()` (commands.rs:789), which only logs, is not modelled: the reason is always recorded.
- DirManager.CandidateSpec, DirManager.Candidates, DirManager.TryLibrary, DirManager.FindAddonsDir and DirManager.GetL4d2AddonsDir: `Join` always appends, so an absolute `installdir` value, which `PathBuf::join` would put in place of the library path, is not modelled.
- These are not modelled because their definitions are missing or do not match the rest of the source:
  - `add_download_sync`, `find_task` and `load_download_queue`;
  - the `start_processing` call with a different arity in `extract_manager.rs`.
- These are left out as user-interface or lifecycle code:
  - the window show and focus calls;
  - dialogs and events;
  - the files `dialog_manager.rs`, `init.rs`, `config_manager.rs`, `log_utils.rs`, `lib.rs` and `main.rs`.

## Findings

| source | as written | input that shows it | evidently intended | confidence | as-written member | corrected member |
|---|---|---|---|---|---|---|
| src-tauri/src/aria2c.rs:1300-1302 | `total_length - completed_length` on `u64` | aria2 reports total 0 (size unknown), completed 1, speed 1 | the saturating subtraction line 1366 uses, giving "0s" | not executed | Aria2cDownload.EtaUnderflows | Aria2cDownload.EtaSeconds |
| src-tauri/src/aria2c.rs:584-590 | `&response_text[json_start..=json_end]` without checking the order | a reply "} {" (last '}' before first '{') panics | pass the step over when the last '}' precedes the first '{' | not executed | Aria2cRpc.BraceSlicePanics | Aria2cRpc.NormaliseDecoded |
| src-tauri/src/aria2c.rs:519-528 | `&trimmed_response[start..=end]`, then `[2..len - 1]` | a tellStatus reply "} @{" panics | pass the object step over when the last '}' precedes "@{" | not executed | Aria2cRpc.PsSlicePanics | Aria2cRpc.NormaliseDecoded |
| src-tauri/src/dir_manager.rs:253-257 | the fallback reads `parts[2]`, the gap between key and value | the manifest line `"INSTALLDIR" "L4D2"` gives an error | read `parts[3]`, the value | not executed | DirManager.AsWrittenMissesCapitalisedKey | DirManager.ParseAppmanifest |
| src-tauri/src/commands.rs:605-618 | `downloads_dir().parent().join("maps")` | data directory `D:\nmd` gives `D:\nmd\bin\maps` | `<data>\maps`, the directory `get_maps` lists | not executed | Commands.InstallExtractsOutsideMaps | Commands.InstallExtractDir |
| src-tauri/src/aria2c.rs:1188-1598 | the guard taken at line 1188 is held through the poll loop, which locks the same `std::sync::Mutex` again through `get_rpc_manager` (line 1491) and at line 1595 | three failed tellStatus queries in a row, or one reply saying the task is missing, block the monitor thread | release the guard before locking again, so the reset every third failure and the give-up at 8 take place | not executed | Aria2cDownload.ThreeFailuresBlock | Aria2cDownload.WatchStatus |
