# youtube-converter, modelled in Dafny

youtube-converter is a web application that turns YouTube videos and local
media files into audio. Its Express server (`server/index.js`) runs the
yt-dlp downloader on a video URL and streams the audio back, tracking each
download's progress in memory. Its React client (`src/App.jsx`) keeps a list
of files, converts them in the browser with ffmpeg.wasm, and saves the
results as one zip archive.

This project models the logic inside that plumbing and proves what it
promises. The downloader, the file system, the clock, ffmpeg, `fetch` and
the CDN become parameters: exit statuses, output chunks, "found" predicates,
millisecond readings, and conversion and fetch functions.

Modules, one file each:

- `wrappers.dfy` — `Option` and `Result`.
- `maps.dfy` (`Maps`) — what repeated writes and removals do to a map, as
  used by the progress store, the temporary files and the virtual files.
- `js.dfy` (`Js`) — the JavaScript built-ins the code relies on: `trim`,
  `toLowerCase`, `includes`, `split`/`join`, `pop`, `lastIndexOf`,
  `substring`, `slice(-n)`, `filter` and the decimal text of a number. Each
  comes with the facts the rest of the model needs, such as
  `split` after `join` giving back the parts.
- `server_progress.dfy` (`ServerProgress`) — progress tracking:
  - the `(\d+\.\d+)%` percentage, read as an exact decimal (no floating
    point) and clamped to [0, 100];
  - the `progressStore` map as a class, whose every entry stays in range.
- `server_diagnostics.dfy` (`ServerDiagnostics`) — how a failed run's
  stderr is condensed into `details` and `fullError`, and how the download's
  user-facing error message is chosen.
- `server_files.dfy` (`ServerFiles`) — the temporary directory as a class:
  the hourly sweep and the delete after streaming. Also the search for the
  yt-dlp executable, and the video id, output name and task id a download
  derives.
- `server_handlers.dfy` (`ServerHandlers`) — the three endpoints:
  - parameter checks and the progress lookup;
  - the info reply;
  - the start of a download, the collection of its output chunks, and its
    end: error reply, or stream headers and clean-up.
- `client_items.dfy` (`ClientItems`) — the client's file list:
  - `updateFileStatus` and `onDrop`;
  - the YouTube host check;
  - `handleUrlSubmit`, with its safe title and task id.
- `client_transcode.dfy` (`ClientTranscode`) — one conversion:
  - the virtual file names and the ffmpeg command line;
  - the ffmpeg instance's in-memory file system as a class;
  - `processAudio`;
  - the name an entry gets in the archive.
- `client_batch.dfy` (`ClientBatch`) — `handleProcessAndDownload`. The loop
  is proved against fold functions over the idle entries. Lemmas then prove
  three things, given that ids are distinct:
  - every idle entry ends done or as an error, and no other entry changes;
  - `successCount` is the number of entries newly done;
  - an archive is produced exactly when something succeeded.
- `client_engine.dfy` (`ClientEngine`) — `loadFFmpeg`:
  - each attempt tries the esm build and then the umd build, for each of
    the two assets;
  - at most three attempts are made;
  - the engine loads iff one of them succeeds.

Behaviours the proofs make explicit:

- A file name without a dot is archived under the base name `audio`
  (`ArchiveBaseNameExamples`). Its virtual input file still takes the whole
  name as its extension, because `split('.').pop()` and `lastIndexOf('.')`
  disagree on such names.
- Two successful entries whose base names agree share one archive entry,
  and the later one replaces the earlier (`ArchiveNamesCollide`). So the
  archive can hold fewer entries than `successCount`.
- When both builds of an asset fail, the message reports the error of the
  first (esm) fetch, not of the fallback (`FetchWithFallback`).

## Model

| member | source | states |
|---|---|---|
| Js.TrimStart | server/index.js:128 | the leading part `trim` removes is all whitespace, and what remains starts with a non-whitespace character |
| Js.TrimEnd | server/index.js:128 | the trailing part `trim` removes is all whitespace, and what remains ends with a non-whitespace character |
| Js.TrimEmptyIffBlank | server/index.js:128 | `line.trim()` is empty iff the line is made only of whitespace |
| Js.LowerChar | server/index.js:129 | upper-case ASCII letters map to lower case; every other character is unchanged |
| Js.ToLower | src/App.jsx:226 | `toLowerCase` keeps the length and lowers each character |
| Js.IncludesIffOccurs | server/index.js:129-137 | `includes` holds iff the pattern occurs at some position |
| Js.Split | server/index.js:127 | `split` gives at least one part, no part contains the separator, and joining the parts gives the text back |
| Js.SplitJoin | server/index.js:140 | splitting a join of separator-free parts gives back the parts |
| Js.SplitNoSeparator | server/index.js:127 | text without the separator splits into itself alone |
| Js.AfterLastIsSuffix | server/index.js:191 | `split(sep).pop()` contains no separator; it is the whole text when there is none, and otherwise the suffix after some separator |
| Js.SplitAtSeparator | server/index.js:191 | a text that holds the separator splits into at least two pieces |
| Js.AfterLastDropsFirst | server/index.js:191 | when a separator follows the first character, dropping that character leaves `split(sep).pop()` unchanged |
| Js.AfterLastOfJoined | server/index.js:194 | `pop` after `split` on `x + sep + y`, where `y` has no separator, is `y` |
| Js.Prefix | server/index.js:141 | `substring(0, n)` is the prefix of length `min(n, length)` |
| Js.LastIndexOf | src/App.jsx:466 | `lastIndexOf` is -1 or a position of the character, and no later position holds it |
| Js.SubstringTo | src/App.jsx:466 | `substring(0, end)` with a negative end is empty; otherwise it is the prefix of length `min(end, length)` |
| Js.LastIndexOfMatchesSplit | src/App.jsx:367 | when the character occurs, the text after `lastIndexOf` equals `split(c).pop()` |
| Js.SliceFromEnd | server/index.js:141 | `slice(-n)` is the last `n` elements; with `n` of zero or at least the length it is the whole list |
| Js.Filter | server/index.js:127-138 | `filter` keeps exactly the elements satisfying the predicate, and nothing else |
| Js.Positions | server/index.js:133 | the positions a filter keeps are increasing, and each holds an element satisfying the predicate |
| Js.FilterKeepsOrder | server/index.js:133 | `filter` keeps the original order: its i-th element is at the i-th kept position |
| Js.NatToString | server/index.js:192 | `toString()` of a number is non-empty decimal digits, with no leading zero, denoting that number |
| ServerProgress.Exceeds100Exact | server/index.js:257 | comparing the two digit groups with 100 decides `value > 100` exactly |
| ServerProgress.Clamp | server/index.js:257 | `min(100, max(0, v))` lies in [0, 100]; it equals `v` iff `v` is at most 100, and is 100 otherwise |
| ServerProgress.DigitRunEnd | server/index.js:252 | `\d+` is greedy: the run ends at the first non-digit |
| ServerProgress.MatchIsForced | server/index.js:252 | a match of `\d+\.\d+%` starting at a given position is unique |
| ServerProgress.MatchAt | server/index.js:252 | the pattern match at a position, or the proof that none starts there |
| ServerProgress.FirstMatchFrom | server/index.js:252 | the leftmost match from a position; none starts before it; "none" means no position matches |
| ServerProgress.MatchedValue | server/index.js:254 | `parseFloat` of the captured group is a well-formed decimal |
| ServerProgress.ProgressIn | server/index.js:252-254 | a chunk's percentage, when present, is a well-formed decimal |
| ServerProgress.ProgressInIsLeftmostMatch | server/index.js:252-253 | no percentage iff the pattern matches nowhere; otherwise it is the value of the leftmost match |
| ServerProgress.FixedEntriesOk | server/index.js:197 | the entries written at start and on success, `{0, downloading}` and `{100, completed}`, are in range and not idle |
| ServerProgress.ProgressStore.constructor | server/index.js:26 | the store starts empty |
| ServerProgress.ProgressStore.Get | server/index.js:177 | a known id gives its stored entry; an unknown one gives `{0, idle}`; either way the progress is in [0, 100] |
| ServerProgress.ProgressStore.Start | server/index.js:197 | the id's entry becomes `{0, downloading}`, replacing any earlier one, and nothing else changes |
| ServerProgress.ProgressStore.Record | server/index.js:253-259 | no report changes nothing; a reported percentage becomes the id's entry, clamped and still downloading, and nothing else changes |
| ServerProgress.ProgressStore.OnOutput | server/index.js:252-260 | a chunk without a percentage changes nothing; otherwise the id's entry becomes the clamped value, still downloading |
| ServerProgress.ProgressStore.OnClose | server/index.js:290-300 | exit code 0 makes the entry `{100, completed}`; any other exit removes it |
| ServerProgress.ProgressStore.Expire | server/index.js:295-297 | the delayed removal after success deletes the entry |
| ServerProgress.Seen | server/index.js:252-260 | the entry after some chunks is always still downloading; it holds the last reported percentage, clamped, else 0 |
| ServerProgress.SeenInRange | server/index.js:252-260 | whatever the chunks, the entry's progress is well formed and in [0, 100] |
| ServerProgress.SeenStep | server/index.js:252-260 | after a chunk with a percentage the entry holds it clamped; after a chunk without one the entry is unchanged (0 before any) |
| ServerProgress.PollsAt | server/index.js:177 | the poll after chunk `k` shows the entry after the first `k + 1` chunks |
| ServerProgress.ProgressStore.Feed | server/index.js:252-260 | recording the chunks' reports one by one leaves the id's entry at `Seen` of all of them, touches no other id, and the polls in between are `Polls` |
| ServerProgress.DownloadTimeline | server/index.js:197-300 | a whole download as a client polls it: the poll after each chunk is the `Seen` entry for the chunks so far; then completed (exit 0) or idle at close, and idle after the grace period |
| ServerProgress.PollsShowProgress | server/index.js:252-260 | every poll while running is downloading and in range; a chunk's percentage shows up at once, clamped; chunks without one change nothing |
| ServerDiagnostics.Details | server/index.js:145 | `details` is never empty: it is the summary, or `Unknown error` when the summary is empty |
| ServerDiagnostics.FullError | server/index.js:146 | `fullError` is a prefix of stderr of at most 1000 characters: all of it when short, exactly 1000 otherwise |
| ServerDiagnostics.CriticalAreReported | server/index.js:127-138 | every critical line is non-blank, is not a warning, mentions a failure marker and holds no newline |
| ServerDiagnostics.SummaryOfCriticalLines | server/index.js:133-140 | when some remaining line mentions error, failed, forbidden or 403, the summary is exactly those lines, in order |
| ServerDiagnostics.SummaryOfLastLines | server/index.js:139-141 | otherwise, when lines remain, the summary is the last `n` of them, none of them critical |
| ServerDiagnostics.SummaryOfRawLog | server/index.js:141 | when no line remains, the summary is the first 500 characters of stderr |
| ServerDiagnostics.SummaryIsClean | server/index.js:127-131 | a summary built from lines has no blank line, and no line mentioning warning or deprecated feature in any case |
| ServerDiagnostics.DetailsOfFailedRun | server/index.js:307-333 | the download's `details` in all four cases: critical lines, the last five lines, the raw prefix, and `Unknown error` for an empty log |
| ServerDiagnostics.DownloadErrorMessage | server/index.js:324-329 | the access-denied text iff stderr contains `403` or `Forbidden`; else the Python text iff it contains `Python version`; else `Failed to download video` |
| ServerFiles.TempDir.constructor | server/index.js:19-23 | a missing directory is created empty; an existing one keeps the files an earlier run left in it |
| ServerFiles.TempDir.CleanupOldFiles | server/index.js:29-41 | the sweep leaves exactly the files not older than an hour, with their stats unchanged, and deletes exactly the others |
| ServerFiles.TempDir.DeleteAfterStream | server/index.js:353-359 | the streamed file is gone afterwards, whether or not it still existed, and nothing else changes |
| ServerFiles.SweepPartitions | server/index.js:34-40 | kept and deleted files are disjoint and together make up the directory |
| ServerFiles.SweepIdempotent | server/index.js:29-41 | a second sweep at the same time deletes nothing |
| ServerFiles.SweepMonotone | server/index.js:37 | a later sweep deletes everything an earlier one would |
| ServerFiles.SweepBoundary | server/index.js:32-37 | the age limit is strict: exactly one hour old survives, one millisecond more does not |
| ServerFiles.DownloaderCandidates | server/index.js:58-66 | a set, non-empty `YTDLP_PATH` comes first; an unset one is dropped; the fixed paths follow; no candidate is empty |
| ServerFiles.DefaultPathsAgree | server/index.js:68 | the info endpoint's starting path, the first candidate or else `yt-dlp`, is the same starting path as the download endpoint's `ytdlpPaths[0]` (line 211) |
| ServerFiles.ResolveDownloader | server/index.js:69-83 | the first candidate that `which` or the file system finds is used; if none is found, the default stays (also lines 212-226) |
| ServerFiles.VideoId | server/index.js:190-192 | the `v` parameter if non-empty; else the last path segment (no `/`) if non-empty; else the time in decimal |
| ServerFiles.DownloadTaskId | server/index.js:194 | the client's task id if non-empty, else `download_<videoId>_<time>` |
| ServerFiles.GeneratedTaskIdTime | server/index.js:194 | the text after the last `_` of a generated id is the decimal time it was made at |
| ServerFiles.GeneratedTaskIdInjective | server/index.js:194 | equal generated ids come from the same video id and time |
| ServerHandlers.RequireUrl | server/index.js:51-53 | a missing or empty `url` is refused with 400 before anything else; otherwise the URL is used as given |
| ServerHandlers.HandleProgress | server/index.js:172-179 | a missing `taskId` gives 400; otherwise the stored entry or `{0, idle}`, in range either way |
| ServerHandlers.SpawnFailureReply | server/index.js:112-121 | a missing executable gives the install hint with the path tried; any other spawn error gives its message |
| ServerHandlers.InfoCloseReply | server/index.js:123-163 | success iff exit 0 and the metadata parses; a non-zero exit gives details from the last three lines and `fullError`; bad JSON gives the parse error |
| ServerHandlers.InfoFailureExplained | server/index.js:124-147 | every failed info run has non-empty details, a `fullError` of at most 1000 characters, and the critical lines when there are any |
| ServerHandlers.StartDownload | server/index.js:182-227 | 400 without a URL; 500 when the URL does not parse; otherwise format and bitrate default to mp3/128k, the output name and task id are derived, the downloader is the first candidate that `which` or `existsSync` finds and otherwise `ytdlpPaths[0]`, and the task starts at 0 |
| ServerHandlers.LatestSomeIsLatest | server/index.js:256-259 | the latest present value is present, and nothing after it is; "none" means none is present |
| ServerHandlers.ChunkProgress | server/index.js:252 | one parsed percentage per output chunk, in order |
| ServerHandlers.CollectInfoOutput | server/index.js:98-110 | stdout and stderr are accumulated, each in arrival order |
| ServerHandlers.TasksAfterTwice | server/index.js:253-259 | recording two reports for one task keeps the later percentage when there is one, else the earlier |
| ServerHandlers.LatestMatchesSeen | server/index.js:253-259 | for a task just started, recording the latest of the first n reports gives exactly the entry polling shows after n reports, other tasks unchanged |
| ServerHandlers.DownloadProgressIsSeen | server/index.js:248-276 | after a download's output events, the store entry from the handlers equals the entry after the last chunk that polling shows |
| ServerHandlers.OnEvent | server/index.js:248-276 | a stderr chunk is appended to the log, a stdout chunk is not; a chunk on either stream with a percentage records it clamped, otherwise the store is unchanged |
| ServerHandlers.CollectDownloadOutput | server/index.js:246-277 | stderr is accumulated; the task holds the clamped value of the latest chunk with a percentage, from either stream, or is untouched |
| ServerHandlers.FinishDownload | server/index.js:290-347 | on close the store is updated as the exit requires; a failure replies with the chosen message, details and `fullError`; a missing file gives 500; otherwise `audio/<format>`, the file size and the attachment name |
| ServerHandlers.DownloadAndCleanUp | server/index.js:290-359 | a successful download shows completed, streams the file, then the file and the task entry are both gone |
| ClientItems.Updated | src/App.jsx:359 | `{...f, status, ...extra}` sets the status and merges the result fields, keeping everything else |
| ClientItems.UpdateFileStatus | src/App.jsx:357-361 | only entries with the given id change; length, order and every other entry stay |
| ClientItems.UpdateKeepsIdentity | src/App.jsx:359 | no entry's id or file ever changes |
| ClientItems.UpdateOverrides | src/App.jsx:371 | marking an entry processing and then done or error is the same as the final update alone |
| ClientItems.OnDrop | src/App.jsx:195-210 | before the engine loads, the list is unchanged and the alert shows; afterwards one idle, empty entry per file is appended after the existing entries, and the count is reported |
| ClientItems.SafeTitle | src/App.jsx:327 | at most 50 characters; every character not ASCII alphanumeric becomes `_` |
| ClientItems.SafeTitleHasNoSeparators | src/App.jsx:327-328 | a safe title contains no `.`, `/` or space |
| ClientItems.UrlItem | src/App.jsx:328-342 | the downloaded entry is idle, named `<safeTitle>.<format>`, typed `audio/<format>`, sized by the download, and remembers its URL and title |
| ClientItems.UrlItemExtension | src/App.jsx:328 | the downloaded entry's extension is the chosen format |
| ClientItems.IsValidVideoUrl | src/App.jsx:223-243 | true iff the URL parses and its lower-cased host is one of the five YouTube hosts |
| ClientItems.ValidUrlIgnoresCase | src/App.jsx:226 | the check ignores the case of the host |
| ClientItems.LookAlikeHostsRefused | src/App.jsx:229-237 | the patterns are anchored: subdomains, suffixes and prefixes of the hosts are refused, and so is an unparsable URL |
| ClientItems.ClientTaskId | src/App.jsx:279 | the client's task id has the server's generated form `download_<id>_<time>` |
| ClientItems.ServerKeepsClientTaskId | src/App.jsx:279 | the server tracks the download under the id the client polls, never under one of its own |
| ClientItems.UrlSubmit | src/App.jsx:246-354 | a blank URL or a non-YouTube URL stops at once; an entry is appended iff both requests succeed; polling starts iff the info request succeeds; each failure shows its message; the URL field is cleared exactly when the entry was added |
| ClientItems.BlankUrlRefused | src/App.jsx:247-250 | a URL of whitespace only changes nothing and asks for a URL |
| ClientTranscode.FileNamesDiffer | src/App.jsx:367-369 | the input and output virtual files never share a name |
| ClientTranscode.BuildCommands | src/App.jsx:385-392 | the command list is `-i <input>`, then `-b:a <bitrate>` unless the format is wav, then the output |
| ClientTranscode.TranscodeArgsShape | src/App.jsx:385-392 | input first, output last, and the bitrate option present exactly when the format is not wav |
| ClientTranscode.FFmpeg.constructor | src/App.jsx:64 | a fresh ffmpeg instance has no virtual files |
| ClientTranscode.FFmpeg.WriteFile | src/App.jsx:380 | writing creates or replaces exactly that file |
| ClientTranscode.FFmpeg.ReadFile | src/App.jsx:412 | reading gives the file's bytes |
| ClientTranscode.FFmpeg.DeleteFile | src/App.jsx:415-416 | deleting removes exactly that file |
| ClientTranscode.FFmpeg.Exec | src/App.jsx:407 | a run succeeds iff its input exists and the conversion does; success writes the output file, failure changes nothing |
| ClientTranscode.Transcoded | src/App.jsx:419 | a successful conversion gives a blob of type `audio/<format>` |
| ClientTranscode.ProcessAudio | src/App.jsx:364-438 | the result is the conversion's; success marks the entry done with the blob and removes both virtual files; failure marks it as an error and leaves the input file behind |
| ClientTranscode.ArchiveBaseName | src/App.jsx:466 | the base name is never empty |
| ClientTranscode.ArchiveBaseNameOfDotted | src/App.jsx:466 | when the last dot is not the first character, the base is the text before it, and the name is that base, a dot and its extension |
| ClientTranscode.ArchiveBaseNameOfUndotted | src/App.jsx:466 | a name without a dot gives `audio` |
| ClientTranscode.ArchiveBaseNameExamples | src/App.jsx:466 | `song` and `.mp3` give `audio`; `a.b.wav` gives `a.b` |
| ClientTranscode.ArchiveNameOfDownloadedVideo | src/App.jsx:466-467 | a downloaded video is archived as `converted_audio/<safeTitle>_(<bitrate>).<format>` |
| ClientBatch.FoldStepConverted | src/App.jsx:460-468 | one more entry that converts: it is marked done with its result, counted once, archived under its entry name, and both its virtual files are removed |
| ClientBatch.FoldStepFailed | src/App.jsx:460-468 | one more entry that fails: it is marked failed, the count and the archive are unchanged, and its input file stays in the virtual file system |
| ClientBatch.ProcessAndDownload | src/App.jsx:441-488 | nothing happens with an empty list or an unloaded engine; with no idle entry it only reports; otherwise the idle entries are converted in order, failures do not stop the rest, and the archive is saved iff the success count is positive |
| ClientBatch.ConvertAll | src/App.jsx:460-478 | the loop leaves the list, the success count, the archive folder and the virtual files exactly as the per-entry folds over the idle entries, in order, say |
| ClientBatch.Settled | src/App.jsx:421-435 | a converted entry keeps its id and file and is no longer idle; an entry that was not idle stays as it was |
| ClientBatch.AfterOneSettles | src/App.jsx:463 | converting one more distinct idle entry settles exactly that entry as well |
| ClientBatch.AfterAllSettlesTargets | src/App.jsx:460-463 | converting distinct idle entries settles exactly those entries and leaves all others alone |
| ClientBatch.IdleTargetsDistinct | src/App.jsx:445 | the idle entries selected keep the list's distinct ids |
| ClientBatch.BatchSettlesEveryEntry | src/App.jsx:445-478 | after the batch, each entry is its settled form and none is idle |
| ClientBatch.SuccessesAppend | src/App.jsx:468 | successes over two runs of entries add up |
| ClientBatch.SuccessesOfIdle | src/App.jsx:445 | the successes among the selected targets are the idle entries that convert |
| ClientBatch.SettlingCountsDone | src/App.jsx:421 | settling adds one done entry per idle entry that converts |
| ClientBatch.SuccessCountIsNewlyDone | src/App.jsx:456-468 | `successCount` is exactly the number of entries the batch brought to done |
| ClientBatch.ArchiveEmptyIffNoSuccess | src/App.jsx:466-480 | the archive is empty iff nothing succeeded, so one is saved iff `successCount > 0` |
| ClientBatch.ArchiveSizeBounded | src/App.jsx:466-468 | the archive has no more entries than successes |
| ClientBatch.ArchiveHoldsEverySuccess | src/App.jsx:466-467 | every successful entry's name is in the archive |
| ClientBatch.ArchiveNamesCollide | src/App.jsx:466-467 | two successes with the same entry name leave one archive entry, holding the later result |
| ClientBatch.ArchiveOfAppendOne | src/App.jsx:466-467 | one more entry adds one success and its result under its entry name when it converts, and nothing otherwise |
| ClientEngine.FetchWithFallback | src/App.jsx:100-113 | the esm asset if it loads, else the umd one; if both fail, the error names the esm failure |
| ClientEngine.AttemptOutcome | src/App.jsx:96-156 | an attempt loads iff both assets are fetched and initialisation succeeds; a failure's message is never empty and never the unknown-error text |
| ClientEngine.AttemptFailureNamesStep | src/App.jsx:112-150 | a failed attempt names the first step that failed: core, wasm, or initialisation |
| ClientEngine.TryLoad | src/App.jsx:96-156 | the step-by-step attempt with its `try`/`catch` branches ends as the attempt outcome says |
| ClientEngine.FinalMessageCarriesError | src/App.jsx:158-175 | since every attempt error has a message, the final message is the prefix plus the last attempt's message |
| ClientEngine.LoadFFmpeg | src/App.jsx:86-176 | at most `maxRetries + 1` attempts; loaded iff the last attempt made succeeded, all earlier ones having failed; one retry notice per retry, numbered `n/2`; the ready or failure message |
| ClientEngine.LoadOnMount | src/App.jsx:82-84 | the load started on mount succeeds iff one of three attempts does; otherwise it reports the third attempt's error |

## Left out

- HTTP plumbing is not modelled: Express routing, CORS, JSON encoding, response streaming (`createReadStream`/`pipe`), the health endpoint and `listen`. A reply is a value: a status, an error and details, or stream headers.
- ServerFiles.TempDir.CleanupOldFiles: takes the listing and the stats as one consistent snapshot, so the sweep always completes. On the server (server/index.js:30-38), `statSync` and `unlinkSync` run file by file after `readdirSync`, outside any `try`. A file that the running downloader deletes or renames in between makes `statSync` throw inside the interval callback, and the rest of that sweep is skipped. Other processes changing the directory during a sweep are not modelled.
- Child processes are parameters: `spawn`, `execSync('which …')` and `fs.existsSync`. The downloader's exit status, its output chunks and the two "found" probes are inputs. Its argument lists (server/index.js:88-94, 231-242) are constants handed to that foreign process and are not modelled.
- `JSON.parse` of yt-dlp's output is an input: the metadata, or none when it does not parse.
- Timers become explicit steps, and no real time is modelled:
  - the 10-minute sweep interval is `CleanupOldFiles`;
  - the 5 s task expiry is `Expire`;
  - the 1 s delayed delete is `DeleteAfterStream`;
  - the 2 s retry backoff between attempts is dropped.
- The client's 500 ms progress polling loop is not modelled. `UrlSubmit` states only that polling starts, and under which task id.
- The time-based conversion-progress estimate (src/App.jsx:374-409) is not modelled. It is floating-point arithmetic driven by a timer. So are `downloadProgress`, `currentProcessingFile` and the busy flags.
- A spawn error followed by a close event would make the server reply twice. Only the two replies themselves are modelled.
- `path.join` normalisation of the output path is not modelled: a video id containing `/` or `..` is kept as given. `path.basename` is taken to be the output name.
- Repeated query parameters are not modelled: Express turns them into arrays, and each parameter here is a single optional string.
- The client's transient status messages are not modelled. These are the progress texts while the engine loads or the batch runs, and the per-file error message the batch shows before its final message replaces it.
- The `予期せぬエラー` message, for a failing zip generation, is not modelled.
- JSZip compression and `saveAs` are not modelled. The archive is the map from entry name to blob.
- `crypto.randomUUID` is not modelled: ids are parameters. The batch lemmas take distinct ids as a precondition.
- `ffmpeg.exec` and `toBlobURL` are functions: a conversion gives bytes or nothing, and a fetch gives a URL or an error. An output file left over from an earlier run is not modelled.
- The ffmpeg log listener is not modelled. It only writes to the console.
- React rendering, `handleClear`, `AudioPreviewItem`, `server-frontend.js` and `vite.config.js` are not modelled. They are presentation, static serving and build configuration.
- JavaScript strings are sequences of UTF-16 code units; the model has one `char` per code unit and does not model surrogate pairs.
- Js.LowerChar: lowercases ASCII letters only, while JavaScript's `toLowerCase` also lowers other letters. No host in the whitelist and no marker word has non-ASCII letters.
- ServerProgress.ProgressIn: the percentage is the exact decimal `parseFloat` reads, not a binary floating-point number.
- ServerHandlers.DownloadAndCleanUp: covers only a request whose URL parses and whose downloader exits with 0. The other paths are stated by `StartDownload` and `FinishDownload`.
- ClientBatch.ProcessAndDownload: the batch lemmas state the per-entry outcome only for lists whose ids are distinct.
