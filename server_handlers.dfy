/**
 * The decisions the three API endpoints of the server take: which requests
 * are refused, what a progress query answers, what a download is set up
 * with, and what the client receives when the downloader finishes.
 */
module ServerHandlers {
  import opened Wrappers
  import opened Maps
  import opened Js
  import opened ServerProgress
  import opened ServerDiagnostics
  import opened ServerFiles

  /** A JSON error reply: its HTTP status, `error` and the optional `details` and `fullError`. */
  datatype ErrorReply = ErrorReply(status: nat, error: string, details: Option<string>, fullError: Option<string>)

  const UrlRequired := "URL parameter is required"
  const TaskIdRequired := "taskId parameter is required"
  const InternalError := "Internal server error"
  const InfoFailed := "Failed to get video info"
  const InfoUnparsable := "Failed to parse video info"
  const DownloaderMissing := "yt-dlp not found. Please install yt-dlp: pip install yt-dlp"
  const DownloaderFailed := "Failed to execute yt-dlp"
  const FileMissing := "Downloaded file not found"

  /** A query parameter is present when it is given and not the empty string. */
  predicate Present(param: Option<string>) {
    param.Some? && param.value != ""
  }

  /** The `url` check both the info and the download endpoint start with. */
  function RequireUrl(url: Option<string>): (r: Result<string, ErrorReply>)
    ensures r.Success? <==> Present(url)
    ensures r.Success? ==> r.value == url.value
    ensures r.Failure? ==> r.error.status == 400 && r.error.error == UrlRequired
  {
    if Present(url) then Success(url.value) else Failure(ErrorReply(400, UrlRequired, None, None))
  }

  // ---------------------------------------------------------------------------
  // GET /api/video/progress
  // ---------------------------------------------------------------------------

  /** The progress endpoint: a refusal without a task id, else the stored entry or the idle answer. */
  method HandleProgress(store: ProgressStore, taskId: Option<string>) returns (r: Result<Task, ErrorReply>)
    requires store.Valid()
    ensures r.Failure? <==> !Present(taskId)
    ensures r.Failure? ==> r.error == ErrorReply(400, TaskIdRequired, None, None)
    ensures r.Success? && taskId.value in store.tasks ==> r.value == store.tasks[taskId.value]
    ensures r.Success? && taskId.value !in store.tasks ==> r.value == IdleReply
    ensures r.Success? ==> WellFormed(r.value.progress) && !Exceeds100(r.value.progress)
  {
    if !Present(taskId) {
      return Failure(ErrorReply(400, TaskIdRequired, None, None));
    }
    var t := store.Get(taskId.value);
    return Success(t);
  }

  // ---------------------------------------------------------------------------
  // GET /api/video/info
  // ---------------------------------------------------------------------------

  /** The metadata fields read from the downloader's JSON output. */
  datatype VideoMetadata = VideoMetadata(id: string, title: string, duration: int, thumbnail: string, uploader: string)

  /** The successful info reply: the metadata and the URL that was asked about. */
  datatype InfoReply = InfoReply(metadata: VideoMetadata, url: string)

  /** How starting the downloader can fail: the executable is missing, or some other error with its message. */
  datatype SpawnFailure = NotFound | SpawnError(message: string)

  /** The reply when the downloader cannot be started; it names the path that was tried when it is missing. */
  function SpawnFailureReply(failure: SpawnFailure, path: string): (r: ErrorReply)
    ensures r.status == 500 && r.details.Some? && r.fullError.None?
    ensures failure.NotFound? ==> r.error == DownloaderMissing && r.details.value == "Path tried: " + path
    ensures failure.SpawnError? ==> r.error == DownloaderFailed && r.details.value == failure.message
  {
    match failure
    case NotFound => ErrorReply(500, DownloaderMissing, Some("Path tried: " + path), None)
    case SpawnError(message) => ErrorReply(500, DownloaderFailed, Some(message), None)
  }

  /**
   * The info reply once the downloader has exited: on failure a summary of
   * its stderr; on success the parsed metadata, or a refusal when stdout was
   * not valid JSON (`metadata` is `None`).
   */
  function InfoCloseReply(url: string, exit: ExitStatus, log: string, metadata: Option<VideoMetadata>)
    : (r: Result<InfoReply, ErrorReply>)
    ensures r.Success? <==> exit == Exited(0) && metadata.Some?
    ensures r.Success? ==> r.value == InfoReply(metadata.value, url)
    ensures exit != Exited(0) ==>
      r == Failure(ErrorReply(500, InfoFailed, Some(Details(log, InfoTailLines)), Some(FullError(log))))
    ensures exit == Exited(0) && metadata.None? ==> r == Failure(ErrorReply(500, InfoUnparsable, None, None))
  {
    if exit != Exited(0) then
      Failure(ErrorReply(500, InfoFailed, Some(Details(log, InfoTailLines)), Some(FullError(log))))
    else if metadata.None? then
      Failure(ErrorReply(500, InfoUnparsable, None, None))
    else
      Success(InfoReply(metadata.value, url))
  }

  /** A failed info run always explains itself: non-empty details and at most a thousand characters of raw log. */
  lemma InfoFailureExplained(url: string, code: int, log: string, metadata: Option<VideoMetadata>)
    requires code != 0
    ensures var r := InfoCloseReply(url, Exited(code), log, metadata);
      r.Failure? && r.error.details.Some? && r.error.details.value != ""
      && r.error.fullError.Some? && |r.error.fullError.value| <= FullErrorLimit
      && (|CriticalLines(log)| > 0 ==> Split(r.error.details.value, '\n') == CriticalLines(log))
  {
    DetailsOfFailedRun(log, InfoTailLines);
  }

  // ---------------------------------------------------------------------------
  // GET /api/video/download
  // ---------------------------------------------------------------------------

  /** The query of a download request; `format` and `bitrate` take defaults only when absent. */
  datatype DownloadQuery = DownloadQuery(url: Option<string>, format: Option<string>, bitrate: Option<string>, taskId: Option<string>)

  const DefaultFormat := "mp3"
  const DefaultBitrate := "128k"

  /** A destructuring default: applies when the parameter is absent, not when it is empty. */
  function OrDefault(param: Option<string>, default: string): string {
    if param.Some? then param.value else default
  }

  /** What a download runs with once its request has been accepted. */
  datatype DownloadJob = DownloadJob(taskId: string, outputName: string, format: string, bitrate: string, downloader: string)

  /**
   * The start of a download: the URL check, the names derived from the
   * URL, the progress entry at 0 and the downloader search. `url` is the
   * outcome of `new URL(...)`, with the exception message on failure;
   * `idClockMs` and `taskClockMs` are the two readings of the clock.
   */
  method StartDownload(
    store: ProgressStore, query: DownloadQuery, url: Result<ParsedUrl, string>,
    configured: Option<string>, onPath: string -> bool, onDisk: string -> bool,
    idClockMs: nat, taskClockMs: nat)
    returns (r: Result<DownloadJob, ErrorReply>)
    requires store.Valid()
    modifies store
    ensures store.Valid()
    ensures !Present(query.url) ==>
      r == Failure(ErrorReply(400, UrlRequired, None, None)) && store.tasks == old(store.tasks)
    ensures Present(query.url) && url.Failure? ==>
      r == Failure(ErrorReply(500, InternalError, Some(url.error), None)) && store.tasks == old(store.tasks)
    ensures Present(query.url) && url.Success? ==> r.Success?
    ensures r.Success? ==> url.Success?
    ensures r.Success? && url.Success? ==>
      && r.value.format == OrDefault(query.format, DefaultFormat)
      && r.value.bitrate == OrDefault(query.bitrate, DefaultBitrate)
      && r.value.outputName == OutputName(VideoId(url.value, idClockMs), r.value.format)
      && r.value.taskId == DownloadTaskId(query.taskId, VideoId(url.value, idClockMs), taskClockMs)
      && r.value.downloader in DownloaderCandidates(configured)
      && store.tasks == old(store.tasks)[r.value.taskId := Task(Zero, Downloading)]
    ensures r.Success? ==>
      var candidates := DownloaderCandidates(configured);
      && ((exists k :: 0 <= k < |candidates| && (onPath(candidates[k]) || onDisk(candidates[k]))) ==>
          exists k :: 0 <= k < |candidates| && r.value.downloader == candidates[k]
            && (onPath(candidates[k]) || onDisk(candidates[k]))
            && forall j :: 0 <= j < k ==> !(onPath(candidates[j]) || onDisk(candidates[j])))
      && ((forall k :: 0 <= k < |candidates| ==> !(onPath(candidates[k]) || onDisk(candidates[k]))) ==>
          r.value.downloader == candidates[0])
  {
    var checked := RequireUrl(query.url);
    if checked.Failure? {
      return Failure(checked.error);
    }
    if url.Failure? {
      return Failure(ErrorReply(500, InternalError, Some(url.error), None));
    }
    var format := OrDefault(query.format, DefaultFormat);
    var bitrate := OrDefault(query.bitrate, DefaultBitrate);
    var videoId := VideoId(url.value, idClockMs);
    var taskId := DownloadTaskId(query.taskId, videoId, taskClockMs);
    store.Start(taskId);
    var candidates := DownloaderCandidates(configured);
    var downloader := ResolveDownloader(candidates, candidates[0], onPath, onDisk);
    return Success(DownloadJob(taskId, OutputName(videoId, format), format, bitrate, downloader));
  }

  /** One piece of output from the downloader, on its standard output or its standard error. */
  datatype OutputEvent = Stdout(chunk: string) | Stderr(chunk: string)

  /** Everything the downloader wrote to standard output, in order. */
  function StdoutText(events: seq<OutputEvent>): string {
    if events == [] then ""
    else
      var last := events[|events| - 1];
      StdoutText(events[..|events| - 1]) + (if last.Stdout? then last.chunk else "")
  }

  /** Everything the downloader wrote to standard error, in order. */
  function StderrText(events: seq<OutputEvent>): string {
    if events == [] then ""
    else
      var last := events[|events| - 1];
      StderrText(events[..|events| - 1]) + (if last.Stderr? then last.chunk else "")
  }

  /** The last of the present values, if any. */
  function LatestSome<T>(xs: seq<Option<T>>): Option<T> {
    if xs == [] then None
    else if xs[|xs| - 1].Some? then xs[|xs| - 1]
    else LatestSome(xs[..|xs| - 1])
  }

  /** `LatestSome` is a present value after which no value is present, or there is none at all. */
  lemma {:induction false} LatestSomeIsLatest<T>(xs: seq<Option<T>>)
    ensures LatestSome(xs).None? <==> forall k :: 0 <= k < |xs| ==> xs[k].None?
    ensures LatestSome(xs).Some? ==>
      exists k :: 0 <= k < |xs| && xs[k] == LatestSome(xs) && forall j :: k < j < |xs| ==> xs[j].None?
    decreases |xs|
  {
    if xs != [] && xs[|xs| - 1].None? {
      var init := xs[..|xs| - 1];
      LatestSomeIsLatest(init);
      assert forall k :: 0 <= k < |init| ==> init[k] == xs[k];
    }
  }

  /** The percentage each chunk carries, on either stream. */
  function ChunkProgress(events: seq<OutputEvent>): (r: seq<Option<Decimal>>)
    ensures |r| == |events| && forall k :: 0 <= k < |events| ==> r[k] == ProgressIn(events[k].chunk)
  {
    seq(|events|, k requires 0 <= k < |events| => ProgressIn(events[k].chunk))
  }

  /** The percentage in the latest chunk, on either stream, that carries one. */
  function LatestProgress(events: seq<OutputEvent>): Option<Decimal> {
    LatestSome(ChunkProgress(events))
  }

  /** What one more event adds to the log. */
  lemma OutputStep(events: seq<OutputEvent>, i: nat)
    requires i < |events|
    ensures StderrText(events[..i + 1]) == StderrText(events[..i]) + (if events[i].Stderr? then events[i].chunk else "")
  {
    assert events[..i + 1][..i] == events[..i];
  }

  /** One more value: it is the latest when present, else the latest stays what it was. */
  lemma LatestSomeStep<T>(xs: seq<Option<T>>, i: nat)
    requires i < |xs|
    ensures LatestSome(xs[..i + 1]) == if xs[i].Some? then xs[i] else LatestSome(xs[..i])
  {
    assert xs[..i + 1][..i] == xs[..i];
  }

  /** The info endpoint keeps both streams: standard output is the JSON, standard error the log. */
  method CollectInfoOutput(events: seq<OutputEvent>) returns (data: string, log: string)
    ensures data == StdoutText(events) && log == StderrText(events)
  {
    data, log := "", "";
    for i := 0 to |events|
      invariant data == StdoutText(events[..i]) && log == StderrText(events[..i])
    {
      assert events[..i + 1][..i] == events[..i];
      match events[i]
      case Stdout(chunk) => data := data + chunk;
      case Stderr(chunk) => log := log + chunk;
    }
    assert events[..|events|] == events;
  }

  /** The store after the latest reported percentage, if any, was recorded for `taskId`. */
  function TasksAfter(tasks: map<string, Task>, taskId: string, latest: Option<Decimal>): map<string, Task> {
    match latest
    case None => tasks
    case Some(p) => tasks[taskId := Task(Clamp(p), Downloading)]
  }

  /**
   * The two accounts of a task's progress agree: for a task that was just
   * started, recording the latest of the first `n` reports gives the entry
   * polling shows after them.
   */
  lemma {:induction false} LatestMatchesSeen(tasks: map<string, Task>, taskId: string,
                                             reports: seq<Option<Decimal>>, n: nat)
    requires n <= |reports|
    requires taskId in tasks && tasks[taskId] == Task(Zero, Downloading)
    ensures TasksAfter(tasks, taskId, LatestSome(reports[..n])) == tasks[taskId := Seen(reports, n)]
  {
    if n == 0 {
      assert reports[..0] == [];
      assert tasks[taskId := Task(Zero, Downloading)] == tasks;
    } else {
      LatestMatchesSeen(tasks, taskId, reports, n - 1);
      LatestSomeStep(reports, n - 1);
      if reports[n - 1].Some? {
        UpdateTwice(tasks, taskId, Seen(reports, n - 1), Seen(reports, n));
      }
    }
  }

  /** After a download's output, the started task holds what polling shows after its last chunk. */
  lemma DownloadProgressIsSeen(tasks: map<string, Task>, taskId: string, events: seq<OutputEvent>)
    requires taskId in tasks && tasks[taskId] == Task(Zero, Downloading)
    ensures TasksAfter(tasks, taskId, LatestProgress(events)) == tasks[taskId := Seen(ChunkProgress(events), |events|)]
  {
    var reports := ChunkProgress(events);
    LatestMatchesSeen(tasks, taskId, reports, |reports|);
    assert reports[..|reports|] == reports;
  }

  /** Recording twice for the same task keeps only the later percentage, when there is one. */
  lemma TasksAfterTwice(tasks: map<string, Task>, taskId: string, first: Option<Decimal>, second: Option<Decimal>)
    ensures TasksAfter(TasksAfter(tasks, taskId, first), taskId, second)
      == TasksAfter(tasks, taskId, if second.Some? then second else first)
  {
    if first.Some? && second.Some? {
      var a := Task(Clamp(first.value), Downloading);
      var b := Task(Clamp(second.value), Downloading);
      assert tasks[taskId := a][taskId := b] == tasks[taskId := b];
    }
  }

  /**
   * The `data` handlers of the download endpoint: a standard-error chunk is
   * appended to the log; a chunk on either stream that reports a percentage
   * records it, clamped.
   */
  method OnEvent(store: ProgressStore, taskId: string, log: string, event: OutputEvent) returns (newLog: string)
    requires store.Valid()
    modifies store
    ensures store.Valid()
    ensures newLog == log + (if event.Stderr? then event.chunk else "")
    ensures store.tasks == TasksAfter(old(store.tasks), taskId, ProgressIn(event.chunk))
  {
    newLog := log;
    if event.Stderr? {
      newLog := newLog + event.chunk;
    }
    store.OnOutput(taskId, event.chunk);
  }

  /**
   * The download endpoint keeps standard error as the log and, on either
   * stream, records the percentage of every chunk that carries one: the
   * entry ends at the latest such percentage, clamped, or is untouched.
   */
  method CollectDownloadOutput(store: ProgressStore, taskId: string, events: seq<OutputEvent>) returns (log: string)
    requires store.Valid()
    modifies store
    ensures store.Valid()
    ensures log == StderrText(events)
    ensures LatestProgress(events).None? ==> store.tasks == old(store.tasks)
    ensures LatestProgress(events).Some? ==>
      store.tasks == old(store.tasks)[taskId := Task(Clamp(LatestProgress(events).value), Downloading)]
  {
    ghost var reports := ChunkProgress(events);
    log := "";
    for i := 0 to |events|
      invariant store.Valid()
      invariant log == StderrText(events[..i])
      invariant store.tasks == TasksAfter(old(store.tasks), taskId, LatestSome(reports[..i]))
    {
      OutputStep(events, i);
      LatestSomeStep(reports, i);
      assert reports[i] == ProgressIn(events[i].chunk);
      TasksAfterTwice(old(store.tasks), taskId, LatestSome(reports[..i]), reports[i]);
      log := OnEvent(store, taskId, log, events[i]);
    }
    assert events[..|events|] == events;
    assert reports[..|events|] == reports;
  }

  /** The headers of a streamed download. */
  datatype StreamHeaders = StreamHeaders(contentType: string, contentLength: nat, contentDisposition: string)

  /**
   * The reply once the downloader has exited: on failure a classified
   * message and a summary of its stderr; on success the file's headers, or
   * a refusal when the file is not in the directory. The progress entry is
   * marked complete or dropped.
   */
  method FinishDownload(store: ProgressStore, dir: TempDir, job: DownloadJob, exit: ExitStatus, log: string)
    returns (r: Result<StreamHeaders, ErrorReply>)
    requires store.Valid()
    modifies store
    ensures store.Valid()
    ensures exit == Exited(0) ==> store.tasks == old(store.tasks)[job.taskId := Task(Hundred, Completed)]
    ensures exit != Exited(0) ==> store.tasks == old(store.tasks) - {job.taskId}
    ensures exit != Exited(0) ==> r == Failure(ErrorReply(500, DownloadErrorMessage(log),
      Some(Details(log, DownloadTailLines)), Some(FullError(log))))
    ensures exit == Exited(0) && job.outputName !in dir.files ==> r == Failure(ErrorReply(500, FileMissing, None, None))
    ensures exit == Exited(0) && job.outputName in dir.files ==> r == Success(StreamHeaders(
      "audio/" + job.format, dir.files[job.outputName].size, "attachment; filename=\"" + job.outputName + "\""))
  {
    store.OnClose(job.taskId, exit);
    if exit != Exited(0) {
      return Failure(ErrorReply(500, DownloadErrorMessage(log), Some(Details(log, DownloadTailLines)), Some(FullError(log))));
    }
    if job.outputName !in dir.files {
      return Failure(ErrorReply(500, FileMissing, None, None));
    }
    var stat := dir.files[job.outputName];
    return Success(StreamHeaders("audio/" + job.format, stat.size, "attachment; filename=\"" + job.outputName + "\""));
  }

  /**
   * A whole successful download as the server sees it: accepted, run to a
   * zero exit, streamed, and its file and progress entry removed once the
   * two delays have passed.
   */
  method DownloadAndCleanUp(
    store: ProgressStore, dir: TempDir, query: DownloadQuery, url: ParsedUrl,
    configured: Option<string>, onPath: string -> bool, onDisk: string -> bool, idClockMs: nat, taskClockMs: nat)
    returns (job: DownloadJob, completed: Task, reply: Result<StreamHeaders, ErrorReply>, afterwards: Task)
    requires store.Valid() && Present(query.url)
    modifies store, dir
    ensures store.Valid()
    ensures completed == Task(Hundred, Completed)
    ensures job.outputName in old(dir.files) ==> reply.Success? && reply.value.contentType == "audio/" + job.format
    ensures job.outputName !in old(dir.files) ==> reply == Failure(ErrorReply(500, FileMissing, None, None))
    ensures afterwards == IdleReply
    ensures job.outputName !in dir.files && dir.files == old(dir.files) - {job.outputName}
    ensures job.taskId !in store.tasks && store.tasks == old(store.tasks) - {job.taskId}
  {
    var started := StartDownload(store, query, Success(url), configured, onPath, onDisk, idClockMs, taskClockMs);
    job := started.value;
    UpdatesThenRemove(old(store.tasks), job.taskId, Task(Zero, Downloading), Task(Hundred, Completed));
    reply := FinishDownload(store, dir, job, Exited(0), "");
    completed := store.Get(job.taskId);
    dir.DeleteAfterStream(job.outputName);
    store.Expire(job.taskId);
    afterwards := store.Get(job.taskId);
  }
}
