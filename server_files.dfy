/**
 * The server's temporary directory and the names it derives for a download:
 * the hourly sweep of old files, the deletion of a file once it has been
 * streamed, the search for the downloader executable, the video id taken
 * from the URL, and the task id a download is tracked under.
 */
module ServerFiles {
  import opened Wrappers
  import opened Js

  // ---------------------------------------------------------------------------
  // The temporary directory
  // ---------------------------------------------------------------------------

  /** What `fs.statSync` reports about a file: its modification time in milliseconds and its size in bytes. */
  datatype FileStat = FileStat(mtimeMs: int, size: nat)

  /** Files older than one hour are swept. */
  const MaxAgeMs: int := 60 * 60 * 1000

  /** A file is stale when strictly more than an hour has passed since it was modified. */
  predicate IsStale(stat: FileStat, nowMs: int) {
    nowMs - stat.mtimeMs > MaxAgeMs
  }

  /** The files a sweep at `nowMs` leaves in place, with their stats unchanged. */
  function Survivors(files: map<string, FileStat>, nowMs: int): map<string, FileStat> {
    map name | name in files && !IsStale(files[name], nowMs) :: files[name]
  }

  /** The names a sweep at `nowMs` deletes. */
  function StaleNames(files: map<string, FileStat>, nowMs: int): set<string> {
    set name | name in files && IsStale(files[name], nowMs)
  }

  /** The directory of downloaded files, by name. */
  class TempDir {
    var files: map<string, FileStat>

    /**
     * The directory at start-up: created empty when missing, otherwise kept
     * with whatever an earlier run left in it (those leftovers are what the
     * sweep exists for).
     */
    constructor (existing: Option<map<string, FileStat>>)
      ensures existing.None? ==> files == map[]
      ensures existing.Some? ==> files == existing.value
    {
      match existing
      case None => files := map[];
      case Some(leftovers) => files := leftovers;
    }

    /**
     * `cleanupOldFiles`: visits every file listed at the start, in any order,
     * and unlinks each one that is stale at `nowMs`.
     */
    method CleanupOldFiles(nowMs: int) returns (deleted: set<string>)
      modifies this
      ensures files == Survivors(old(files), nowMs)
      ensures deleted == StaleNames(old(files), nowMs)
    {
      var pending := files.Keys;
      deleted := {};
      while pending != {}
        invariant pending <= old(files).Keys
        invariant forall name :: name in files <==>
          name in old(files) && (name in pending || !IsStale(old(files)[name], nowMs))
        invariant forall name :: name in files ==> files[name] == old(files)[name]
        invariant forall name :: name in deleted <==>
          name in old(files) && name !in pending && IsStale(old(files)[name], nowMs)
        decreases pending
      {
        var name :| name in pending;
        if IsStale(files[name], nowMs) {
          files := files - {name};
          deleted := deleted + {name};
        }
        pending := pending - {name};
      }
    }

    /** The delayed deletion after a file has been streamed: it is unlinked if it still exists. */
    method DeleteAfterStream(name: string)
      modifies this
      ensures files == old(files) - {name}
    {
      if name in files {
        files := files - {name};
      }
    }
  }

  /** A sweep keeps exactly the files that are not stale, and deletes exactly the others. */
  lemma SweepPartitions(files: map<string, FileStat>, nowMs: int)
    ensures Survivors(files, nowMs).Keys !! StaleNames(files, nowMs)
    ensures Survivors(files, nowMs).Keys + StaleNames(files, nowMs) == files.Keys
  {
  }

  /** Sweeping twice at the same time deletes nothing more. */
  lemma SweepIdempotent(files: map<string, FileStat>, nowMs: int)
    ensures Survivors(Survivors(files, nowMs), nowMs) == Survivors(files, nowMs)
    ensures StaleNames(Survivors(files, nowMs), nowMs) == {}
  {
  }

  /** A later sweep deletes everything an earlier one would have. */
  lemma SweepMonotone(files: map<string, FileStat>, earlier: int, later: int)
    requires earlier <= later
    ensures StaleNames(files, earlier) <= StaleNames(files, later)
    ensures Survivors(files, later).Keys <= Survivors(files, earlier).Keys
  {
  }

  /** The age limit is strict: a file exactly one hour old survives, one a millisecond older does not. */
  lemma SweepBoundary(name: string, stat: FileStat)
    ensures name in Survivors(map[name := stat], stat.mtimeMs + MaxAgeMs)
    ensures name !in Survivors(map[name := stat], stat.mtimeMs + MaxAgeMs + 1)
  {
  }

  // ---------------------------------------------------------------------------
  // Finding the downloader
  // ---------------------------------------------------------------------------

  /** The fixed places the server looks for the downloader, after the configured one. */
  const FixedDownloaderPaths: seq<string> := [
    "yt-dlp",
    "/usr/local/bin/yt-dlp",
    "/usr/bin/yt-dlp",
    "/Users/watrix/Library/Python/3.12/bin/yt-dlp",
    "/Users/watrix/Library/Python/3.9/bin/yt-dlp"
  ]

  /**
   * `ytdlpPaths`: the configured path (the `YTDLP_PATH` environment
   * variable) when it is set and non-empty, then the fixed paths; the
   * `filter(Boolean)` drops an unset or empty configured path.
   */
  function DownloaderCandidates(configured: Option<string>): (r: seq<string>)
    ensures |r| > 0 && forall k :: 0 <= k < |r| ==> r[k] != ""
    ensures configured.Some? && configured.value != "" ==> r[0] == configured.value && r[1..] == FixedDownloaderPaths
    ensures !(configured.Some? && configured.value != "") ==> r == FixedDownloaderPaths
  {
    if configured.Some? && configured.value != "" then [configured.value] + FixedDownloaderPaths
    else FixedDownloaderPaths
  }

  /** The info endpoint starts from `ytdlpPaths[0] || 'yt-dlp'`. */
  function InfoDefaultPath(candidates: seq<string>): string {
    if |candidates| > 0 && candidates[0] != "" then candidates[0] else "yt-dlp"
  }

  /** The download endpoint starts from `ytdlpPaths[0]`, which always exists: both endpoints start from the same path. */
  lemma DefaultPathsAgree(configured: Option<string>)
    ensures InfoDefaultPath(DownloaderCandidates(configured)) == DownloaderCandidates(configured)[0]
  {
  }

  /**
   * The search loop: the first candidate that `which` finds on the search
   * path or that exists as a file is used; when none is found the default
   * stays. `onPath` and `onDisk` stand for the two probes of the host.
   */
  method ResolveDownloader(candidates: seq<string>, default: string, onPath: string -> bool, onDisk: string -> bool)
    returns (path: string)
    ensures (exists k :: 0 <= k < |candidates| && (onPath(candidates[k]) || onDisk(candidates[k]))) ==>
      exists k :: 0 <= k < |candidates| && path == candidates[k] && (onPath(candidates[k]) || onDisk(candidates[k]))
        && forall j :: 0 <= j < k ==> !(onPath(candidates[j]) || onDisk(candidates[j]))
    ensures (forall k :: 0 <= k < |candidates| ==> !(onPath(candidates[k]) || onDisk(candidates[k]))) ==> path == default
  {
    path := default;
    var i := 0;
    while i < |candidates|
      invariant 0 <= i <= |candidates|
      invariant path == default
      invariant forall j :: 0 <= j < i ==> !(onPath(candidates[j]) || onDisk(candidates[j]))
    {
      var p := candidates[i];
      if onPath(p) {
        path := p;
        return;
      } else if onDisk(p) {
        path := p;
        return;
      }
      i := i + 1;
    }
  }

  // ---------------------------------------------------------------------------
  // Names derived from the request
  // ---------------------------------------------------------------------------

  /** The parts of `new URL(url)` the server reads: the `v` search parameter, if any, and the path. */
  datatype ParsedUrl = ParsedUrl(v: Option<string>, pathname: string)

  /**
   * `videoId`: the `v` parameter when it is non-empty, else the last
   * segment of the path when that is non-empty, else the current time in
   * milliseconds written in decimal.
   */
  function VideoId(url: ParsedUrl, nowMs: nat): (r: string)
    ensures r != ""
    ensures url.v.Some? && url.v.value != "" ==> r == url.v.value
    ensures !(url.v.Some? && url.v.value != "") && AfterLast(url.pathname, '/') != "" ==>
      r == AfterLast(url.pathname, '/') && '/' !in r
    ensures !(url.v.Some? && url.v.value != "") && AfterLast(url.pathname, '/') == "" ==>
      AllDigits(r) && DigitsValue(r) == nowMs
  {
    if url.v.Some? && url.v.value != "" then url.v.value
    else
      var last := AfterLast(url.pathname, '/');
      AfterLastIsSuffix(url.pathname, '/');
      if last != "" then last else NatToString(nowMs)
  }

  /** The name of the downloaded file inside the temporary directory: `<videoId>.<format>`. */
  function OutputName(videoId: string, format: string): string {
    videoId + "." + format
  }

  /** The task id a download is tracked under when the client sends none: `download_<videoId>_<time>`. */
  function GeneratedTaskId(videoId: string, nowMs: nat): string {
    "download_" + videoId + "_" + NatToString(nowMs)
  }

  /** `downloadTaskId`: the client's task id when it is non-empty, else a generated one. */
  function DownloadTaskId(taskId: Option<string>, videoId: string, nowMs: nat): (r: string)
    ensures r != ""
    ensures taskId.Some? && taskId.value != "" ==> r == taskId.value
    ensures !(taskId.Some? && taskId.value != "") ==> r == GeneratedTaskId(videoId, nowMs)
  {
    if taskId.Some? && taskId.value != "" then taskId.value else GeneratedTaskId(videoId, nowMs)
  }

  /** A generated task id gives back the time it was made at: the digits after its last underscore. */
  lemma GeneratedTaskIdTime(videoId: string, nowMs: nat)
    ensures var tail := AfterLast(GeneratedTaskId(videoId, nowMs), '_');
      AllDigits(tail) && DigitsValue(tail) == nowMs
  {
    var digits := NatToString(nowMs);
    assert '_' !in digits by {
      forall k | 0 <= k < |digits| ensures digits[k] != '_' {
        assert IsDigit(digits[k]);
      }
    }
    AfterLastOfJoined("download_" + videoId, '_', digits);
  }

  /** Generated task ids never collide: equal ids come from the same video at the same time. */
  lemma GeneratedTaskIdInjective(videoId1: string, nowMs1: nat, videoId2: string, nowMs2: nat)
    ensures GeneratedTaskId(videoId1, nowMs1) == GeneratedTaskId(videoId2, nowMs2) ==>
      videoId1 == videoId2 && nowMs1 == nowMs2
  {
    if GeneratedTaskId(videoId1, nowMs1) == GeneratedTaskId(videoId2, nowMs2) {
      GeneratedTaskIdTime(videoId1, nowMs1);
      GeneratedTaskIdTime(videoId2, nowMs2);
      var d := NatToString(nowMs1);
      assert d == NatToString(nowMs2);
      var s := GeneratedTaskId(videoId1, nowMs1);
      assert s[9..|s| - |d| - 1] == videoId1;
      assert s[9..|s| - |d| - 1] == videoId2;
    }
  }
}
