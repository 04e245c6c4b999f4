/**
 * The client's list of files: the items it holds, how their status is
 * updated, how dropped files and downloaded videos join the list, and
 * which URLs the client accepts before asking the server.
 */
module ClientItems {
  import opened Wrappers
  import opened Js
  import ServerFiles

  /** A blob: its bytes and its MIME type; its `size` is the number of bytes. */
  datatype Blob = Blob(bytes: seq<bv8>, mimeType: string)

  /** A browser `File`: a name and its contents. */
  datatype MediaFile = MediaFile(name: string, content: Blob)

  /** `'idle'`, `'processing'`, `'done'` and `'error'`. */
  datatype FileStatus = Idle | Processing | Done | Failed

  /** Where an item downloaded from a video came from: the URL typed in and the video's title. */
  datatype VideoOrigin = VideoOrigin(videoUrl: string, videoTitle: string)

  /** One entry of the list: the file, its unique id, its status and its conversion result. */
  datatype FileItem = FileItem(
    file: MediaFile, id: string, status: FileStatus,
    newBlob: Option<Blob>, newSize: nat, origin: Option<VideoOrigin>)

  /** The `additionalData` merged by a status update: nothing, or a converted blob and its size. */
  datatype Patch = NoPatch | WithResult(blob: Blob)

  /** One item after `{ ...f, status, ...additionalData }`. */
  function Updated(item: FileItem, status: FileStatus, patch: Patch): (r: FileItem)
    ensures r.status == status && r.file == item.file && r.id == item.id && r.origin == item.origin
    ensures patch.NoPatch? ==> r.newBlob == item.newBlob && r.newSize == item.newSize
    ensures patch.WithResult? ==> r.newBlob == Some(patch.blob) && r.newSize == |patch.blob.bytes|
  {
    match patch
    case NoPatch => item.(status := status)
    case WithResult(blob) => item.(status := status, newBlob := Some(blob), newSize := |blob.bytes|)
  }

  /** `updateFileStatus`: every item with the given id is updated; the list keeps its length and order. */
  function UpdateFileStatus(files: seq<FileItem>, id: string, status: FileStatus, patch: Patch): (r: seq<FileItem>)
    ensures |r| == |files|
    ensures forall k :: 0 <= k < |files| && files[k].id == id ==> r[k] == Updated(files[k], status, patch)
    ensures forall k :: 0 <= k < |files| && files[k].id != id ==> r[k] == files[k]
  {
    if files == [] then []
    else
      [if files[0].id == id then Updated(files[0], status, patch) else files[0]]
      + UpdateFileStatus(files[1..], id, status, patch)
  }

  /** An update never changes which file an entry holds or what it is called. */
  lemma UpdateKeepsIdentity(files: seq<FileItem>, id: string, status: FileStatus, patch: Patch)
    ensures var r := UpdateFileStatus(files, id, status, patch);
      forall k :: 0 <= k < |files| ==> r[k].id == files[k].id && r[k].file == files[k].file
  {
  }

  /** A later update of the same id overrides an earlier plain one: `'processing'` then `'done'` is just `'done'`. */
  lemma UpdateOverrides(files: seq<FileItem>, id: string, first: FileStatus, second: FileStatus, patch: Patch)
    ensures UpdateFileStatus(UpdateFileStatus(files, id, first, NoPatch), id, second, patch)
      == UpdateFileStatus(files, id, second, patch)
  {
    var once := UpdateFileStatus(files, id, first, NoPatch);
    var twice := UpdateFileStatus(once, id, second, patch);
    var direct := UpdateFileStatus(files, id, second, patch);
    forall k | 0 <= k < |files| ensures twice[k] == direct[k] {
      if files[k].id == id {
        assert once[k].id == id;
      }
    }
  }

  // ---------------------------------------------------------------------------
  // Adding files
  // ---------------------------------------------------------------------------

  /** A new entry: idle, with no conversion result yet. */
  function NewItem(file: MediaFile, id: string, size: nat, origin: Option<VideoOrigin>): FileItem {
    FileItem(file, id, Idle, None, size, origin)
  }

  const EngineNotReady := "エンジンがまだロードされていません。少し待ってから再度お試しください。\n\nURLからのダウンロードはエンジン不要で利用できます。"

  /**
   * `onDrop`: refused with an alert until the engine has loaded; otherwise
   * one idle entry per dropped file, with a fresh id from `ids`, after the
   * existing ones, and a message counting them.
   */
  function OnDrop(files: seq<FileItem>, engineLoaded: bool, dropped: seq<MediaFile>, ids: seq<string>)
    : (r: (seq<FileItem>, string))
    requires |ids| == |dropped|
    ensures !engineLoaded ==> r == (files, EngineNotReady)
    ensures engineLoaded ==> |r.0| == |files| + |dropped| && r.0[..|files|] == files
    ensures engineLoaded ==> forall k :: 0 <= k < |dropped| ==> r.0[|files| + k] == NewItem(dropped[k], ids[k], 0, None)
    ensures engineLoaded ==> r.1 == NatToString(|dropped|) + "件追加しました"
  {
    if !engineLoaded then (files, EngineNotReady)
    else
      var added := seq(|dropped|, k requires 0 <= k < |dropped| => NewItem(dropped[k], ids[k], 0, None));
      (files + added, NatToString(|dropped|) + "件追加しました")
  }

  // ---------------------------------------------------------------------------
  // Adding a video from its URL
  // ---------------------------------------------------------------------------

  predicate IsAsciiAlphanumeric(c: char) {
    ('a' <= c <= 'z') || ('A' <= c <= 'Z') || ('0' <= c <= '9')
  }

  /** The most characters of a title kept in a file name. */
  const TitleLimit: nat := 50

  /** `title.replace(/[^a-zA-Z0-9]/g, '_').substring(0, 50)`. */
  function SafeTitle(title: string): (r: string)
    ensures |r| == if |title| < TitleLimit then |title| else TitleLimit
    ensures forall k :: 0 <= k < |r| ==> r[k] == if IsAsciiAlphanumeric(title[k]) then title[k] else '_'
    ensures forall k :: 0 <= k < |r| ==> IsAsciiAlphanumeric(r[k]) || r[k] == '_'
  {
    var replaced := seq(|title|, k requires 0 <= k < |title| => if IsAsciiAlphanumeric(title[k]) then title[k] else '_');
    Prefix(replaced, TitleLimit)
  }

  /** A safe title has no separator of any kind: no dot, no slash, no space. */
  lemma SafeTitleHasNoSeparators(title: string)
    ensures '.' !in SafeTitle(title) && '/' !in SafeTitle(title) && ' ' !in SafeTitle(title)
  {
    var r := SafeTitle(title);
    forall k | 0 <= k < |r| ensures r[k] != '.' && r[k] != '/' && r[k] != ' ' {
    }
  }

  /**
   * The entry made for a downloaded video: a file named
   * `<safe title>.<format>` of type `audio/<format>`, idle, with the size
   * of the download, remembering the URL and the title.
   */
  function UrlItem(videoUrl: string, title: string, format: string, audio: seq<bv8>, id: string): (r: FileItem)
    ensures r.status == Idle && r.newBlob.None? && r.newSize == |audio| && r.id == id
    ensures r.file.name == SafeTitle(title) + "." + format
    ensures r.file.content == Blob(audio, "audio/" + format)
    ensures r.origin == Some(VideoOrigin(videoUrl, title))
  {
    NewItem(MediaFile(SafeTitle(title) + "." + format, Blob(audio, "audio/" + format)), id, |audio|, Some(VideoOrigin(videoUrl, title)))
  }

  /** The extension of a downloaded video's file name, as later read back by splitting at dots, is the format. */
  lemma UrlItemExtension(title: string, format: string)
    requires '.' !in format
    ensures AfterLast(SafeTitle(title) + "." + format, '.') == format
    ensures SafeTitle(title) + "." + format == Join([SafeTitle(title), format], '.')
  {
    AfterLastOfJoined(SafeTitle(title), '.', format);
  }

  /** The hosts the client accepts, compared after lowering the case. */
  const VideoHosts: set<string> := {"www.youtube.com", "youtube.com", "m.youtube.com", "youtu.be", "www.youtu.be"}

  /**
   * `isValidVideoUrl`: `hostname` is what `new URL(...)` reports, or `None`
   * when the text does not parse (the check then answers false).
   */
  function IsValidVideoUrl(hostname: Option<string>): (r: bool)
    ensures r <==> hostname.Some? && ToLower(hostname.value) in VideoHosts
  {
    match hostname
    case None => false
    case Some(host) =>
      || ToLower(host) == "www.youtube.com"
      || ToLower(host) == "youtube.com"
      || ToLower(host) == "m.youtube.com"
      || ToLower(host) == "youtu.be"
      || ToLower(host) == "www.youtu.be"
  }

  /** The check ignores letter case: a host and its lower-case form are accepted alike. */
  lemma ValidUrlIgnoresCase(host: string)
    ensures IsValidVideoUrl(Some(host)) == IsValidVideoUrl(Some(ToLower(host)))
  {
    assert ToLower(ToLower(host)) == ToLower(host);
  }

  /** Look-alike hosts are refused: a subdomain of an accepted host, a suffix trick, or a bare domain. */
  lemma LookAlikeHostsRefused()
    ensures IsValidVideoUrl(Some("WWW.YouTube.COM"))
    ensures !IsValidVideoUrl(Some("music.youtube.com"))
    ensures !IsValidVideoUrl(Some("youtube.com.example.org"))
    ensures !IsValidVideoUrl(Some("notyoutube.com"))
    ensures !IsValidVideoUrl(None)
  {
    assert ToLower("WWW.YouTube.COM") == "www.youtube.com";
    assert |ToLower("music.youtube.com")| == 17;
    assert |ToLower("youtube.com.example.org")| == 23;
    assert ToLower("notyoutube.com")[0] == 'n';
  }

  const EmptyUrlMessage := "URLを入力してください。"
  const NotVideoUrlMessage := "YouTubeのURLを入力してください。"
  const InfoFailedMessage := "動画情報の取得に失敗しました"
  const DownloadFailedMessage := "動画のダウンロードに失敗しました"

  /** What the server answered with an error status: its `error` and `details`, when present and non-empty. */
  datatype ServerError = ServerError(error: Option<string>, details: Option<string>)

  /** The metadata of the info reply the client uses. */
  datatype VideoInfo = VideoInfo(id: string, title: string)

  /** The message of a failed download: the server's `error` (or a fixed text) and its `details` after a colon. */
  function DownloadErrorText(e: ServerError): (r: string)
  {
    var base := if e.error.Some? && e.error.value != "" then e.error.value else DownloadFailedMessage;
    if e.details.Some? && e.details.value != "" then base + ": " + e.details.value else base
  }

  /** The task id the client makes up for a download: `download_<video id>_<time>`. */
  function ClientTaskId(info: VideoInfo, nowMs: nat): (r: string)
    ensures r == ServerFiles.GeneratedTaskId(info.id, nowMs)
  {
    "download_" + info.id + "_" + NatToString(nowMs)
  }

  /** The server tracks a download under the client's task id, since that id is never empty. */
  lemma ServerKeepsClientTaskId(info: VideoInfo, nowMs: nat, videoId: string, serverNowMs: nat)
    ensures ServerFiles.DownloadTaskId(Some(ClientTaskId(info, nowMs)), videoId, serverNowMs) == ClientTaskId(info, nowMs)
  {
  }

  /**
   * `handleUrlSubmit`: the two local checks, then the info request, then
   * the download; on success the new entry joins the list. `hostname` is
   * what parsing the text gives, `info` and `download` are the server's
   * answers, `nowMs` the clock and `newId` the fresh id. Returns the new
   * list, the status message, the task id when one was made, and the text
   * left in the URL field (cleared once the entry has been added).
   */
  function UrlSubmit(
    files: seq<FileItem>, videoUrl: string, hostname: Option<string>, format: string,
    info: Result<VideoInfo, ServerError>, download: Result<seq<bv8>, ServerError>, nowMs: nat, newId: string)
    : (r: (seq<FileItem>, string, Option<string>, string))
    ensures Trim(videoUrl) == "" ==> r == (files, EmptyUrlMessage, None, videoUrl)
    ensures Trim(videoUrl) != "" && !IsValidVideoUrl(hostname) ==> r == (files, NotVideoUrlMessage, None, videoUrl)
    ensures |r.0| != |files| <==> Trim(videoUrl) != "" && IsValidVideoUrl(hostname) && info.Success? && download.Success?
    ensures |r.0| != |files| ==>
      r.0 == files + [UrlItem(videoUrl, info.value.title, format, download.value, newId)]
      && r.1 == info.value.title + " を追加しました"
    ensures |r.0| == |files| ==> r.0 == files
    ensures r.3 == (if |r.0| != |files| then "" else videoUrl)
    ensures r.2.Some? <==> Trim(videoUrl) != "" && IsValidVideoUrl(hostname) && info.Success?
    ensures r.2.Some? ==> r.2.value == ClientTaskId(info.value, nowMs)
    ensures info.Failure? && Trim(videoUrl) != "" && IsValidVideoUrl(hostname) ==>
      r.1 == "エラー: " + (if info.error.error.Some? && info.error.error.value != "" then info.error.error.value else InfoFailedMessage)
    ensures info.Success? && download.Failure? && Trim(videoUrl) != "" && IsValidVideoUrl(hostname) ==>
      r.1 == "エラー: " + DownloadErrorText(download.error)
  {
    if Trim(videoUrl) == "" then (files, EmptyUrlMessage, None, videoUrl)
    else if !IsValidVideoUrl(hostname) then (files, NotVideoUrlMessage, None, videoUrl)
    else match info
      case Failure(e) =>
        (files, "エラー: " + (if e.error.Some? && e.error.value != "" then e.error.value else InfoFailedMessage), None, videoUrl)
      case Success(video) =>
        var taskId := ClientTaskId(video, nowMs);
        match download
        case Failure(e) => (files, "エラー: " + DownloadErrorText(e), Some(taskId), videoUrl)
        case Success(audio) =>
          (files + [UrlItem(videoUrl, video.title, format, audio, newId)], video.title + " を追加しました", Some(taskId), "")
  }

  /** A whitespace-only URL is refused before any check of its host. */
  lemma BlankUrlRefused(files: seq<FileItem>, videoUrl: string, hostname: Option<string>, format: string,
    info: Result<VideoInfo, ServerError>, download: Result<seq<bv8>, ServerError>, nowMs: nat, newId: string)
    requires IsBlank(videoUrl)
    ensures UrlSubmit(files, videoUrl, hostname, format, info, download, nowMs, newId) == (files, EmptyUrlMessage, None, videoUrl)
  {
    TrimEmptyIffBlank(videoUrl);
  }
}
