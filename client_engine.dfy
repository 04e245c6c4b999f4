/**
 * `loadFFmpeg`: fetching the ffmpeg core and its WebAssembly module from
 * the CDN (the `esm` build first, the `umd` build as fallback),
 * initialising the engine, and retrying a failed load up to twice.
 */
module ClientEngine {
  import opened Wrappers
  import opened Js

  const MaxRetries: nat := 2

  const EsmBase := "https://unpkg.com/@ffmpeg/core@0.12.6/dist/esm"
  const UmdCoreUrl := "https://unpkg.com/@ffmpeg/core@0.12.6/dist/umd/ffmpeg-core.js"
  const UmdWasmUrl := "https://unpkg.com/@ffmpeg/core@0.12.6/dist/umd/ffmpeg-core.wasm"

  const CoreFailedPrefix := "コアファイルのダウンロードに失敗: "
  const WasmFailedPrefix := "WASMファイルのダウンロードに失敗: "
  const InitFailedPrefix := "FFmpegの初期化に失敗: "
  const UnknownInitError := "Unknown error"
  const UnknownError := "不明なエラー"
  const ReadyMessage := "準備完了。YouTubeのURLを入力してください。"
  const EngineFailedPrefix := "エンジンのロードに失敗しました: "

  /** A thrown JavaScript value: its `message` (possibly empty) and what it reads as when converted to text. */
  datatype JsError = JsError(message: string, text: string)

  /** `err.message || err`. */
  function ErrorText(e: JsError): string {
    if e.message != "" then e.message else e.text
  }

  /** `toBlobURL` for a given attempt and URL: the blob URL made, or the error thrown. */
  type Fetcher = (nat, string) -> Result<string, JsError>

  /** `ffmpeg.load` for a given attempt, core URL and wasm URL: nothing on success, or the error thrown. */
  type Initialiser = (nat, string, string) -> Option<JsError>

  /**
   * One asset: the `esm` URL, then the `umd` URL; when both fail, the
   * message names the failure of the FIRST fetch, not of the fallback.
   */
  function FetchWithFallback(fetch: Fetcher, attempt: nat, primary: string, fallback: string, prefix: string)
    : (r: Result<string, string>)
    ensures fetch(attempt, primary).Success? ==> r == Success(fetch(attempt, primary).value)
    ensures fetch(attempt, primary).Failure? && fetch(attempt, fallback).Success? ==>
      r == Success(fetch(attempt, fallback).value)
    ensures fetch(attempt, primary).Failure? && fetch(attempt, fallback).Failure? ==>
      r == Failure(prefix + ErrorText(fetch(attempt, primary).error))
  {
    match fetch(attempt, primary)
    case Success(url) => Success(url)
    case Failure(err) =>
      match fetch(attempt, fallback)
      case Success(url) => Success(url)
      case Failure(_) => Failure(prefix + ErrorText(err))
  }

  datatype AttemptResult = Loaded | AttemptFailed(message: string)

  /**
   * What one attempt ends with: loaded when both assets were fetched (from
   * either build) and initialisation succeeded; otherwise the error of the
   * first step that failed, whose message is never empty and never the
   * generic unknown-error text.
   */
  function AttemptOutcome(fetch: Fetcher, init: Initialiser, attempt: nat): (r: AttemptResult)
    ensures r.Loaded? <==>
      && FetchWithFallback(fetch, attempt, EsmBase + "/ffmpeg-core.js", UmdCoreUrl, CoreFailedPrefix).Success?
      && FetchWithFallback(fetch, attempt, EsmBase + "/ffmpeg-core.wasm", UmdWasmUrl, WasmFailedPrefix).Success?
      && init(attempt,
              FetchWithFallback(fetch, attempt, EsmBase + "/ffmpeg-core.js", UmdCoreUrl, CoreFailedPrefix).value,
              FetchWithFallback(fetch, attempt, EsmBase + "/ffmpeg-core.wasm", UmdWasmUrl, WasmFailedPrefix).value).None?
    ensures r.AttemptFailed? ==> r.message != "" && r.message != UnknownError
  {
    match FetchWithFallback(fetch, attempt, EsmBase + "/ffmpeg-core.js", UmdCoreUrl, CoreFailedPrefix)
    case Failure(m) => AttemptFailed(m)
    case Success(coreUrl) =>
      match FetchWithFallback(fetch, attempt, EsmBase + "/ffmpeg-core.wasm", UmdWasmUrl, WasmFailedPrefix)
      case Failure(m) => AttemptFailed(m)
      case Success(wasmUrl) =>
        match init(attempt, coreUrl, wasmUrl)
        case None => Loaded
        case Some(err) => AttemptFailed(InitFailedPrefix + (if err.message != "" then err.message else UnknownInitError))
  }

  /** An attempt that fails names its step: the core, the wasm module, or initialisation, in that order. */
  lemma AttemptFailureNamesStep(fetch: Fetcher, init: Initialiser, attempt: nat)
    ensures var core := FetchWithFallback(fetch, attempt, EsmBase + "/ffmpeg-core.js", UmdCoreUrl, CoreFailedPrefix);
      var wasm := FetchWithFallback(fetch, attempt, EsmBase + "/ffmpeg-core.wasm", UmdWasmUrl, WasmFailedPrefix);
      var r := AttemptOutcome(fetch, init, attempt);
      && (core.Failure? ==> r.AttemptFailed? && CoreFailedPrefix <= r.message)
      && (core.Success? && wasm.Failure? ==> r.AttemptFailed? && WasmFailedPrefix <= r.message)
      && (core.Success? && wasm.Success? && r.AttemptFailed? ==> InitFailedPrefix <= r.message)
  {
  }

  /** One attempt, step by step as the source runs it, with each `try`/`catch` as a branch. */
  method TryLoad(fetch: Fetcher, init: Initialiser, attempt: nat) returns (result: AttemptResult)
    ensures result == AttemptOutcome(fetch, init, attempt)
  {
    var coreUrl: string;
    match fetch(attempt, EsmBase + "/ffmpeg-core.js") {
      case Success(url) => coreUrl := url;
      case Failure(err) =>
        match fetch(attempt, UmdCoreUrl) {
          case Success(url) => coreUrl := url;
          case Failure(_) => return AttemptFailed(CoreFailedPrefix + ErrorText(err));
        }
    }
    var wasmUrl: string;
    match fetch(attempt, EsmBase + "/ffmpeg-core.wasm") {
      case Success(url) => wasmUrl := url;
      case Failure(err) =>
        match fetch(attempt, UmdWasmUrl) {
          case Success(url) => wasmUrl := url;
          case Failure(_) => return AttemptFailed(WasmFailedPrefix + ErrorText(err));
        }
    }
    match init(attempt, coreUrl, wasmUrl) {
      case None => result := Loaded;
      case Some(err) =>
        var message := if err.message != "" then err.message else UnknownInitError;
        result := AttemptFailed(InitFailedPrefix + message);
    }
  }

  /** The notice shown before retry number `retryCount + 1`: `(<n>/2)`. */
  function RetryNotice(retryCount: nat): string {
    "エンジンのロードに失敗しました。リトライ中... (" + NatToString(retryCount + 1) + "/" + NatToString(MaxRetries) + ")"
  }

  /** The outer `catch`: the error's message, or the unknown-error text when it has none. */
  function CaughtMessage(message: string): string {
    if message != "" then message else UnknownError
  }

  /** The final message: the caught message, or a pointer to the console naming the error when it is unknown. */
  function FinalFailureMessage(caught: string, errorName: string): string {
    EngineFailedPrefix
    + (if caught != UnknownError then caught
       else "エラーが発生しました。ブラウザのコンソールを確認してください。 (" + errorName + ")")
  }

  /** Every attempt's error has a message, so the final message always carries the last attempt's own message. */
  lemma FinalMessageCarriesError(fetch: Fetcher, init: Initialiser, attempt: nat)
    requires AttemptOutcome(fetch, init, attempt).AttemptFailed?
    ensures FinalFailureMessage(CaughtMessage(AttemptOutcome(fetch, init, attempt).message), "Error")
      == EngineFailedPrefix + AttemptOutcome(fetch, init, attempt).message
  {
  }

  /** The index of the last attempt a load starting at `retryCount` may make. */
  function LastAttempt(retryCount: nat): nat {
    if retryCount < MaxRetries then MaxRetries else retryCount
  }

  /**
   * `loadFFmpeg(retryCount)`: attempts until one succeeds or the retries
   * are used up, showing a notice before each retry. Returns whether the
   * engine loaded, the final status message, the retry notices in order,
   * and the index of the last attempt made.
   */
  method LoadFFmpeg(fetch: Fetcher, init: Initialiser, retryCount: nat)
    returns (loaded: bool, status: string, notices: seq<string>, last: nat)
    ensures retryCount <= last <= LastAttempt(retryCount)
    ensures loaded <==> AttemptOutcome(fetch, init, last).Loaded?
    ensures forall a :: retryCount <= a < last ==> AttemptOutcome(fetch, init, a).AttemptFailed?
    ensures loaded ==> status == ReadyMessage
    ensures !loaded ==> last == LastAttempt(retryCount)
    ensures !loaded ==> status == EngineFailedPrefix + AttemptOutcome(fetch, init, last).message
    ensures |notices| == last - retryCount
      && forall k :: 0 <= k < |notices| ==> notices[k] == RetryNotice(retryCount + k)
    decreases MaxRetries - retryCount
  {
    var result := TryLoad(fetch, init, retryCount);
    if result.Loaded? {
      return true, ReadyMessage, [], retryCount;
    }
    if retryCount < MaxRetries {
      var later;
      loaded, status, later, last := LoadFFmpeg(fetch, init, retryCount + 1);
      notices := [RetryNotice(retryCount)] + later;
      forall k | 0 <= k < |notices|
        ensures notices[k] == RetryNotice(retryCount + k)
      {
        if k > 0 {
          assert notices[k] == later[k - 1];
        }
      }
      forall a | retryCount <= a < last
        ensures AttemptOutcome(fetch, init, a).AttemptFailed?
      {
      }
    } else {
      FinalMessageCarriesError(fetch, init, retryCount);
      return false, FinalFailureMessage(CaughtMessage(result.message), "Error"), [], retryCount;
    }
  }

  /**
   * The load started when the page mounts (`loadFFmpeg()` with no retries
   * used): the engine loads iff one of the three attempts succeeds, and
   * otherwise the message carries the error of the third.
   */
  method LoadOnMount(fetch: Fetcher, init: Initialiser) returns (loaded: bool, status: string)
    ensures loaded <==> exists a :: 0 <= a <= MaxRetries && AttemptOutcome(fetch, init, a).Loaded?
    ensures loaded ==> status == ReadyMessage
    ensures !loaded ==> status == EngineFailedPrefix + AttemptOutcome(fetch, init, MaxRetries).message
  {
    var notices, last;
    loaded, status, notices, last := LoadFFmpeg(fetch, init, 0);
    if !loaded {
      assert forall a :: 0 <= a <= MaxRetries ==> AttemptOutcome(fetch, init, a).AttemptFailed?;
    }
  }
}
