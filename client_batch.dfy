/**
 * `handleProcessAndDownload`: every idle entry is converted in list order,
 * one at a time, each result is added to the archive, and the archive is
 * saved when at least one conversion succeeded.
 */
module ClientBatch {
  import opened Wrappers
  import opened Maps
  import opened Js
  import opened ClientItems
  import opened ClientTranscode

  predicate IsIdle(item: FileItem) {
    item.status == Idle
  }

  /** No two entries share an id, as ids are fresh random UUIDs. */
  predicate DistinctIds(files: seq<FileItem>) {
    forall i, j :: 0 <= i < j < |files| ==> files[i].id != files[j].id
  }

  // ---------------------------------------------------------------------------
  // One step of the loop, and the loop as a whole, on values
  // ---------------------------------------------------------------------------

  /** The list after `processAudio` has run on `item`: its id is marked done with the result, or as an error. */
  function AfterOne(files: seq<FileItem>, item: FileItem, settings: Settings, convert: Converter): seq<FileItem> {
    match Transcoded(item, settings, convert)
    case Some(blob) => UpdateFileStatus(files, item.id, Done, WithResult(blob))
    case None => UpdateFileStatus(files, item.id, Failed, NoPatch)
  }

  /** The list after the loop has run over `targets`, in order. */
  function AfterAll(files: seq<FileItem>, targets: seq<FileItem>, settings: Settings, convert: Converter): seq<FileItem>
    decreases |targets|
  {
    if targets == [] then files
    else AfterOne(AfterAll(files, targets[..|targets| - 1], settings, convert), targets[|targets| - 1], settings, convert)
  }

  /** How many of `targets` convert successfully. */
  function Successes(targets: seq<FileItem>, settings: Settings, convert: Converter): nat
    decreases |targets|
  {
    if targets == [] then 0
    else
      Successes(targets[..|targets| - 1], settings, convert)
      + (if Transcoded(targets[|targets| - 1], settings, convert).Some? then 1 else 0)
  }

  /** The archive folder after the loop: each successful result under its entry name, later ones replacing earlier ones. */
  function ArchiveOf(targets: seq<FileItem>, settings: Settings, convert: Converter): map<string, Blob>
    decreases |targets|
  {
    if targets == [] then map[]
    else
      var folder := ArchiveOf(targets[..|targets| - 1], settings, convert);
      var item := targets[|targets| - 1];
      match Transcoded(item, settings, convert)
      case Some(blob) => folder[ArchiveEntryName(item.file.name, settings) := blob]
      case None => folder
  }

  /** The virtual files after the loop: a success removes its two files, a failure leaves its input behind. */
  function VfsAfter(vfs: map<string, seq<bv8>>, targets: seq<FileItem>, settings: Settings, convert: Converter)
    : map<string, seq<bv8>>
    decreases |targets|
  {
    if targets == [] then vfs
    else
      var before := VfsAfter(vfs, targets[..|targets| - 1], settings, convert);
      var item := targets[|targets| - 1];
      var input := InputFileName(item.id, item.file.name);
      if Transcoded(item, settings, convert).Some? then before - {input, OutputFileName(item.id, settings.format)}
      else before[input := item.file.content.bytes]
  }

  /** Extending the targets by an entry that converts: its result is recorded, counted, archived, and its files removed. */
  lemma FoldStepConverted(files: seq<FileItem>, vfs: map<string, seq<bv8>>, targets: seq<FileItem>, i: nat,
                          settings: Settings, convert: Converter)
    requires i < |targets| && Transcoded(targets[i], settings, convert).Some?
    ensures var item := targets[i];
      var blob := Transcoded(item, settings, convert).value;
      && AfterAll(files, targets[..i + 1], settings, convert)
         == UpdateFileStatus(AfterAll(files, targets[..i], settings, convert), item.id, Done, WithResult(blob))
      && Successes(targets[..i + 1], settings, convert) == Successes(targets[..i], settings, convert) + 1
      && ArchiveOf(targets[..i + 1], settings, convert)
         == ArchiveOf(targets[..i], settings, convert)[ArchiveEntryName(item.file.name, settings) := blob]
      && VfsAfter(vfs, targets[..i + 1], settings, convert)
         == VfsAfter(vfs, targets[..i], settings, convert)
           - {InputFileName(item.id, item.file.name), OutputFileName(item.id, settings.format)}
  {
    assert targets[..i + 1][..i] == targets[..i];
  }

  /** Extending the targets by an entry that fails: it is marked failed, nothing is counted or archived, its input stays. */
  lemma FoldStepFailed(files: seq<FileItem>, vfs: map<string, seq<bv8>>, targets: seq<FileItem>, i: nat,
                       settings: Settings, convert: Converter)
    requires i < |targets| && Transcoded(targets[i], settings, convert).None?
    ensures var item := targets[i];
      && AfterAll(files, targets[..i + 1], settings, convert)
         == UpdateFileStatus(AfterAll(files, targets[..i], settings, convert), item.id, Failed, NoPatch)
      && Successes(targets[..i + 1], settings, convert) == Successes(targets[..i], settings, convert)
      && ArchiveOf(targets[..i + 1], settings, convert) == ArchiveOf(targets[..i], settings, convert)
      && VfsAfter(vfs, targets[..i + 1], settings, convert)
         == VfsAfter(vfs, targets[..i], settings, convert)[InputFileName(item.id, item.file.name) := item.file.content.bytes]
  {
    assert targets[..i + 1][..i] == targets[..i];
  }

  // ---------------------------------------------------------------------------
  // The handler
  // ---------------------------------------------------------------------------

  const ArchiveName := "audio_converted.zip"
  const NothingIdleMessage := "全てのファイルが処理済みです。"
  const AllFailedMessage := "処理に失敗しました。ログを確認してください。"
  const SavedMessage := "完了！ダウンロードを開始します。"

  /** How a batch ends: not started, nothing to convert, an archive saved under a name, or every conversion failed. */
  datatype BatchOutcome = NotStarted | NothingIdle | Saved(archiveName: string, entries: map<string, Blob>) | AllFailed

  /** The status message a batch ends with; a batch that does not start leaves the message as it was. */
  function OutcomeMessage(outcome: BatchOutcome): Option<string> {
    match outcome
    case NotStarted => None
    case NothingIdle => Some(NothingIdleMessage)
    case Saved(_, _) => Some(SavedMessage)
    case AllFailed => Some(AllFailedMessage)
  }

  /**
   * The batch: nothing happens with an empty list or before the engine has
   * loaded; with no idle entry it only reports; otherwise each idle entry
   * is converted in order, a failure not stopping the others, and the
   * archive is saved iff some conversion succeeded.
   */
  method ProcessAndDownload(ffmpeg: FFmpeg, files: seq<FileItem>, engineLoaded: bool, settings: Settings, convert: Converter)
    returns (newFiles: seq<FileItem>, successCount: nat, outcome: BatchOutcome)
    modifies ffmpeg
    ensures |files| == 0 || !engineLoaded ==>
      outcome == NotStarted && newFiles == files && successCount == 0 && ffmpeg.vfs == old(ffmpeg.vfs)
    ensures |files| > 0 && engineLoaded && Filter(files, IsIdle) == [] ==>
      outcome == NothingIdle && newFiles == files && successCount == 0 && ffmpeg.vfs == old(ffmpeg.vfs)
    ensures |files| > 0 && engineLoaded && Filter(files, IsIdle) != [] ==>
      var targets := Filter(files, IsIdle);
      && newFiles == AfterAll(files, targets, settings, convert)
      && successCount == Successes(targets, settings, convert)
      && ffmpeg.vfs == VfsAfter(old(ffmpeg.vfs), targets, settings, convert)
      && (successCount > 0 ==> outcome == Saved(ArchiveName, ArchiveOf(targets, settings, convert)))
      && (successCount == 0 ==> outcome == AllFailed)
  {
    if |files| == 0 || !engineLoaded {
      return files, 0, NotStarted;
    }
    var targets := Filter(files, IsIdle);
    if |targets| == 0 {
      return files, 0, NothingIdle;
    }
    var folder;
    newFiles, successCount, folder := ConvertAll(ffmpeg, files, targets, settings, convert);
    outcome := if successCount > 0 then Saved(ArchiveName, folder) else AllFailed;
  }

  /**
   * The loop of the batch: converts the targets one after the other,
   * updating the list, counting the successes and filling the archive
   * folder, whatever each conversion gives.
   */
  method ConvertAll(ffmpeg: FFmpeg, files: seq<FileItem>, targets: seq<FileItem>, settings: Settings, convert: Converter)
    returns (newFiles: seq<FileItem>, successCount: nat, folder: map<string, Blob>)
    modifies ffmpeg
    ensures newFiles == AfterAll(files, targets, settings, convert)
    ensures successCount == Successes(targets, settings, convert)
    ensures folder == ArchiveOf(targets, settings, convert)
    ensures ffmpeg.vfs == VfsAfter(old(ffmpeg.vfs), targets, settings, convert)
  {
    newFiles := files;
    successCount := 0;
    folder := map[];
    for i := 0 to |targets|
      invariant newFiles == AfterAll(files, targets[..i], settings, convert)
      invariant successCount == Successes(targets[..i], settings, convert)
      invariant folder == ArchiveOf(targets[..i], settings, convert)
      invariant ffmpeg.vfs == VfsAfter(old(ffmpeg.vfs), targets[..i], settings, convert)
    {
      var item := targets[i];
      var result;
      newFiles, result := ProcessAudio(ffmpeg, newFiles, item, settings, convert);
      if result.Some? {
        FoldStepConverted(files, old(ffmpeg.vfs), targets, i, settings, convert);
        folder := folder[ArchiveEntryName(item.file.name, settings) := result.value];
        successCount := successCount + 1;
      } else {
        FoldStepFailed(files, old(ffmpeg.vfs), targets, i, settings, convert);
      }
    }
    assert targets[..|targets|] == targets;
  }

  // ---------------------------------------------------------------------------
  // What the loop achieves
  // ---------------------------------------------------------------------------

  /** What the batch makes of one entry: an idle one becomes done with its result or an error; others stay. */
  function Settled(item: FileItem, settings: Settings, convert: Converter): (r: FileItem)
    ensures r.id == item.id && r.file == item.file && r.status != Idle
    ensures item.status != Idle ==> r == item
  {
    if item.status != Idle then item
    else match Transcoded(item, settings, convert)
      case Some(blob) => Updated(item, Done, WithResult(blob))
      case None => Updated(item, Failed, NoPatch)
  }

  /** The ids of a list of entries. */
  function IdsOf(items: seq<FileItem>): set<string> {
    set j | 0 <= j < |items| :: items[j].id
  }

  /** One more distinct idle entry converted: the settled entries grow by exactly that one. */
  lemma AfterOneSettles(files: seq<FileItem>, before: seq<FileItem>, ids: set<string>, item: FileItem,
                        settings: Settings, convert: Converter)
    requires DistinctIds(files) && |before| == |files|
    requires forall k :: 0 <= k < |files| ==>
      before[k] == (if files[k].id in ids then Settled(files[k], settings, convert) else files[k])
    requires item in files && IsIdle(item) && item.id !in ids
    ensures |AfterOne(before, item, settings, convert)| == |files|
    ensures forall k :: 0 <= k < |files| ==>
      AfterOne(before, item, settings, convert)[k]
        == (if files[k].id in ids + {item.id} then Settled(files[k], settings, convert) else files[k])
  {
    var after := AfterOne(before, item, settings, convert);
    var p :| 0 <= p < |files| && files[p] == item;
    forall k | 0 <= k < |files|
      ensures after[k] == (if files[k].id in ids + {item.id} then Settled(files[k], settings, convert) else files[k])
    {
      assert before[k].id == files[k].id;
      if files[k].id == item.id {
        assert k == p;
      }
    }
  }

  /** Dropping the last of some distinct idle targets leaves distinct idle targets that do not hold its id. */
  lemma SplitLastTarget(files: seq<FileItem>, targets: seq<FileItem>)
    requires targets != [] && DistinctIds(targets)
    requires forall j :: 0 <= j < |targets| ==> targets[j] in files && IsIdle(targets[j])
    ensures var init := targets[..|targets| - 1];
      && DistinctIds(init)
      && (forall j :: 0 <= j < |init| ==> init[j] in files && IsIdle(init[j]))
      && IdsOf(targets) == IdsOf(init) + {targets[|targets| - 1].id}
      && targets[|targets| - 1].id !in IdsOf(init)
  {
    var init := targets[..|targets| - 1];
    var last := targets[|targets| - 1];
    assert forall j :: 0 <= j < |init| ==> init[j] == targets[j];
    assert forall j :: 0 <= j < |init| ==> init[j].id != last.id;
    assert IdsOf(targets) == IdsOf(init) + {last.id} by {
      assert targets == init + [last];
    }
  }

  /** After converting some distinct idle entries of the list, exactly those entries are settled. */
  lemma {:induction false} AfterAllSettlesTargets(files: seq<FileItem>, targets: seq<FileItem>, settings: Settings, convert: Converter)
    requires DistinctIds(files) && DistinctIds(targets)
    requires forall j :: 0 <= j < |targets| ==> targets[j] in files && IsIdle(targets[j])
    ensures |AfterAll(files, targets, settings, convert)| == |files|
    ensures forall k :: 0 <= k < |files| ==>
      AfterAll(files, targets, settings, convert)[k]
        == (if files[k].id in IdsOf(targets) then Settled(files[k], settings, convert) else files[k])
    decreases |targets|
  {
    if targets != [] {
      var init := targets[..|targets| - 1];
      var last := targets[|targets| - 1];
      SplitLastTarget(files, targets);
      AfterAllSettlesTargets(files, init, settings, convert);
      assert AfterAll(files, targets, settings, convert)
        == AfterOne(AfterAll(files, init, settings, convert), last, settings, convert);
      AfterOneSettles(files, AfterAll(files, init, settings, convert), IdsOf(init), last, settings, convert);
    }
  }

  /** The positions kept by a filter are increasing, so the entries it keeps have distinct ids. */
  lemma IdleTargetsDistinct(files: seq<FileItem>)
    requires DistinctIds(files)
    ensures DistinctIds(Filter(files, IsIdle))
  {
    var targets := Filter(files, IsIdle);
    var ix := Positions(files, IsIdle, 0);
    FilterKeepsOrder(files, IsIdle);
    forall i, j | 0 <= i < j < |targets| ensures targets[i].id != targets[j].id {
      assert targets[i] == files[ix[i]] && targets[j] == files[ix[j]];
      assert ix[i] < ix[j];
    }
  }

  /**
   * The batch settles every entry: idle ones end done (with their result)
   * or as errors, and no other entry changes; none is left idle.
   */
  lemma BatchSettlesEveryEntry(files: seq<FileItem>, settings: Settings, convert: Converter)
    requires DistinctIds(files)
    ensures var after := AfterAll(files, Filter(files, IsIdle), settings, convert);
      && |after| == |files|
      && (forall k :: 0 <= k < |files| ==> after[k] == Settled(files[k], settings, convert))
      && (forall k :: 0 <= k < |files| ==> after[k].status != Idle)
  {
    var targets := Filter(files, IsIdle);
    IdleTargetsDistinct(files);
    AfterAllSettlesTargets(files, targets, settings, convert);
  }

  // ---------------------------------------------------------------------------
  // Counting successes
  // ---------------------------------------------------------------------------

  /** How many entries have the given status. */
  function CountStatus(files: seq<FileItem>, status: FileStatus): nat
    decreases |files|
  {
    if files == [] then 0
    else (if files[0].status == status then 1 else 0) + CountStatus(files[1..], status)
  }

  /** How many idle entries convert successfully. */
  function IdleSuccesses(files: seq<FileItem>, settings: Settings, convert: Converter): nat
    decreases |files|
  {
    if files == [] then 0
    else
      var here := if IsIdle(files[0]) && Transcoded(files[0], settings, convert).Some? then 1 else 0;
      here + IdleSuccesses(files[1..], settings, convert)
  }

  lemma {:induction false} SuccessesAppend(a: seq<FileItem>, b: seq<FileItem>, settings: Settings, convert: Converter)
    ensures Successes(a + b, settings, convert) == Successes(a, settings, convert) + Successes(b, settings, convert)
    decreases |b|
  {
    if b == [] {
      assert a + b == a;
    } else {
      SuccessesAppend(a, b[..|b| - 1], settings, convert);
      assert (a + b)[..|a + b| - 1] == a + b[..|b| - 1];
      assert (a + b)[|a + b| - 1] == b[|b| - 1];
    }
  }

  /** Counting the successes of the filtered targets is counting the idle successes of the list. */
  lemma {:induction false} SuccessesOfIdle(files: seq<FileItem>, settings: Settings, convert: Converter)
    ensures Successes(Filter(files, IsIdle), settings, convert) == IdleSuccesses(files, settings, convert)
    decreases |files|
  {
    if files != [] {
      SuccessesOfIdle(files[1..], settings, convert);
      var head: seq<FileItem> := if IsIdle(files[0]) then [files[0]] else [];
      assert Filter(files, IsIdle) == head + Filter(files[1..], IsIdle);
      SuccessesAppend(head, Filter(files[1..], IsIdle), settings, convert);
      if IsIdle(files[0]) {
        assert Successes(head, settings, convert) == Successes([], settings, convert)
          + (if Transcoded(files[0], settings, convert).Some? then 1 else 0) by {
          assert head[..0] == [];
        }
      }
    }
  }

  /** Settling adds one done entry per idle entry that converts. */
  lemma {:induction false} SettlingCountsDone(files: seq<FileItem>, after: seq<FileItem>, settings: Settings, convert: Converter)
    requires |after| == |files|
    requires forall k :: 0 <= k < |files| ==> after[k] == Settled(files[k], settings, convert)
    ensures CountStatus(after, Done) == CountStatus(files, Done) + IdleSuccesses(files, settings, convert)
    decreases |files|
  {
    if files != [] {
      SettlingCountsDone(files[1..], after[1..], settings, convert);
    }
  }

  /** `successCount` is the number of entries the batch brought to `'done'`. */
  lemma SuccessCountIsNewlyDone(files: seq<FileItem>, settings: Settings, convert: Converter)
    requires DistinctIds(files)
    ensures var targets := Filter(files, IsIdle);
      CountStatus(AfterAll(files, targets, settings, convert), Done)
        == CountStatus(files, Done) + Successes(targets, settings, convert)
  {
    BatchSettlesEveryEntry(files, settings, convert);
    SettlingCountsDone(files, AfterAll(files, Filter(files, IsIdle), settings, convert), settings, convert);
    SuccessesOfIdle(files, settings, convert);
  }

  // ---------------------------------------------------------------------------
  // The archive
  // ---------------------------------------------------------------------------

  /** The archive is empty exactly when no conversion succeeded. */
  lemma {:induction false} ArchiveEmptyIffNoSuccess(targets: seq<FileItem>, settings: Settings, convert: Converter)
    ensures ArchiveOf(targets, settings, convert) == map[] <==> Successes(targets, settings, convert) == 0
    decreases |targets|
  {
    if targets != [] {
      var init := targets[..|targets| - 1];
      ArchiveEmptyIffNoSuccess(init, settings, convert);
      var last := targets[|targets| - 1];
      if Transcoded(last, settings, convert).Some? {
        var name := ArchiveEntryName(last.file.name, settings);
        assert name in ArchiveOf(targets, settings, convert);
      }
    }
  }

  /** The archive never has more entries than there were successes: equal entry names collapse. */
  lemma {:induction false} ArchiveSizeBounded(targets: seq<FileItem>, settings: Settings, convert: Converter)
    ensures |ArchiveOf(targets, settings, convert).Keys| <= Successes(targets, settings, convert)
    decreases |targets|
  {
    if targets != [] {
      var init := targets[..|targets| - 1];
      ArchiveSizeBounded(init, settings, convert);
      var before := ArchiveOf(init, settings, convert);
      var last := targets[|targets| - 1];
      if Transcoded(last, settings, convert).Some? {
        var name := ArchiveEntryName(last.file.name, settings);
        assert before[name := Transcoded(last, settings, convert).value].Keys == before.Keys + {name};
      }
    }
  }

  /** Every successful entry's name is in the archive. */
  lemma {:induction false} ArchiveHoldsEverySuccess(targets: seq<FileItem>, settings: Settings, convert: Converter)
    ensures forall j :: 0 <= j < |targets| && Transcoded(targets[j], settings, convert).Some? ==>
      ArchiveEntryName(targets[j].file.name, settings) in ArchiveOf(targets, settings, convert)
    decreases |targets|
  {
    if targets != [] {
      var init := targets[..|targets| - 1];
      var last := targets[|targets| - 1];
      ArchiveHoldsEverySuccess(init, settings, convert);
      assert init + [last] == targets;
      ArchiveOfAppendOne(init, last, settings, convert);
      forall j | 0 <= j < |targets| && Transcoded(targets[j], settings, convert).Some?
        ensures ArchiveEntryName(targets[j].file.name, settings) in ArchiveOf(targets, settings, convert)
      {
        if j < |init| {
          assert targets[j] == init[j];
        }
      }
    }
  }

  /** One more entry: a success adds one to the count and its result under its entry name. */
  lemma ArchiveOfAppendOne(targets: seq<FileItem>, item: FileItem, settings: Settings, convert: Converter)
    ensures Successes(targets + [item], settings, convert)
      == Successes(targets, settings, convert) + (if Transcoded(item, settings, convert).Some? then 1 else 0)
    ensures ArchiveOf(targets + [item], settings, convert)
      == if Transcoded(item, settings, convert).Some?
         then ArchiveOf(targets, settings, convert)[ArchiveEntryName(item.file.name, settings) := Transcoded(item, settings, convert).value]
         else ArchiveOf(targets, settings, convert)
  {
    assert (targets + [item])[..|targets|] == targets;
  }

  /** Two successful entries with the same base name share one archive entry: the later replaces the earlier. */
  lemma ArchiveNamesCollide(first: FileItem, second: FileItem, settings: Settings, convert: Converter)
    requires Transcoded(first, settings, convert).Some? && Transcoded(second, settings, convert).Some?
    requires ArchiveEntryName(first.file.name, settings) == ArchiveEntryName(second.file.name, settings)
    ensures Successes([first, second], settings, convert) == 2
    ensures ArchiveOf([first, second], settings, convert)
      == map[ArchiveEntryName(second.file.name, settings) := Transcoded(second, settings, convert).value]
  {
    var name := ArchiveEntryName(second.file.name, settings);
    var a := Transcoded(first, settings, convert).value;
    var b := Transcoded(second, settings, convert).value;
    ArchiveOfAppendOne([], first, settings, convert);
    ArchiveOfAppendOne([first], second, settings, convert);
    assert [] + [first] == [first];
    assert [first] + [second] == [first, second];
    UpdateTwice(map[], name, a, b);
  }
}
