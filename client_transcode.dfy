/**
 * Converting one entry in the browser: the names of its virtual files, the
 * command line given to ffmpeg, the virtual file system of the ffmpeg
 * instance, `processAudio`, and the name the result gets in the archive.
 */
module ClientTranscode {
  import opened Wrappers
  import opened Js
  import opened ClientItems
  import opened Maps

  /** The conversion settings: bitrate (`128k`, ...) and output format (`mp3`, `m4a`, `wav`). */
  datatype Settings = Settings(bitrate: string, format: string)

  /** `input_<id>.<text after the last dot of the file name>`. */
  function InputFileName(id: string, fileName: string): string {
    "input_" + id + "." + AfterLast(fileName, '.')
  }

  /** `output_<id>.<format>`. */
  function OutputFileName(id: string, format: string): string {
    "output_" + id + "." + format
  }

  /** The input and output of one conversion never share a name. */
  lemma FileNamesDiffer(id: string, fileName: string, format: string)
    ensures InputFileName(id, fileName) != OutputFileName(id, format)
  {
    assert InputFileName(id, fileName)[0] == 'i';
    assert OutputFileName(id, format)[0] == 'o';
  }

  /** The bitrate option is given for every format except `wav`. */
  function TranscodeArgs(input: string, output: string, format: string, bitrate: string): seq<string> {
    ["-i", input] + (if format != "wav" then ["-b:a", bitrate] else []) + [output]
  }

  /** The argument list, built as the source builds it: the input, maybe the bitrate, then the output. */
  method BuildCommands(input: string, output: string, format: string, bitrate: string) returns (commands: seq<string>)
    ensures commands == TranscodeArgs(input, output, format, bitrate)
  {
    commands := ["-i", input];
    if format != "wav" {
      commands := commands + ["-b:a", bitrate];
    }
    commands := commands + [output];
  }

  /** The shape of the command line: input first, output last, and the bitrate exactly when not `wav`. */
  lemma TranscodeArgsShape(id: string, fileName: string, format: string, bitrate: string)
    ensures var args := TranscodeArgs(InputFileName(id, fileName), OutputFileName(id, format), format, bitrate);
      && args[0] == "-i" && args[1] == InputFileName(id, fileName)
      && args[|args| - 1] == OutputFileName(id, format)
      && (format == "wav" <==> |args| == 3)
      && (format != "wav" <==> |args| == 5 && args[2] == "-b:a" && args[3] == bitrate)
      && (format == "wav" <==> "-b:a" !in args)
  {
    var input := InputFileName(id, fileName);
    var output := OutputFileName(id, format);
    assert input[0] == 'i' && output[0] == 'o';
    assert input != "-b:a" && output != "-b:a";
  }

  // ---------------------------------------------------------------------------
  // The ffmpeg instance
  // ---------------------------------------------------------------------------

  /**
   * What running ffmpeg produces: the output bytes for a command line and
   * the bytes of its input, or nothing when the run fails.
   */
  type Converter = (seq<string>, seq<bv8>) -> Option<seq<bv8>>

  /** The ffmpeg instance and its in-memory file system. */
  class FFmpeg {
    var vfs: map<string, seq<bv8>>

    constructor ()
      ensures vfs == map[]
    {
      vfs := map[];
    }

    /** `writeFile`: creates or replaces a virtual file. */
    method WriteFile(name: string, data: seq<bv8>)
      modifies this
      ensures vfs == old(vfs)[name := data]
    {
      vfs := vfs[name := data];
    }

    /** `readFile` of a file that exists. */
    method ReadFile(name: string) returns (data: seq<bv8>)
      requires name in vfs
      ensures data == vfs[name]
    {
      data := vfs[name];
    }

    /** `deleteFile` of a file that exists. */
    method DeleteFile(name: string)
      requires name in vfs
      modifies this
      ensures vfs == old(vfs) - {name}
    {
      vfs := vfs - {name};
    }

    /**
     * `exec`: reads the file named after `-i`, converts it and writes the
     * file named by the last argument; reports whether the run succeeded.
     */
    method Exec(commands: seq<string>, convert: Converter) returns (ok: bool)
      modifies this
      ensures ok <==> (|commands| >= 2 && commands[0] == "-i" && commands[1] in old(vfs)
        && convert(commands, old(vfs)[commands[1]]).Some?)
      ensures ok ==> vfs == old(vfs)[commands[|commands| - 1] := convert(commands, old(vfs)[commands[1]]).value]
      ensures !ok ==> vfs == old(vfs)
    {
      if |commands| >= 2 && commands[0] == "-i" && commands[1] in vfs {
        match convert(commands, vfs[commands[1]])
        case Some(output) =>
          vfs := vfs[commands[|commands| - 1] := output];
          return true;
        case None =>
          return false;
      }
      return false;
    }
  }

  /** What converting an entry with the given settings gives: a blob of type `audio/<format>`, or nothing. */
  function Transcoded(item: FileItem, settings: Settings, convert: Converter): (r: Option<Blob>)
    ensures r.Some? ==> r.value.mimeType == "audio/" + settings.format
  {
    var args := TranscodeArgs(InputFileName(item.id, item.file.name), OutputFileName(item.id, settings.format),
                              settings.format, settings.bitrate);
    match convert(args, item.file.content.bytes)
    case None => None
    case Some(bytes) => Some(Blob(bytes, "audio/" + settings.format))
  }

  /**
   * `processAudio`: marks the entry processing, writes its file, runs
   * ffmpeg, and on success reads the output, deletes both virtual files
   * and marks the entry done with the result; on failure it marks the
   * entry as an error and leaves the input file behind.
   */
  method ProcessAudio(ffmpeg: FFmpeg, files: seq<FileItem>, item: FileItem, settings: Settings, convert: Converter)
    returns (newFiles: seq<FileItem>, result: Option<Blob>)
    modifies ffmpeg
    ensures result == Transcoded(item, settings, convert)
    ensures result.Some? ==> newFiles == UpdateFileStatus(files, item.id, Done, WithResult(result.value))
    ensures result.None? ==> newFiles == UpdateFileStatus(files, item.id, Failed, NoPatch)
    ensures var input := InputFileName(item.id, item.file.name);
      && (result.Some? ==> ffmpeg.vfs == old(ffmpeg.vfs) - {input, OutputFileName(item.id, settings.format)})
      && (result.None? ==> ffmpeg.vfs == old(ffmpeg.vfs)[input := item.file.content.bytes])
  {
    newFiles := UpdateFileStatus(files, item.id, Processing, NoPatch);
    var input := InputFileName(item.id, item.file.name);
    var output := OutputFileName(item.id, settings.format);
    FileNamesDiffer(item.id, item.file.name, settings.format);
    ffmpeg.WriteFile(input, item.file.content.bytes);
    var commands := BuildCommands(input, output, settings.format, settings.bitrate);
    var ok := ffmpeg.Exec(commands, convert);
    UpdateOverrides(files, item.id, Processing, Failed, NoPatch);
    if !ok {
      newFiles := UpdateFileStatus(newFiles, item.id, Failed, NoPatch);
      result := None;
      return;
    }
    var data := ffmpeg.ReadFile(output);
    WriteTwoThenRemove(old(ffmpeg.vfs), input, output, item.file.content.bytes, data);
    ffmpeg.DeleteFile(input);
    ffmpeg.DeleteFile(output);
    var blob := Blob(data, "audio/" + settings.format);
    UpdateOverrides(files, item.id, Processing, Done, WithResult(blob));
    newFiles := UpdateFileStatus(newFiles, item.id, Done, WithResult(blob));
    result := Some(blob);
  }

  // ---------------------------------------------------------------------------
  // The archive
  // ---------------------------------------------------------------------------

  /** The folder of the archive the results go into. */
  const ArchiveFolder := "converted_audio"

  /** `name.substring(0, name.lastIndexOf('.')) || 'audio'`. */
  function ArchiveBaseName(fileName: string): (r: string)
    ensures r != ""
  {
    var base := SubstringTo(fileName, LastIndexOf(fileName, '.'));
    if base != "" then base else "audio"
  }

  /** When the last dot is not the first character, the base name is the text before it. */
  lemma ArchiveBaseNameOfDotted(fileName: string)
    requires LastIndexOf(fileName, '.') > 0
    ensures ArchiveBaseName(fileName) == fileName[..LastIndexOf(fileName, '.')]
    ensures ArchiveBaseName(fileName) + "." + AfterLast(fileName, '.') == fileName
  {
    var i := LastIndexOf(fileName, '.');
    LastIndexOfMatchesSplit(fileName, '.');
    SplitAround(fileName, i);
    assert [fileName[i]] == ".";
  }

  /** A name without any dot is archived under `audio`. */
  lemma ArchiveBaseNameOfUndotted(fileName: string)
    requires '.' !in fileName
    ensures ArchiveBaseName(fileName) == "audio"
  {
    assert forall j :: 0 <= j < |fileName| ==> fileName[j] != '.';
    assert LastIndexOf(fileName, '.') == -1;
  }

  /** A name without a dot is archived as `audio`, as is a name that is only an extension. */
  lemma ArchiveBaseNameExamples()
    ensures ArchiveBaseName("song") == "audio"
    ensures ArchiveBaseName(".mp3") == "audio"
    ensures ArchiveBaseName("a.b.wav") == "a.b"
  {
    var dotted := "a.b.wav";
    assert dotted[3] == '.' && dotted[4] == 'w' && dotted[5] == 'a' && dotted[6] == 'v';
    assert LastIndexOf(dotted, '.') == 3;
    assert dotted[..3] == "a.b";
    var plain := "song";
    assert plain[0] == 's' && plain[1] == 'o' && plain[2] == 'n' && plain[3] == 'g';
    assert LastIndexOf(plain, '.') == -1;
    var hidden := ".mp3";
    assert hidden[0] == '.' && hidden[1] == 'm' && hidden[2] == 'p' && hidden[3] == '3';
    assert LastIndexOf(hidden, '.') == 0;
  }

  /** The archive entry of a converted entry: `converted_audio/<base>_(<bitrate>).<format>`. */
  function ArchiveEntryName(fileName: string, settings: Settings): string {
    ArchiveFolder + "/" + ArchiveBaseName(fileName) + "_(" + settings.bitrate + ")." + settings.format
  }

  /** A downloaded video's entry is archived under its safe title, when the title gives one. */
  lemma ArchiveNameOfDownloadedVideo(title: string, settings: Settings, format: string)
    requires '.' !in format && SafeTitle(title) != ""
    ensures ArchiveEntryName(SafeTitle(title) + "." + format, settings)
      == ArchiveFolder + "/" + SafeTitle(title) + "_(" + settings.bitrate + ")." + settings.format
  {
    var name := SafeTitle(title) + "." + format;
    SafeTitleHasNoSeparators(title);
    UrlItemExtension(title, format);
    LastIndexOfMatchesSplit(name, '.');
    var i := LastIndexOf(name, '.');
    assert name[|SafeTitle(title)|] == '.';
    assert i >= |SafeTitle(title)|;
    assert i == |SafeTitle(title)| by {
      assert forall j :: |SafeTitle(title)| < j < |name| ==> name[j] == format[j - |SafeTitle(title)| - 1];
    }
    assert name[..i] == SafeTitle(title);
  }
}
