/**
 * How the server condenses the downloader's stderr into the `details` and
 * `fullError` fields of an error reply, and which `error` text a failed
 * download is given.
 */
module ServerDiagnostics {
  import opened Js

  /** A line the summary drops: a warning or a deprecation notice, in any letter case. */
  predicate IsNoise(line: string) {
    IncludesIgnoringCase(line, "warning") || IncludesIgnoringCase(line, "deprecated feature")
  }

  /** A line the summary may show: it has visible text and is not noise. */
  predicate IsReported(line: string) {
    Trim(line) != "" && !IsNoise(line)
  }

  /** A line that names a failure, in any letter case. */
  predicate IsCritical(line: string) {
    || IncludesIgnoringCase(line, "error")
    || IncludesIgnoringCase(line, "failed")
    || IncludesIgnoringCase(line, "forbidden")
    || IncludesIgnoringCase(line, "403")
  }

  /** `errorLines`: the reported lines of the log, in order. */
  function ReportedLines(log: string): seq<string> {
    Filter(Split(log, '\n'), IsReported)
  }

  /** `criticalErrors`: the reported lines that name a failure, in order. */
  function CriticalLines(log: string): seq<string> {
    Filter(ReportedLines(log), IsCritical)
  }

  /** How many trailing lines the summary falls back to, for the info and the download endpoint. */
  const InfoTailLines: nat := 3
  const DownloadTailLines: nat := 5

  /** How much of the raw log the summary falls back to, and how much `fullError` carries. */
  const RawSummaryLimit: nat := 500
  const FullErrorLimit: nat := 1000

  /**
   * `errorSummary`: the critical lines if there are any, else the last
   * `tailLines` reported lines, joined by newlines; when that is empty, the
   * start of the raw log.
   */
  function Summary(log: string, tailLines: nat): string {
    var critical := CriticalLines(log);
    var joined :=
      if |critical| > 0 then Join(critical, '\n')
      else Join(SliceFromEnd(ReportedLines(log), tailLines), '\n');
    if joined != "" then joined else Prefix(log, RawSummaryLimit)
  }

  /** The `details` field: the summary, or a fixed text when even that is empty. */
  function Details(log: string, tailLines: nat): (r: string)
    ensures r != ""
    ensures Summary(log, tailLines) != "" ==> r == Summary(log, tailLines)
    ensures Summary(log, tailLines) == "" ==> r == "Unknown error"
  {
    var summary := Summary(log, tailLines);
    if summary != "" then summary else "Unknown error"
  }

  /** The `fullError` field: the log cut to its first thousand characters. */
  function FullError(log: string): (r: string)
    ensures |r| <= FullErrorLimit && |r| <= |log| && r == log[..|r|]
    ensures |log| <= FullErrorLimit ==> r == log
    ensures |log| > FullErrorLimit ==> |r| == FullErrorLimit
  {
    Prefix(log, FullErrorLimit)
  }

  // ---------------------------------------------------------------------------
  // What the summary is made of
  // ---------------------------------------------------------------------------

  /** No line of the log, hence no line kept from it, contains a newline. */
  lemma LinesHaveNoNewline(log: string, lines: seq<string>)
    requires forall k :: 0 <= k < |lines| ==> lines[k] in Split(log, '\n')
    ensures forall k :: 0 <= k < |lines| ==> '\n' !in lines[k]
  {
    var pieces := Split(log, '\n');
    forall k | 0 <= k < |lines| ensures '\n' !in lines[k] {
      var j :| 0 <= j < |pieces| && pieces[j] == lines[k];
    }
  }

  /** Joining lines of which the first is non-empty gives a non-empty text. */
  lemma JoinNonEmpty(parts: seq<string>, sep: char)
    requires |parts| > 0 && parts[0] != ""
    ensures Join(parts, sep) != ""
  {
    if |parts| > 1 {
      assert Join(parts, sep) == parts[0] + [sep] + Join(parts[1..], sep);
    }
  }

  /** Reported lines are never empty strings. */
  lemma ReportedNotEmpty(line: string)
    requires IsReported(line)
    ensures line != ""
  {
  }

  /** No reported line contains a newline. */
  lemma ReportedHaveNoNewline(log: string)
    ensures forall k :: 0 <= k < |ReportedLines(log)| ==> '\n' !in ReportedLines(log)[k]
  {
    LinesHaveNoNewline(log, ReportedLines(log));
  }

  /** The critical lines are reported, name a failure and contain no newline. */
  lemma CriticalAreReported(log: string)
    ensures forall k :: 0 <= k < |CriticalLines(log)| ==>
      IsReported(CriticalLines(log)[k]) && IsCritical(CriticalLines(log)[k]) && '\n' !in CriticalLines(log)[k]
  {
    var reported := ReportedLines(log);
    var critical := CriticalLines(log);
    ReportedHaveNoNewline(log);
    forall k | 0 <= k < |critical|
      ensures IsReported(critical[k]) && IsCritical(critical[k]) && '\n' !in critical[k]
    {
      var j :| 0 <= j < |reported| && reported[j] == critical[k];
    }
  }

  /** When some line names a failure, the summary is exactly those lines, in the log's order. */
  lemma SummaryOfCriticalLines(log: string, tailLines: nat)
    requires |CriticalLines(log)| > 0
    ensures Split(Summary(log, tailLines), '\n') == CriticalLines(log)
    ensures forall line :: line in Split(Summary(log, tailLines), '\n') ==> IsReported(line) && IsCritical(line)
  {
    var critical := CriticalLines(log);
    CriticalAreReported(log);
    ReportedNotEmpty(critical[0]);
    JoinNonEmpty(critical, '\n');
    assert Summary(log, tailLines) == Join(critical, '\n');
    SplitJoin(critical, '\n');
  }

  /** Otherwise, when some line is reported, the summary is the last `tailLines` of them. */
  lemma SummaryOfLastLines(log: string, tailLines: nat)
    requires |CriticalLines(log)| == 0 && |ReportedLines(log)| > 0
    ensures Split(Summary(log, tailLines), '\n') == SliceFromEnd(ReportedLines(log), tailLines)
    ensures forall line :: line in Split(Summary(log, tailLines), '\n') ==> IsReported(line) && !IsCritical(line)
  {
    var lines := Split(log, '\n');
    var reported := ReportedLines(log);
    var tail := SliceFromEnd(reported, tailLines);
    forall line | line in tail ensures line in lines && IsReported(line) && !IsCritical(line) {
      SliceFromEndMember(reported, tailLines, line);
      FilterMember(lines, IsReported, line);
      FilterMember(reported, IsCritical, line);
    }
    LinesHaveNoNewline(log, tail);
    ReportedNotEmpty(tail[0]);
    JoinNonEmpty(tail, '\n');
    assert Summary(log, tailLines) == Join(tail, '\n');
    SplitJoin(tail, '\n');
  }

  /** When no line is reported at all, the summary is the first 500 characters of the log. */
  lemma SummaryOfRawLog(log: string, tailLines: nat)
    requires |ReportedLines(log)| == 0
    ensures Summary(log, tailLines) == Prefix(log, RawSummaryLimit)
    ensures |Summary(log, tailLines)| <= RawSummaryLimit
  {
  }

  /** Whenever the log has a reported line, the summary has no blank, warning or deprecation line. */
  lemma SummaryIsClean(log: string, tailLines: nat)
    requires |ReportedLines(log)| > 0
    ensures forall line :: line in Split(Summary(log, tailLines), '\n') ==>
      Trim(line) != "" && !IncludesIgnoringCase(line, "warning") && !IncludesIgnoringCase(line, "deprecated feature")
  {
    if |CriticalLines(log)| > 0 {
      SummaryOfCriticalLines(log, tailLines);
    } else {
      SummaryOfLastLines(log, tailLines);
    }
  }

  /** The `details` of a failed run: exactly the critical lines when there are any, else a clean tail, else the raw log. */
  lemma DetailsOfFailedRun(log: string, tailLines: nat)
    ensures |CriticalLines(log)| > 0 ==> Split(Details(log, tailLines), '\n') == CriticalLines(log)
    ensures |CriticalLines(log)| == 0 && |ReportedLines(log)| > 0 ==>
      Split(Details(log, tailLines), '\n') == SliceFromEnd(ReportedLines(log), tailLines)
    ensures |ReportedLines(log)| == 0 && log != "" ==> Details(log, tailLines) == Prefix(log, RawSummaryLimit)
    ensures log == "" ==> Details(log, tailLines) == "Unknown error"
  {
    if |CriticalLines(log)| > 0 {
      SummaryOfCriticalLines(log, tailLines);
      CriticalAreReported(log);
      ReportedNotEmpty(CriticalLines(log)[0]);
      assert Split("", '\n') == [""];
    } else if |ReportedLines(log)| > 0 {
      SummaryOfLastLines(log, tailLines);
      var tail := SliceFromEnd(ReportedLines(log), tailLines);
      ReportedNotEmpty(tail[0]);
      assert Split("", '\n') == [""];
    } else {
      SummaryOfRawLog(log, tailLines);
    }
  }

  // ---------------------------------------------------------------------------
  // The `error` text of a failed download
  // ---------------------------------------------------------------------------

  const AccessDeniedMessage := "YouTubeへのアクセスが拒否されました。しばらく待ってから再度お試しください。"
  const OldPythonMessage := "Pythonのバージョンが古い可能性があります。警告のみで動作する可能性があります。"
  const DownloadFailedMessage := "Failed to download video"

  /** An access refusal is recognised by `403` or `Forbidden`, with this exact case. */
  predicate MentionsAccessDenied(log: string) {
    Includes(log, "403") || Includes(log, "Forbidden")
  }

  /** The `error` text of a failed download: access refusal first, then an old Python, else a generic text. */
  function DownloadErrorMessage(log: string): (r: string)
    ensures r == AccessDeniedMessage <==> MentionsAccessDenied(log)
    ensures r == OldPythonMessage <==> !MentionsAccessDenied(log) && Includes(log, "Python version")
    ensures r == DownloadFailedMessage <==> !MentionsAccessDenied(log) && !Includes(log, "Python version")
  {
    if MentionsAccessDenied(log) then AccessDeniedMessage
    else if Includes(log, "Python version") then OldPythonMessage
    else DownloadFailedMessage
  }
}
