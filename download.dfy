/**
 * One download (YtDlpService.DownloadItemAsync): the progress normaliser as an object whose
 * methods consume one output line each, the names and arguments handed to the downloader, the
 * sweep of partial files after a cancellation, and the move of the finished file into the
 * output folder. The downloader process is given as a record of what it did: the lines it
 * printed, the files it left behind, and whether the user cancelled while it ran or after.
 */
module Download {
  import opened Wrappers
  import opened Text
  import opened Progress
  import opened FileNaming
  import opened Items

  // ---------------------------------------------------------------------------------------
  // The file system

  /** A file: its folder and its name in that folder. */
  datatype FilePath = FilePath(folder: string, name: string)

  type Content = seq<bv8>

  /** The files on disk, and those another process holds open so that deleting or moving them
      fails. */
  class FileSystem {
    var files: map<FilePath, Content>
    var locked: set<FilePath>

    constructor (files: map<FilePath, Content>, locked: set<FilePath>)
      ensures this.files == files && this.locked == locked
    {
      this.files := files;
      this.locked := locked;
    }

    /** `File.Delete`: removes the file, does nothing for a missing one, fails on a locked one. */
    method Delete(p: FilePath) returns (ok: bool)
      modifies this
      ensures locked == old(locked)
      ensures ok <==> p !in locked
      ensures files == if ok then old(files) - {p} else old(files)
    {
      ok := p !in locked;
      if ok {
        files := files - {p};
      }
    }

    /** `File.Move`: fails when the source is missing or locked or the destination exists. */
    method Move(src: FilePath, dest: FilePath) returns (ok: bool)
      modifies this
      ensures locked == old(locked)
      ensures ok <==> src in old(files) && src !in locked && dest !in old(files)
      ensures files == if ok then MovedFile(old(files), src, dest) else old(files)
    {
      ok := src in files && src !in locked && dest !in files;
      if ok {
        files := MovedFile(files, src, dest);
      }
    }

    /** The files a process writes appear, replacing any of the same path. */
    method Write(written: map<FilePath, Content>)
      modifies this
      ensures locked == old(locked)
      ensures files == old(files) + written
    {
      files := files + written;
    }
  }

  /** The files after `src` is renamed to `dest`. */
  function MovedFile(files: map<FilePath, Content>, src: FilePath, dest: FilePath): (r: map<FilePath, Content>)
    requires src in files
    ensures dest in r && r[dest] == files[src]
    ensures src != dest ==> src !in r
    ensures forall p :: p != src && p != dest ==> (p in r <==> p in files) && (p in r ==> r[p] == files[p])
  {
    (files - {src})[dest := files[src]]
  }

  // ---------------------------------------------------------------------------------------
  // The sweep after a cancellation

  /** The files `Directory.GetFiles(folder, pattern + "*")` lists: those in the folder whose
      names start with the pattern. */
  function Matches(files: map<FilePath, Content>, folder: string, pattern: string): (r: set<FilePath>)
    ensures forall p :: p in r <==> p in files && p.folder == folder && StartsWith(p.name, pattern)
  {
    set p | p in files.Keys && p.folder == folder && StartsWith(p.name, pattern)
  }

  /** The files left after trying to delete each of `doomed`: the locked ones stay. */
  function AfterSweep(files: map<FilePath, Content>, doomed: set<FilePath>, locked: set<FilePath>): (r: map<FilePath, Content>)
    ensures forall p :: p in r <==> p in files && (p !in doomed || p in locked)
    ensures forall p :: p in r ==> r[p] == files[p]
  {
    map p | p in files.Keys && (p !in doomed || p in locked) :: files[p]
  }

  datatype LogEvent = Deleted(path: FilePath) | DeleteFailed(path: FilePath) | ListingFailed

  /** Every file in `done` is logged once, as deleted when it was not locked and as a failure
      when it was; nothing else is logged. */
  predicate SweepLog(log: seq<LogEvent>, done: set<FilePath>, locked: set<FilePath>) {
    (forall k :: 0 <= k < |log| ==> log[k].Deleted? || log[k].DeleteFailed?)
    && (forall k :: 0 <= k < |log| ==> log[k].path in done && (log[k].Deleted? <==> log[k].path !in locked))
    && (forall p :: p in done ==> exists k :: 0 <= k < |log| && log[k].path == p)
    && (forall i, j :: 0 <= i < j < |log| ==> log[i].path != log[j].path)

  }

  lemma SweepStep(files: map<FilePath, Content>, done: set<FilePath>, locked: set<FilePath>, f: FilePath)
    requires f !in locked
    ensures AfterSweep(files, done + {f}, locked) == AfterSweep(files, done, locked) - {f}
  {
  }

  lemma SweepStepLocked(files: map<FilePath, Content>, done: set<FilePath>, locked: set<FilePath>, f: FilePath)
    requires f in locked
    ensures AfterSweep(files, done + {f}, locked) == AfterSweep(files, done, locked)
  {
  }

  lemma SweepLogStep(log: seq<LogEvent>, done: set<FilePath>, locked: set<FilePath>, event: LogEvent)
    requires SweepLog(log, done, locked)
    requires event.Deleted? || event.DeleteFailed?
    requires event.path !in done && (event.Deleted? <==> event.path !in locked)
    ensures SweepLog(log + [event], done + {event.path}, locked)
  {
    var log' := log + [event];
    assert log'[|log|] == event;
    forall p | p in done + {event.path} ensures exists k :: 0 <= k < |log'| && log'[k].path == p {
      if p == event.path {
        assert log'[|log|].path == p;
      } else {
        var k :| 0 <= k < |log| && log[k].path == p;
        assert log'[k] == log[k];
      }
    }
  }

  /** One attempt of the sweep: the file is deleted unless it is locked, and the attempt is
      logged. */
  lemma SweepAdvance(files0: map<FilePath, Content>, done: set<FilePath>, locked: set<FilePath>, f: FilePath,
                     before: map<FilePath, Content>, after: map<FilePath, Content>, ok: bool,
                     log: seq<LogEvent>, event: LogEvent)
    requires before == AfterSweep(files0, done, locked) && SweepLog(log, done, locked)
    requires f !in done && (ok <==> f !in locked)
    requires after == (if ok then before - {f} else before)
    requires event == (if ok then Deleted(f) else DeleteFailed(f))
    ensures after == AfterSweep(files0, done + {f}, locked)
    ensures SweepLog(log + [event], done + {f}, locked)
  {
    SweepLogStep(log, done, locked, event);
    if ok {
      SweepStep(files0, done, locked, f);
    } else {
      SweepStepLocked(files0, done, locked, f);
    }
  }

  /** Moving one element from the files still to do to those done keeps them apart and keeps
      their union. */
  lemma MoveOne(done: set<FilePath>, todo: set<FilePath>, f: FilePath)
    requires f in todo && done !! todo
    ensures (done + {f}) !! (todo - {f}) && (done + {f}) + (todo - {f}) == done + todo
    ensures |todo - {f}| < |todo|
  {
  }

  /** Deletes every listed file it can, logging each attempt and carrying on after a failure. */
  method Sweep(fs: FileSystem, folder: string, pattern: string) returns (log: seq<LogEvent>)
    modifies fs
    ensures fs.locked == old(fs.locked)
    ensures fs.files == AfterSweep(old(fs.files), Matches(old(fs.files), folder, pattern), fs.locked)
    ensures SweepLog(log, Matches(old(fs.files), folder, pattern), fs.locked)
  {
    var matches := Matches(fs.files, folder, pattern);
    ghost var files0 := fs.files;
    ghost var done: set<FilePath> := {};
    var todo := matches;
    log := [];
    while todo != {}
      invariant done !! todo && done + todo == matches
      invariant fs.locked == old(fs.locked)
      invariant fs.files == AfterSweep(files0, done, fs.locked)
      invariant SweepLog(log, done, fs.locked)
      decreases |todo|
    {
      var f :| f in todo;
      ghost var before := fs.files;
      var ok := fs.Delete(f);
      var event := if ok then Deleted(f) else DeleteFailed(f);
      SweepAdvance(files0, done, fs.locked, f, before, fs.files, ok, log, event);
      MoveOne(done, todo, f);
      log := log + [event];
      todo := todo - {f};
      done := done + {f};
    }
    assert done == matches;
  }

  /** The sweep deletes exactly the unlocked files in the temporary folder that start with the
      pattern; every other file keeps its content. */
  lemma SweepDeletesOnlyMatches(files: map<FilePath, Content>, folder: string, pattern: string, locked: set<FilePath>, p: FilePath)
    requires p in files
    ensures var r := AfterSweep(files, Matches(files, folder, pattern), locked);
      (p !in r <==> p.folder == folder && StartsWith(p.name, pattern) && p !in locked)
      && (p in r ==> r[p] == files[p])
  {
  }

  // ---------------------------------------------------------------------------------------
  // Finishing a download

  datatype Fault = StartFailed | MissingFile | DeleteFailedFault | MoveFailed

  /** The exception message when the downloader left no file behind. */
  const MissingFileText := "Fil ikke funnet etter nedlasting."

  /** The completion as written: delete whatever is at the destination, then move the temporary
      file there. The files afterwards and the fault, if any. */
  function CompletionAsWritten(files: map<FilePath, Content>, locked: set<FilePath>, src: FilePath, dest: FilePath): (map<FilePath, Content>, Option<Fault>)
  {
    if dest in files && dest in locked then (files, Some(DeleteFailedFault))
    else
      var cleared := files - {dest};
      if src in cleared && src !in locked then (MovedFile(cleared, src, dest), None)
      else (cleared, Some(MoveFailed))
  }

  /** When the temporary and output folders are the same, the destination is the downloaded file
      itself: it is deleted, the move then finds nothing, and the download is lost. */
  lemma SameFolderLosesFile(files: map<FilePath, Content>, locked: set<FilePath>, src: FilePath)
    requires src in files && src !in locked
    ensures CompletionAsWritten(files, locked, src, src).0 == files - {src}
    ensures CompletionAsWritten(files, locked, src, src).1 == Some(MoveFailed)
  {
  }

  /** The completion with the evidently intended behaviour: a file already in place stays. */
  function Completion(files: map<FilePath, Content>, locked: set<FilePath>, src: FilePath, dest: FilePath): (map<FilePath, Content>, Option<Fault>)
  {
    if src == dest then (files, None) else CompletionAsWritten(files, locked, src, dest)
  }

  /** A downloaded, unlocked file always ends at the destination with its content, leaves the
      temporary folder, and nothing else changes. */
  lemma CompletionDelivers(files: map<FilePath, Content>, locked: set<FilePath>, src: FilePath, dest: FilePath)
    requires src in files && src !in locked && dest !in locked
    ensures var (r, fault) := Completion(files, locked, src, dest);
      fault == None && dest in r && r[dest] == files[src] && (src != dest ==> src !in r)
      && forall p :: p != src && p != dest ==> (p in r <==> p in files) && (p in r ==> r[p] == files[p])
  {
  }

  /** The completion as the service runs it: deletes whatever is at the destination, then
      moves the temporary file there. */
  method Complete(fs: FileSystem, src: FilePath, dest: FilePath) returns (fault: Option<Fault>)
    modifies fs
    ensures fs.locked == old(fs.locked)
    ensures (fs.files, fault) == CompletionAsWritten(old(fs.files), old(fs.locked), src, dest)
  {
    fault := None;
    if dest in fs.files {
      var deleted := fs.Delete(dest);
      if !deleted {
        fault := Some(DeleteFailedFault);
        return;
      }
    }
    assert fs.files == old(fs.files) - {dest};
    var moved := fs.Move(src, dest);
    if !moved {
      fault := Some(MoveFailed);
    }
  }

  // ---------------------------------------------------------------------------------------
  // The service

  /** What the service reads from the application settings and the platform. */
  datatype Settings = Settings(
    useSystemTemp: bool,
    tempFolder: string,
    outputFolder: string,
    systemTemp: string,       // Path.GetTempPath()
    invalidChars: set<char>,  // Path.GetInvalidFileNameChars()
    ffmpegPath: string)

  /** What the downloader process did: the lines it printed (in order), the files it wrote,
      whether it could not be started, whether the user cancelled while it ran, and whether
      the cancellation was only seen after it had exited. */
  datatype ProcessRun = ProcessRun(
    lines: seq<string>,
    written: map<FilePath, Content>,
    startFails: bool,
    canceledWhileRunning: bool,
    canceledAfterExit: bool,
    listingFails: bool)

  datatype DownloadEnd = Returned | Canceled | Faulted(fault: Fault)

  /** The downloader's command line: write to `outputPath`, remux to MKV, sort formats by
      `selector`, embed subtitles and thumbnail, tag the audio language, print progress one
      line at a time, and fetch `url`. */
  function Arguments(outputPath: string, selector: string, langCode: string, ffmpegPath: string, url: string): string
  {
    ArgumentsHead(outputPath) + ArgumentsMiddle(selector, langCode, ffmpegPath) + ArgumentsTail(url)
  }

  /** The output template, quoted. */
  function ArgumentsHead(outputPath: string): string {
    "-o \"" + outputPath + "\""
  }

  /** The options between the output template and the progress options. */
  function ArgumentsMiddle(selector: string, langCode: string, ffmpegPath: string): string {
    " --remux-video mkv -S " + selector
      + " --embed-subs --embed-thumbnail --no-mtime --convert-subs srt"
      + " --postprocessor-args \"FFmpeg:-metadata:s:a:0 language=" + langCode + "\""
      + " --ffmpeg-location \"" + ffmpegPath + "\" "
  }

  /** Progress one line at a time, and the quoted address. */
  function ArgumentsTail(url: string): string {
    "--progress --newline \"" + url + "\""
  }

  /** The command line starts with the output template and ends with the progress options and
      the address. */
  lemma ArgumentsFrame(outputPath: string, selector: string, langCode: string, ffmpegPath: string, url: string)
    ensures StartsWith(Arguments(outputPath, selector, langCode, ffmpegPath, url), ArgumentsHead(outputPath))
    ensures EndsWith(Arguments(outputPath, selector, langCode, ffmpegPath, url), ArgumentsTail(url))
  {
    ConcatEnds(ArgumentsHead(outputPath), ArgumentsMiddle(selector, langCode, ffmpegPath), ArgumentsTail(url));
  }

  lemma ConcatEnds(a: string, m: string, t: string)
    ensures StartsWith(a + m + t, a) && EndsWith(a + m + t, t)
  {
    assert (a + m + t)[..|a|] == a;
    assert (a + m + t)[|a + m + t| - |t|..] == t;
  }

  /** How a download that started ends once the downloader has exited, from the files then on
      disk (`after`) and the normalised reports (`before`): a cancellation while it ran sweeps
      the partial files; one seen only after it exited leaves everything; a missing final file
      is reported as a failure; otherwise the file is moved into the output folder. */
  ghost predicate Concluded(run: ProcessRun, after: map<FilePath, Content>, locked: set<FilePath>,
                            temp: string, pattern: string, src: FilePath, dest: FilePath, before: seq<Report>,
                            reports: seq<Report>, end: DownloadEnd, log: seq<LogEvent>, files: map<FilePath, Content>)
  {
    if run.canceledWhileRunning then
      reports == before && end == Canceled
      && (if run.listingFails then files == after && log == [ListingFailed]
          else files == AfterSweep(after, Matches(after, temp, pattern), locked)
               && SweepLog(log, Matches(after, temp, pattern), locked))
    else if run.canceledAfterExit then
      reports == before && end == Returned && files == after && log == []
    else if src !in after then
      reports == before + [Status(Plain(FailedText))]
      && end == Faulted(MissingFile) && files == after && log == []
    else
      var (moved, fault) := CompletionAsWritten(after, locked, src, dest);
      files == moved && log == []
      && (if fault.None? then
            reports == before + [Status(Plain(DoneText)), Percent(100.0)] && end == Returned
          else reports == before && end == Faulted(fault.value))
  }

  class YtDlpService {
    const settings: Settings
    var mediaFileCounter: int
    var isIgnoringCurrentFile: bool
    var maxReportedPercent: real

    /** The normaliser's state. */
    function State(): ProgressState
      reads this
    {
      ProgressState(mediaFileCounter, isIgnoringCurrentFile, maxReportedPercent)
    }

    constructor (settings: Settings)
      requires DotIsValid(settings.invalidChars)
      ensures this.settings == settings && State() == Initial
    {
      this.settings := settings;
      mediaFileCounter := 0;
      isIgnoringCurrentFile := false;
      maxReportedPercent := 0.0;
    }

    /** Counts a media destination line, and starts or stops ignoring at destination lines. */
    method DetectMediaFile(line: string)
      modifies this
      ensures State() == Progress.DetectMediaFile(old(State()), line)
    {
      if IsDestinationLine(line) {
        if NamesSidecar(line) {
          isIgnoringCurrentFile := true;
          return;
        }
        isIgnoringCurrentFile := false;
        mediaFileCounter := mediaFileCounter + 1;
      }
    }

    /** Turns one line into the reports it causes: a scaled, never falling percentage for a
        download line outside a sidecar, and the finalize pair for a merge or remux marker. */
    method ParseProgress(line: string) returns (reports: seq<Report>)
      modifies this
      ensures State() == Progress.ParseProgress(old(State()), line).state
      ensures reports == Progress.ParseProgress(old(State()), line).reports
    {
      reports := [];
      var m := DownloadPercent(line);
      if m.Some? {
        if isIgnoringCurrentFile {
          return;
        }
        var calculated := Scaled(mediaFileCounter, m.value);
        if calculated < maxReportedPercent {
          calculated := maxReportedPercent;
        } else {
          maxReportedPercent := calculated;
        }
        if calculated > 99.0 {
          calculated := 99.0;
        }
        reports := [Percent(calculated), Status(DownloadingAt(calculated))];
      }
      if IsFinalizeLine(line) {
        reports := reports + [Status(Plain(FinalizingText)), Percent(100.0)];
      }
    }

    /** Feeds the downloader's output to the normaliser line by line, skipping empty lines; the
        state and the reports are exactly those of the line-by-line specification. */
    method Normalise(lines: seq<string>) returns (reports: seq<Report>)
      modifies this
      ensures State() == Run(old(State()), lines).state
      ensures reports == Run(old(State()), lines).reports
    {
      ghost var s0 := State();
      reports := [];
      var i := 0;
      while i < |lines|
        invariant 0 <= i <= |lines|
        invariant State() == Run(s0, lines[..i]).state
        invariant reports == Run(s0, lines[..i]).reports
      {
        var line := lines[i];
        assert lines[..i + 1][..i] == lines[..i];
        if line != "" {
          DetectMediaFile(line);
          var rs := ParseProgress(line);
          reports := reports + rs;
        } else {
          EmptyLineIsInert(State());
        }
        i := i + 1;
      }
      assert lines[..i] == lines;
    }

    /** The command line the downloader is started with for `item`: the final file in the
        temporary folder as the output template, the format selector of the chosen resolution
        and the code of the chosen audio language. */
    function CommandLine(item: DownloadItem): string
      requires DotIsValid(settings.invalidChars)
      reads item
    {
      var temp := TempDirectory(settings.useSystemTemp, settings.tempFolder, settings.systemTemp);
      var name := FinalFileName(settings.invalidChars, item.title, item.seasonEpisode, item.selectedResolution);
      Arguments(Combine(temp, name), FormatSelector(item.selectedResolution),
                LanguageCode(item.selectedLanguage), settings.ffmpegPath, item.url)
    }

    /** The downloader writes the final name into the temporary folder, and the command line
        ends with the progress options and the item's address. */
    lemma CommandLineTargetsTempFile(item: DownloadItem)
      requires DotIsValid(settings.invalidChars)
      ensures var temp := TempDirectory(settings.useSystemTemp, settings.tempFolder, settings.systemTemp);
        var name := FinalFileName(settings.invalidChars, item.title, item.seasonEpisode, item.selectedResolution);
        StartsWith(CommandLine(item), ArgumentsHead(Combine(temp, name)))
        && EndsWith(Combine(temp, name), name)
        && EndsWith(CommandLine(item), ArgumentsTail(item.url))
    {
      var temp := TempDirectory(settings.useSystemTemp, settings.tempFolder, settings.systemTemp);
      var name := FinalFileName(settings.invalidChars, item.title, item.seasonEpisode, item.selectedResolution);
      ArgumentsFrame(Combine(temp, name), FormatSelector(item.selectedResolution),
                     LanguageCode(item.selectedLanguage), settings.ffmpegPath, item.url);
    }

    /** A whole download of `item`, the downloader started with `CommandLine(item)`. */
    method Download(item: DownloadItem, run: ProcessRun, fs: FileSystem)
      returns (reports: seq<Report>, end: DownloadEnd, log: seq<LogEvent>)
      requires DotIsValid(settings.invalidChars)
      modifies this, fs
      ensures fs.locked == old(fs.locked)
      ensures var temp := TempDirectory(settings.useSystemTemp, settings.tempFolder, settings.systemTemp);
        var name := FinalFileName(settings.invalidChars, item.title, item.seasonEpisode, item.selectedResolution);
        var pattern := CleanupPattern(settings.invalidChars, item.title, item.seasonEpisode);
        var src := FilePath(temp, name);
        var dest := FilePath(settings.outputFolder, name);
        var after := old(fs.files) + run.written;
        var normalised := Run(Initial, run.lines);
        (if run.startFails then
              State() == Initial && reports == [] && end == Faulted(StartFailed)
              && fs.files == old(fs.files) && log == []
            else
              State() == normalised.state
              && Concluded(run, after, fs.locked, temp, pattern, src, dest, normalised.reports,
                           reports, end, log, fs.files))
    {
      var temp := TempDirectory(settings.useSystemTemp, settings.tempFolder, settings.systemTemp);
      var name := FinalFileName(settings.invalidChars, item.title, item.seasonEpisode, item.selectedResolution);
      var src := FilePath(temp, name);
      var pattern := CleanupPattern(settings.invalidChars, item.title, item.seasonEpisode);
      mediaFileCounter, isIgnoringCurrentFile, maxReportedPercent := 0, false, 0.0;
      log := [];
      if run.startFails {
        reports := [];
        end := Faulted(StartFailed);
        return;
      }
      reports := Normalise(run.lines);
      fs.Write(run.written);
      var dest := FilePath(settings.outputFolder, name);
      reports, end, log := Conclude(run, fs, temp, pattern, src, dest, reports);
    }

    /** What happens once the downloader has exited, its files on disk and its output
        normalised into `before`: the sweep after a cancellation, nothing after a late one,
        the failure report when the file is missing, and otherwise the completion. */
    method Conclude(run: ProcessRun, fs: FileSystem, temp: string, pattern: string, src: FilePath, dest: FilePath,
                    before: seq<Report>)
      returns (reports: seq<Report>, end: DownloadEnd, log: seq<LogEvent>)
      modifies fs
      ensures fs.locked == old(fs.locked)
      ensures Concluded(run, old(fs.files), fs.locked, temp, pattern, src, dest, before, reports, end, log, fs.files)
    {
      reports := before;
      log := [];
      if run.canceledWhileRunning {
        end := Canceled;
        if run.listingFails {
          log := [ListingFailed];
        } else {
          log := Sweep(fs, temp, pattern);
        }
        return;
      }
      if run.canceledAfterExit {
        end := Returned;
        return;
      }
      if src in fs.files {
        var fault := Complete(fs, src, dest);
        if fault.None? {
          reports := reports + [Status(Plain(DoneText)), Percent(100.0)];
          end := Returned;
        } else {
          end := Faulted(fault.value);
        }
      } else {
        reports := reports + [Status(Plain(FailedText))];
        end := Faulted(MissingFile);
      }
    }
  }

  // ---------------------------------------------------------------------------------------
  // Properties of a whole download

  /** Whatever way a started download concludes, every percentage it reports is in [0, 100]. */
  lemma DownloadPercentsInRange(run: ProcessRun, after: map<FilePath, Content>, locked: set<FilePath>,
                                temp: string, pattern: string, src: FilePath, dest: FilePath,
                                reports: seq<Report>, end: DownloadEnd, log: seq<LogEvent>, files: map<FilePath, Content>)
    requires Concluded(run, after, locked, temp, pattern, src, dest, Run(Initial, run.lines).reports, reports, end, log, files)
    ensures PercentsInRange(reports)
  {
    var before := Run(Initial, run.lines).reports;
    RunPercentsInRange(run.lines);
    if reports == before + [Status(Plain(FailedText))] {
      PercentsInRangeConcat(before, [Status(Plain(FailedText))]);
    } else if reports != before {
      var tail := [Status(Plain(DoneText)), Percent(100.0)];
      assert reports == before + tail;
      assert PercentsInRange(tail);
      PercentsInRangeConcat(before, tail);
    }
  }

  /** When the temporary folder is the output folder, a download that ran to the end without a
      cancellation deletes its own file and then fails to move it: the item faults and the file
      is gone. */
  lemma SameFolderDownloadFails(run: ProcessRun, after: map<FilePath, Content>, locked: set<FilePath>,
                                temp: string, pattern: string, src: FilePath, before: seq<Report>,
                                reports: seq<Report>, end: DownloadEnd, log: seq<LogEvent>, files: map<FilePath, Content>)
    requires !run.canceledWhileRunning && !run.canceledAfterExit && src in after && src !in locked
    requires Concluded(run, after, locked, temp, pattern, src, src, before, reports, end, log, files)
    ensures end == Faulted(MoveFailed) && reports == before && src !in files
  {
    SameFolderLosesFile(after, locked, src);
  }

  /** A cancelled download removes the finished file from the temporary folder, unless it is
      locked, whenever the base name has no dot tail. */
  lemma CancelRemovesFinalFile(inv: set<char>, files: map<FilePath, Content>, locked: set<FilePath>, temp: string,
                               title: string, seasonEpisode: string, resolution: string)
    requires DotIsValid(inv)
    requires NoDotTail(FileNameBase(title, seasonEpisode))
    ensures var src := FilePath(temp, FinalFileName(inv, title, seasonEpisode, resolution));
      var r := AfterSweep(files, Matches(files, temp, CleanupPattern(inv, title, seasonEpisode)), locked);
      src !in locked ==> src !in r
  {
    CleanupPatternBeginsFinalName(inv, title, seasonEpisode, resolution);
  }
}
