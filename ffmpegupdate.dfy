/**
 * Keeping FFmpeg current (FfmpegUpdateService.cs): the build counts as stale when the local
 * ffmpeg.exe is missing or the latest "win64-gpl" release of yt-dlp's FFmpeg builds was
 * published more than 24 hours after the local file was written. Updating downloads the zip,
 * puts its ffmpeg.exe and ffprobe.exe into the Tools folder stamped with the publication time,
 * and deletes the zip.
 */
module FfmpegUpdate {
  import opened Wrappers
  import opened Text
  import opened Releases

  const UnknownVersion := "Ukjent"
  const CheckFailedText := "Feil ved sjekk"
  const DownloadingText := "Laster ned..."
  const UnpackingText := "Pakker ut..."
  const FinishedText := "Ferdig!"
  const FfmpegExe := "ffmpeg.exe"
  const FfprobeExe := "ffprobe.exe"
  /** `AddHours(24)`, with times in seconds. */
  const Day := 86400
  /** `default(DateTime)`, the publication time of an info that was never filled in. */
  const NoTime := 0

  /** `FfmpegUpdateInfo`; `None` stands for a download address left `null`. */
  datatype FfmpegUpdateInfo = FfmpegUpdateInfo(isNewVersionAvailable: bool, latestVersion: string,
                                               downloadUrl: Option<string>, publishedAt: int)

  /** The release fields the update check reads: `published_at` as a time and as the "yyyy-MM-dd" text
      it is shown as, and `assets`. A release without an "assets" property reads as one with
      no assets. */
  datatype BuildRelease = BuildRelease(published: int, publishedDay: string, assets: seq<Asset>)

  /** What the update check starts from, and returns with its version text replaced when it fails. */
  const Initial := FfmpegUpdateInfo(false, UnknownVersion, None, NoTime)

  /** The 64-bit GPL build, not the one linked against shared libraries. */
  predicate IsBuildName(name: string) {
    Contains(name, "win64-gpl.zip") && !Contains(name, "shared")
  }

  /** The local build is stale when there is none, or when the release was published more than
      a day after it was written. */
  predicate IsStale(localWrite: Option<int>, published: int) {
    localWrite.None? || published > localWrite.value + Day
  }

  /** A release at most a day newer than the local file does not count, and a day and a second
      does. */
  lemma StaleBoundary(written: int)
    ensures !IsStale(Some(written), written + Day)
    ensures IsStale(Some(written), written + Day + 1)
    ensures forall p :: p <= written + Day ==> !IsStale(Some(written), p)
  {
  }

  /** `CheckForUpdatesAsync` given the release answer (`None` when the request or the JSON
      fails) and the last write time of the local ffmpeg.exe (`None` when it is missing). */
  method CheckForUpdates(answer: Option<BuildRelease>, localWrite: Option<int>) returns (info: FfmpegUpdateInfo)
    ensures answer.None? ==> info == Initial.(latestVersion := CheckFailedText)
    ensures answer.Some? ==>
      var build := FirstAsset(answer.value.assets, IsBuildName);
      info == FfmpegUpdateInfo(IsStale(localWrite, answer.value.published), answer.value.publishedDay,
                               if build.Some? then Some(build.value.url) else None, answer.value.published)
  {
    info := Initial;
    if answer.None? {
      info := info.(latestVersion := CheckFailedText);
      return;
    }
    var release := answer.value;
    info := info.(latestVersion := release.publishedDay, publishedAt := release.published);
    var build := FindAsset(release.assets, IsBuildName);
    if build.Some? {
      info := info.(downloadUrl := Some(build.value.url));
    }
    if localWrite.None? {
      info := info.(isNewVersionAvailable := true);
    } else if release.published > localWrite.value + Day {
      info := info.(isNewVersionAvailable := true);
    }
  }

  /** A failed check offers neither an update nor a download. */
  lemma FailedCheckOffersNothing()
    ensures !Initial.(latestVersion := CheckFailedText).isNewVersionAvailable
    ensures Initial.(latestVersion := CheckFailedText).downloadUrl.None?
  {
  }

  // ---------------------------------------------------------------------------------------
  // Extraction

  /** An entry of the downloaded archive: its path inside the zip, its file name and bytes. */
  datatype ZipEntry = ZipEntry(fullName: string, name: string, content: seq<bv8>)

  /** A file in the Tools folder: its bytes and last write time. */
  datatype ToolFile = ToolFile(content: seq<bv8>, written: int)

  /** Where an entry goes: ffmpeg.exe when its path ends in "bin/ffmpeg.exe" or its name is
      ffmpeg.exe, else ffprobe.exe likewise, else nowhere. Case is ignored throughout. */
  function Destination(entry: ZipEntry): (r: Option<string>)
    ensures r.None? || r == Some(FfmpegExe) || r == Some(FfprobeExe)
    ensures r == Some(FfmpegExe) <==>
      EndsWithIgnoreCase(entry.fullName, "bin/ffmpeg.exe") || EqualsIgnoreCase(entry.name, FfmpegExe)
  {
    if EndsWithIgnoreCase(entry.fullName, "bin/ffmpeg.exe") || EqualsIgnoreCase(entry.name, FfmpegExe) then Some(FfmpegExe)
    else if EndsWithIgnoreCase(entry.fullName, "bin/ffprobe.exe") || EqualsIgnoreCase(entry.name, FfprobeExe) then Some(FfprobeExe)
    else None
  }

  /** The Tools folder after the entries are extracted in order, each stamped with `stamp`; a
      later entry for the same file overwrites an earlier one. */
  function Extracted(tools: map<string, ToolFile>, entries: seq<ZipEntry>, stamp: int): map<string, ToolFile>
    decreases |entries|
  {
    if entries == [] then tools
    else
      var before := Extracted(tools, entries[..|entries| - 1], stamp);
      var last := entries[|entries| - 1];
      match Destination(last)
      case None => before
      case Some(dest) => before[dest := ToolFile(last.content, stamp)]
  }

  /** Extraction touches only ffmpeg.exe and ffprobe.exe. */
  lemma {:induction false} ExtractedKeepsOthers(tools: map<string, ToolFile>, entries: seq<ZipEntry>, stamp: int, other: string)
    requires other != FfmpegExe && other != FfprobeExe
    ensures other in Extracted(tools, entries, stamp) <==> other in tools
    ensures other in tools ==> Extracted(tools, entries, stamp)[other] == tools[other]
    decreases |entries|
  {
    if entries != [] {
      ExtractedKeepsOthers(tools, entries[..|entries| - 1], stamp, other);
    }
  }

  /** A tool file is the last entry routed to it, stamped; with no entry routed to it, it is
      as it was. */
  lemma {:induction false} ExtractedLastWins(tools: map<string, ToolFile>, entries: seq<ZipEntry>, stamp: int, dest: string)
    ensures forall k :: 0 <= k < |entries| && Destination(entries[k]) == Some(dest) ==>
      dest in Extracted(tools, entries, stamp) && Extracted(tools, entries, stamp)[dest].written == stamp
    ensures (forall k :: 0 <= k < |entries| ==> Destination(entries[k]) != Some(dest)) ==>
      (dest in Extracted(tools, entries, stamp) <==> dest in tools)
      && (dest in tools ==> Extracted(tools, entries, stamp)[dest] == tools[dest])
    ensures |entries| > 0 && Destination(entries[|entries| - 1]) == Some(dest) ==>
      Extracted(tools, entries, stamp)[dest] == ToolFile(entries[|entries| - 1].content, stamp)
    decreases |entries|
  {
    if entries != [] {
      var init := entries[..|entries| - 1];
      ExtractedLastWins(tools, init, stamp, dest);
      assert forall k :: 0 <= k < |init| ==> init[k] == entries[k];
    }
  }

  /** The write time the next check reads for ffmpeg.exe. */
  function LocalWrite(tools: map<string, ToolFile>): Option<int> {
    if FfmpegExe in tools then Some(tools[FfmpegExe].written) else None
  }

  /** Once an archive with an ffmpeg.exe in it is extracted, checking the same release again
      finds nothing stale. */
  lemma UpdateThenCheckIsCurrent(tools: map<string, ToolFile>, entries: seq<ZipEntry>, published: int, k: nat)
    requires k < |entries| && Destination(entries[k]) == Some(FfmpegExe)
    ensures !IsStale(LocalWrite(Extracted(tools, entries, published)), published)
  {
    ExtractedLastWins(tools, entries, published, FfmpegExe);
  }

  /** How fetching the zip went: the download failed, the file is not a readable archive, or
      these are its entries. */
  datatype Fetched = DownloadFailed | Unreadable | Archive(entries: seq<ZipEntry>)

  /** The service and the two places it writes to. */
  class FfmpegUpdateService {
    /** The Tools folder, by file name. */
    var tools: map<string, ToolFile>
    /** Whether "ffmpeg_update.zip" is in the temporary folder. */
    var zipExists: bool

    constructor (tools: map<string, ToolFile>, zipExists: bool)
      ensures this.tools == tools && this.zipExists == zipExists
    {
      this.tools := tools;
      this.zipExists := zipExists;
    }

    /** The extraction loop: each routed entry replaces its tool file. */
    method ExtractAll(entries: seq<ZipEntry>, stamp: int)
      modifies this
      ensures tools == Extracted(old(tools), entries, stamp) && zipExists == old(zipExists)
    {
      var i := 0;
      while i < |entries|
        invariant 0 <= i <= |entries|
        invariant tools == Extracted(old(tools), entries[..i], stamp) && zipExists == old(zipExists)
      {
        assert entries[..i + 1][..i] == entries[..i];
        var entry := entries[i];
        assert entries[..i + 1][i] == entry;
        var dest := Destination(entry);
        if dest.Some? {
          tools := tools[dest.value := ToolFile(entry.content, stamp)];
        }
        i := i + 1;
      }
      assert entries[..i] == entries;
    }

    /** `UpdateFfmpegAsync(info, progress)`: the reports in order and whether it ended in an
        exception. Without a download address nothing happens; otherwise the zip is gone
        afterwards whatever happened. */
    method UpdateFfmpeg(info: FfmpegUpdateInfo, fetched: Fetched) returns (reports: seq<string>, faulted: bool)
      modifies this
      ensures info.downloadUrl.None? || info.downloadUrl == Some("") ==>
        reports == [] && !faulted && tools == old(tools) && zipExists == old(zipExists)
      ensures info.downloadUrl.Some? && info.downloadUrl.value != "" ==> !zipExists
      ensures info.downloadUrl.Some? && info.downloadUrl.value != "" && fetched.DownloadFailed? ==>
        reports == [DownloadingText] && faulted && tools == old(tools)
      ensures info.downloadUrl.Some? && info.downloadUrl.value != "" && fetched.Unreadable? ==>
        reports == [DownloadingText, UnpackingText] && faulted && tools == old(tools)
      ensures info.downloadUrl.Some? && info.downloadUrl.value != "" && fetched.Archive? ==>
        reports == [DownloadingText, UnpackingText, FinishedText] && !faulted
        && tools == Extracted(old(tools), fetched.entries, info.publishedAt)
    {
      reports := [];
      faulted := false;
      if info.downloadUrl.None? || info.downloadUrl.value == "" {
        return;
      }
      reports := reports + [DownloadingText];
      if fetched.DownloadFailed? {
        faulted := true;
      } else {
        zipExists := true;
        reports := reports + [UnpackingText];
        if fetched.Unreadable? {
          faulted := true;
        } else {
          ExtractAll(fetched.entries, info.publishedAt);
          reports := reports + [FinishedText];
        }
      }
      zipExists := false;
    }
  }
}
