/**
 * Keeping yt-dlp current (UpdateService.cs): the installed version is what `yt-dlp --version`
 * prints, the latest is the tag of yt-dlp's latest GitHub release, and the two are compared as
 * strings. Updating downloads the release's "yt-dlp.exe", or lets yt-dlp update itself when no
 * download address is known.
 */
module YtDlpUpdate {
  import opened Wrappers
  import opened Text
  import opened Releases

  const NotInstalled := "Ikke installert"
  const UnknownVersion := "Ukjent"
  const CheckFailedText := "Kunne ikke sjekke"
  const ExeName := "yt-dlp.exe"
  const MissingUrlText := "Mangler nedlastings-URL og filen finnes ikke."
  const DownloadedText := "yt-dlp er lastet ned og oppdatert!"
  const DownloadErrorPrefix := "Feil under nedlasting: "
  const ProcessErrorPrefix := "Feil: "
  /** `Environment.NewLine` on Windows. */
  const NewLine := "\r\n"

  /** `ToolUpdateInfo`; `None` stands for a property left `null`. */
  datatype ToolUpdateInfo = ToolUpdateInfo(isNewVersionAvailable: bool, latestVersion: Option<string>,
                                           currentVersion: Option<string>, downloadUrl: Option<string>)

  /** The release fields the update check reads: `tag_name` and `assets`. A release without an
      "assets" property reads as one with no assets. */
  datatype ToolRelease = ToolRelease(tagName: string, assets: seq<Asset>)

  /** `GetYtDlpVersionAsync`: `output` is what `yt-dlp --version` printed, or `None` when the
      process could not be run or read. */
  function YtDlpVersion(exeExists: bool, output: Option<string>): (r: string)
    ensures !exeExists ==> r == NotInstalled
    ensures exeExists && output.None? ==> r == UnknownVersion
    ensures exeExists && output.Some? ==> IsInfix(r, output.value)
    ensures exeExists && output.Some? ==> r == [] || (!IsWhiteSpace(r[0]) && !IsWhiteSpace(r[|r| - 1]))
    ensures exeExists && output.Some? ==> r == Trim(output.value)
  {
    if !exeExists then NotInstalled
    else
      match output
      case None => UnknownVersion
      case Some(text) => Trim(text)
  }

  /** Whether the update check offers an update: always when yt-dlp is missing or its version could
      not be read, otherwise exactly when the versions differ ignoring case. */
  predicate NeedsUpdate(current: string, latest: string) {
    if current == NotInstalled || current == UnknownVersion then true
    else !EqualsIgnoreCase(current, latest)
  }

  /** Equality ignoring case is an equivalence. */
  lemma EqualsIgnoreCaseIsEquivalence(a: string, b: string, c: string)
    ensures EqualsIgnoreCase(a, a)
    ensures EqualsIgnoreCase(a, b) ==> EqualsIgnoreCase(b, a)
    ensures EqualsIgnoreCase(a, b) && EqualsIgnoreCase(b, c) ==> EqualsIgnoreCase(a, c)
  {
  }

  /** An installed yt-dlp whose version reads like the latest tag, in any case, is current, and
      the answer does not depend on which of the two is which. */
  lemma NeedsUpdateSymmetric(current: string, latest: string)
    requires current != NotInstalled && current != UnknownVersion
    requires latest != NotInstalled && latest != UnknownVersion
    ensures NeedsUpdate(current, latest) == NeedsUpdate(latest, current)
    ensures !NeedsUpdate(current, current)
  {
    EqualsIgnoreCaseIsEquivalence(current, latest, current);
  }

  /** The release asset to download: exactly "yt-dlp.exe". */
  predicate IsExeName(name: string) {
    name == ExeName
  }

  /** `CheckForYtDlpUpdateAsync` given the installed version and the release answer (`None`
      when the request or the JSON fails). The info is filled field by field as the answer is
      read; a failure keeps the installed version and offers no update. */
  method CheckForYtDlpUpdate(current: string, answer: Option<ToolRelease>) returns (info: ToolUpdateInfo)
    ensures answer.None? ==> info == ToolUpdateInfo(false, Some(CheckFailedText), Some(current), None)
    ensures answer.Some? ==>
      var exe := FirstAsset(answer.value.assets, IsExeName);
      info == ToolUpdateInfo(NeedsUpdate(current, answer.value.tagName), Some(answer.value.tagName),
                             Some(current), if exe.Some? then Some(exe.value.url) else None)
  {
    info := ToolUpdateInfo(false, None, Some(current), None);
    if answer.None? {
      info := info.(latestVersion := Some(CheckFailedText));
      return;
    }
    var release := answer.value;
    info := info.(latestVersion := Some(release.tagName));
    var exe := FindAsset(release.assets, IsExeName);
    if exe.Some? {
      info := info.(downloadUrl := Some(exe.value.url));
    }
    if current == NotInstalled || current == UnknownVersion {
      info := info.(isNewVersionAvailable := true);
    } else {
      info := info.(isNewVersionAvailable := !EqualsIgnoreCase(current, release.tagName));
    }
  }

  /** A missing yt-dlp is always offered for download once the release is read. */
  lemma MissingToolIsOffered(answer: ToolRelease)
    ensures NeedsUpdate(YtDlpVersion(false, None), answer.tagName)
  {
  }

  // ---------------------------------------------------------------------------------------
  // Updating

  /** Which way `UpdateYtDlpAsync` goes. */
  datatype UpdateRoute = MissingUrl | SelfUpdate | FromRelease(url: string)

  /** With a download address it always downloads; without one it lets an existing yt-dlp
      update itself, and gives up when there is none. */
  function Route(info: Option<ToolUpdateInfo>, exeExists: bool): (r: UpdateRoute)
    ensures r.FromRelease? <==> info.Some? && info.value.downloadUrl.Some? && info.value.downloadUrl.value != ""
    ensures r.FromRelease? ==> Some(r.url) == info.value.downloadUrl
    ensures r.MissingUrl? <==> !r.FromRelease? && !exeExists
    ensures r.SelfUpdate? <==> !r.FromRelease? && exeExists
  {
    if info.None? || info.value.downloadUrl.None? || info.value.downloadUrl.value == "" then
      if !exeExists then MissingUrl else SelfUpdate
    else FromRelease(info.value.downloadUrl.value)
  }

  /** How the download or the self-update went: the bytes fetched or the error message, and
      the two output streams of `yt-dlp --update` or the error message. */
  datatype UpdateRun = UpdateRun(download: Result<seq<bv8>, string>, selfUpdate: Result<(string, string), string>)

  /** The message `UpdateYtDlpAsync` returns and the bytes it writes over yt-dlp.exe, if any. */
  function UpdateYtDlp(info: Option<ToolUpdateInfo>, exeExists: bool, run: UpdateRun): (r: (string, Option<seq<bv8>>))
    ensures r.1.Some? <==> Route(info, exeExists).FromRelease? && run.download.Success?
    ensures r.1.Some? ==> r.0 == DownloadedText && r.1.value == run.download.value
    ensures Route(info, exeExists).MissingUrl? ==> r.0 == MissingUrlText
    ensures Route(info, exeExists).SelfUpdate? && run.selfUpdate.Success? ==>
      r.0 == run.selfUpdate.value.0 + NewLine + run.selfUpdate.value.1
    ensures Route(info, exeExists).SelfUpdate? && run.selfUpdate.Failure? ==>
      r.0 == ProcessErrorPrefix + run.selfUpdate.error
    ensures Route(info, exeExists).FromRelease? && run.download.Failure? ==>
      r.0 == DownloadErrorPrefix + run.download.error
  {
    match Route(info, exeExists)
    case MissingUrl => (MissingUrlText, None)
    case SelfUpdate =>
      (match run.selfUpdate
       case Success((output, error)) => (output + NewLine + error, None)
       case Failure(message) => (ProcessErrorPrefix + message, None))
    case FromRelease(_) =>
      (match run.download
       case Success(data) => (DownloadedText, Some(data))
       case Failure(message) => (DownloadErrorPrefix + message, None))
  }

  /** A failed check leaves no address, so the update falls back to yt-dlp's own `--update`, or
      to the fixed message when yt-dlp is missing. */
  lemma FailedCheckFallsBack(current: string, exeExists: bool)
    ensures var info := ToolUpdateInfo(false, Some(CheckFailedText), Some(current), None);
      Route(Some(info), exeExists) == if exeExists then SelfUpdate else MissingUrl
  {
  }
}
